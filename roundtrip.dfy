/** What the decoder makes of the bytes the encoder writes, and of the malformed inputs the
    client can receive: the frame grammar read end to end. */
module FrameRoundTrip {
  import opened Wrappers
  import opened Text
  import opened Buffers
  import opened RelpCommands
  import opened Frames
  import opened RelpParsing

  /** A command the encoder can write and the decoder can read back: ASCII, without SP or LF. */
  predicate IsCommandToken(cmd: string) {
    IsAscii(cmd) && forall i :: 0 <= i < |cmd| ==> cmd[i] != ' ' && cmd[i] != '\n'
  }

  lemma TokenBytes(cmd: string)
    requires IsCommandToken(cmd)
    ensures NoDelimiter(AsciiEncode(cmd)) && AsciiDecode(AsciiEncode(cmd)) == cmd
  {
    AsciiRoundTrip(cmd);
    var bs := AsciiEncode(cmd);
    forall i | 0 <= i < |bs| ensures bs[i] != SP && bs[i] != LF {
      assert bs[i] as int == cmd[i] as int;
    }
  }

  lemma KnownCommandsAreTokens(cmd: string)
    requires IsKnownCommand(cmd)
    ensures IsCommandToken(cmd) && |cmd| <= MAX_COMMAND_LENGTH
  {
  }

  lemma FeedOne(p: ParserView, b: byte)
    requires Wf(p)
    ensures Feed(p, [b]) == Step(p, b)
  {
  }

  /** TXNR SP COMMAND SP */
  function CommandPrefix(txn: int, cmd: string): seq<byte> {
    NumberBytes(txn) + [SP] + AsciiEncode(cmd) + [SP]
  }

  /** The parser after TXNR SP COMMAND SP: in LENGTH, with both fields read. */
  function AfterCommand(txn: int, cmd: string): ParserView {
    Initial.(state := LENGTH, txnStr := IntToString(txn), txnId := txn, cmdStr := cmd)
  }

  /** The parser after a whole header, before the delimiter that follows DATALEN. */
  function AfterHeader(txn: int, cmd: string, n: int): ParserView {
    AfterCommand(txn, cmd).(lenStr := IntToString(n))
  }

  /** The parser once all of DATA has arrived, waiting for the final LF. */
  function AwaitingNewline(txn: int, cmd: string, d: seq<byte>): ParserView {
    ParserView(NL, false, IntToString(txn), txn, cmd, IntToString(|d|), |d|, 0, Some(BufView(d, 0, |d|)))
  }

  /** The parser holding a complete frame whose buffer reads back as `d`. */
  function Parsed(txn: int, cmd: string, d: seq<byte>): ParserView {
    AwaitingNewline(txn, cmd, d).(isComplete := true)
  }

  function Payload(data: Option<seq<byte>>): seq<byte> {
    if data.Some? then data.value else []
  }

  /** The transaction number and the command are accepted, and the command is refused exactly
      when it is longer than 11 characters; the parser is in LENGTH either way. */
  lemma ParseCommandPrefix(txn: int, cmd: string)
    requires IsInt32(txn) && IsCommandToken(cmd)
    ensures |cmd| <= MAX_COMMAND_LENGTH ==>
      Feed(Initial, CommandPrefix(txn, cmd)) == Stepped(AfterCommand(txn, cmd), None)
    ensures |cmd| > MAX_COMMAND_LENGTH ==>
      Feed(Initial, CommandPrefix(txn, cmd)) == Stepped(AfterCommand(txn, cmd), Some(IllegalState("Invalid COMMAND.")))
  {
    var a := NumberBytes(txn);
    NumberBytesNoDelimiters(txn);
    assert NoDelimiter(a);
    FeedText(Initial, a);
    NumberBytesDecode(txn);
    var p1 := Initial.(txnStr := IntToString(txn));
    assert Feed(Initial, a) == Stepped(p1, None);
    ParseIntToString(txn);
    var p2 := p1.(txnId := txn, state := COMMAND);
    FeedOne(p1, SP);
    FeedConcat(Initial, a, [SP]);
    assert Feed(Initial, a + [SP]) == Stepped(p2, None);
    var c := AsciiEncode(cmd);
    TokenBytes(cmd);
    FeedText(p2, c);
    assert "" + cmd == cmd;
    var p3 := p2.(cmdStr := cmd);
    assert Feed(p2, c) == Stepped(p3, None);
    FeedConcat(Initial, a + [SP], c);
    CommandCheck(p3);
    FeedOne(p3, SP);
    FeedConcat(Initial, a + [SP] + c, [SP]);
  }

  /** A whole header with a known-good command leaves the parser before the DATALEN delimiter. */
  lemma ParseHeaderBytes(txn: int, cmd: string, n: int)
    requires IsInt32(txn) && IsCommandToken(cmd) && |cmd| <= MAX_COMMAND_LENGTH
    ensures Feed(Initial, HeaderBytes(txn, cmd, n)) == Stepped(AfterHeader(txn, cmd, n), None)
  {
    ParseCommandPrefix(txn, cmd);
    var p := AfterCommand(txn, cmd);
    var l := NumberBytes(n);
    NumberBytesNoDelimiters(n);
    assert NoDelimiter(l);
    FeedText(p, l);
    NumberBytesDecode(n);
    assert "" + IntToString(n) == IntToString(n);
    assert CommandPrefix(txn, cmd) + l == HeaderBytes(txn, cmd, n);
    FeedConcat(Initial, CommandPrefix(txn, cmd), l);
  }

  /** The parser once the SP after DATALEN was read: the length parsed, a buffer of that many
      cells allocated, and DATA next (NL straight away for an empty payload). */
  function LengthRead(txn: int, cmd: string, n: nat): ParserView {
    AfterHeader(txn, cmd, n).(len := n, lenLeft := n, data := Some(Allocated(n)), state := if n == 0 then NL else DATA)
  }

  lemma SpaceAfterHeader(txn: int, cmd: string, n: nat)
    requires n <= MaxInt
    ensures Feed(AfterHeader(txn, cmd, n), [SP]) == Stepped(LengthRead(txn, cmd, n), None)
  {
    ParseIntToString(n);
    FeedOne(AfterHeader(txn, cmd, n), SP);
  }

  /** SP DATA after the header: the buffer is allocated with DATALEN cells, filled with exactly
      the data bytes and flipped, and the parser waits for LF. */
  lemma ParseDataPart(txn: int, cmd: string, d: seq<byte>)
    requires |d| <= MaxInt
    ensures Feed(AfterHeader(txn, cmd, |d|), [SP] + d) == Stepped(AwaitingNewline(txn, cmd, d), None)
  {
    var q := LengthRead(txn, cmd, |d|);
    SpaceAfterHeader(txn, cmd, |d|);
    FeedConcat(AfterHeader(txn, cmd, |d|), [SP], d);
    if |d| == 0 {
      assert [SP] + d == [SP];
      assert Allocated(0) == BufView(d, 0, 0);
    } else {
      FeedData(q, d);
      FilledAllocated(d);
    }
  }

  /** Filling a newly allocated buffer of exactly the data's size leaves just the data. */
  lemma FilledAllocated(d: seq<byte>)
    ensures Filled(Allocated(|d|), d) == d
  {
    var a := Allocated(|d|);
    assert a.cells[..0] == [] && a.cells[|d|..] == [];
  }

  /** The bytes of a frame with a payload, without the final LF: the frame is read but not
      complete (the test input "2 rsp 6 200 OK"). */
  lemma ParseFrameBody(txn: int, cmd: string, d: seq<byte>)
    requires IsInt32(txn) && IsCommandToken(cmd) && |cmd| <= MAX_COMMAND_LENGTH && |d| <= MaxInt
    ensures Feed(Initial, FrameBody(txn, cmd, |d|, Some(d))) == Stepped(AwaitingNewline(txn, cmd, d), None)
  {
    ParseHeaderBytes(txn, cmd, |d|);
    ParseDataPart(txn, cmd, d);
    FeedConcat(Initial, HeaderBytes(txn, cmd, |d|), [SP] + d);
  }

  /** The round trip: the bytes `write` emits for a frame are decoded into a complete frame with
      the same transaction number, command and data length, whose buffer reads back the payload
      (or nothing, for a null payload). */
  lemma ParseWrittenFrame(txn: int, cmd: string, data: Option<seq<byte>>)
    requires IsInt32(txn) && IsCommandToken(cmd) && |cmd| <= MAX_COMMAND_LENGTH
    requires data.Some? ==> |data.value| <= MaxInt
    ensures Feed(Initial, FrameBytes(txn, cmd, DataLengthOf(data), data)) == Stepped(Parsed(txn, cmd, Payload(data)), None)
  {
    var n := DataLengthOf(data);
    if data.Some? {
      var d := data.value;
      ParseFrameBody(txn, cmd, d);
      FeedOne(AwaitingNewline(txn, cmd, d), LF);
      FeedConcat(Initial, FrameBody(txn, cmd, n, data), [LF]);
    } else {
      ParseHeaderBytes(txn, cmd, 0);
      var p := AfterHeader(txn, cmd, 0);
      ParseIntToString(0);
      assert Allocated(0) == BufView([], 0, 0);
      FeedOne(p, LF);
      assert FrameBytes(txn, cmd, n, data) == HeaderBytes(txn, cmd, 0) + [LF];
      FeedConcat(Initial, HeaderBytes(txn, cmd, 0), [LF]);
    }
  }

  /** The same round trip stated on a request frame: what its `write` emits parses back into its
      own header fields and payload. */
  lemma WrittenRequestParses(f: RelpFrameTX)
    requires IsInt32(f.transactionNumber) && IsCommandToken(f.command) && |f.command| <= MAX_COMMAND_LENGTH
    requires f.dataLength == DataLengthOf(f.data) && IsInt32(f.dataLength)
    ensures Feed(Initial, f.Bytes()) == Stepped(Parsed(f.transactionNumber, f.command, Payload(f.data)), None)
  {
    ParseWrittenFrame(f.transactionNumber, f.command, f.data);
  }

  // ---------------------------------------------------------------------------------------------
  // Inputs the decoder refuses or stops short on

  /** A transaction number `Integer.parseInt` refuses ("Seven") throws NumberFormatException at
      the first SP, whatever follows. */
  lemma NonNumericTxnRejected(t: string, rest: seq<byte>)
    requires IsCommandToken(t) && ParseInt(t).None?
    ensures Feed(Initial, AsciiEncode(t) + [SP] + rest) == Stepped(Initial.(txnStr := t), Some(NumberFormat(t)))
  {
    var a := AsciiEncode(t);
    TokenBytes(t);
    FeedText(Initial, a);
    assert "" + t == t;
    FeedOne(Initial.(txnStr := t), SP);
    FeedConcat(Initial, a, [SP]);
    FeedConcat(Initial, a + [SP], rest);
  }

  /** A DATALEN `Integer.parseInt` refuses ("six") throws NumberFormatException at its delimiter. */
  lemma NonNumericLengthRejected(txn: int, cmd: string, l: string, b: byte, rest: seq<byte>)
    requires IsInt32(txn) && IsCommandToken(cmd) && |cmd| <= MAX_COMMAND_LENGTH
    requires IsCommandToken(l) && ParseInt(l).None? && (b == SP || b == LF)
    ensures Feed(Initial, CommandPrefix(txn, cmd) + AsciiEncode(l) + [b] + rest) ==
      Stepped(AfterCommand(txn, cmd).(lenStr := l), Some(NumberFormat(l)))
  {
    ParseCommandPrefix(txn, cmd);
    var p := AfterCommand(txn, cmd);
    var a := AsciiEncode(l);
    TokenBytes(l);
    FeedText(p, a);
    assert "" + l == l;
    var q := p.(lenStr := l);
    FeedConcat(Initial, CommandPrefix(txn, cmd), a);
    FeedOne(q, b);
    FeedConcat(Initial, CommandPrefix(txn, cmd) + a, [b]);
    FeedConcat(Initial, CommandPrefix(txn, cmd) + a + [b], rest);
  }

  /** A negative DATALEN ("-6") is read and stored, and the allocation then throws
      IllegalArgumentException; a negative transaction number ("-2") is accepted. */
  lemma NegativeLengthFrameRejected(txn: int, cmd: string, n: int, b: byte, rest: seq<byte>)
    requires IsInt32(txn) && IsCommandToken(cmd) && |cmd| <= MAX_COMMAND_LENGTH
    requires MinInt <= n < 0 && (b == SP || b == LF)
    ensures Feed(Initial, HeaderBytes(txn, cmd, n) + [b] + rest) ==
      Stepped(AfterHeader(txn, cmd, n).(len := n, lenLeft := n), Some(IllegalArgument("capacity < 0")))
  {
    ParseHeaderBytes(txn, cmd, n);
    ParseIntToString(n);
    FeedOne(AfterHeader(txn, cmd, n), b);
    FeedConcat(Initial, HeaderBytes(txn, cmd, n), [b]);
    FeedConcat(Initial, HeaderBytes(txn, cmd, n) + [b], rest);
  }

  /** More data than DATALEN announced ("0 rsp 6 My Message Is Too Long"): the byte after the
      announced data is not LF and throws "relp frame parsing failure". */
  lemma OverlongFrameRejected(txn: int, cmd: string, d: seq<byte>, b: byte, rest: seq<byte>)
    requires IsInt32(txn) && IsCommandToken(cmd) && |cmd| <= MAX_COMMAND_LENGTH && |d| <= MaxInt
    requires b != LF
    ensures Feed(Initial, FrameBody(txn, cmd, |d|, Some(d)) + [b] + rest) ==
      Stepped(AwaitingNewline(txn, cmd, d), Some(IllegalState("relp frame parsing failure")))
  {
    ParseFrameBody(txn, cmd, d);
    FeedOne(AwaitingNewline(txn, cmd, d), b);
    FeedConcat(Initial, FrameBody(txn, cmd, |d|, Some(d)), [b]);
    FeedConcat(Initial, FrameBody(txn, cmd, |d|, Some(d)) + [b], rest);
  }

  /** After a complete frame, extra LFs ("0 rsp 3 six\n\n\n\n\n\n") leave it complete and
      unchanged, and any other trailing byte ("...\n\nBonjour") throws with the frame intact. */
  lemma TrailingBytesAfterFrame(txn: int, cmd: string, data: Option<seq<byte>>, bs: seq<byte>)
    requires IsInt32(txn) && IsCommandToken(cmd) && |cmd| <= MAX_COMMAND_LENGTH
    requires data.Some? ==> |data.value| <= MaxInt
    ensures AllNewlines(bs) ==>
      Feed(Initial, FrameBytes(txn, cmd, DataLengthOf(data), data) + bs) == Stepped(Parsed(txn, cmd, Payload(data)), None)
    ensures !AllNewlines(bs) ==>
      Feed(Initial, FrameBytes(txn, cmd, DataLengthOf(data), data) + bs) ==
      Stepped(Parsed(txn, cmd, Payload(data)), Some(IllegalState("relp frame parsing failure")))
  {
    ParseWrittenFrame(txn, cmd, data);
    CompleteFrameIsStable(Parsed(txn, cmd, Payload(data)), bs);
    FeedConcat(Initial, FrameBytes(txn, cmd, DataLengthOf(data), data), bs);
  }

  // ---------------------------------------------------------------------------------------------
  // The decoder's test inputs

  /** "2 rsp 6 200 OK\n": txn 2, command "rsp", length 6, data "200 OK", complete. */
  lemma HappyPathFrame()
    ensures Feed(Initial, FrameBytes(2, RESPONSE, 6, Some(AsciiEncode("200 OK")))) ==
      Stepped(Parsed(2, RESPONSE, AsciiEncode("200 OK")), None)
    ensures AsciiDecode(Parsed(2, RESPONSE, AsciiEncode("200 OK")).data.value.Unread()) == "200 OK"
  {
    var d := AsciiEncode("200 OK");
    AsciiRoundTrip("200 OK");
    assert d == BufView(d, 0, |d|).Unread();
    ParseWrittenFrame(2, RESPONSE, Some(d));
  }

  /** "2 horse 6 200 OK\n" is accepted: "horse" is unknown but not longer than 11 characters. */
  lemma UnknownShortCommandAccepted()
    ensures Feed(Initial, FrameBytes(2, "horse", 6, Some(AsciiEncode("200 OK")))).error.None?
    ensures Feed(Initial, FrameBytes(2, "horse", 6, Some(AsciiEncode("200 OK")))).view.isComplete
  {
    assert IsCommandToken("horse");
    ParseWrittenFrame(2, "horse", Some(AsciiEncode("200 OK")));
  }

  /** "0 open 0\n", "0 close 0\n", "0 rsp 0\n" and the other commands without payload: the LF
      right after DATALEN 0 completes the frame, with an empty buffer. */
  lemma ZeroLengthCommandFrame(cmd: string)
    requires IsKnownCommand(cmd)
    ensures Feed(Initial, FrameBytes(0, cmd, 0, None)) == Stepped(Parsed(0, cmd, []), None)
    ensures Parsed(0, cmd, []).data == Some(Allocated(0))
  {
    KnownCommandsAreTokens(cmd);
    ParseWrittenFrame(0, cmd, None);
  }

  /** "Seven rsp 6 200 OK\n" */
  lemma SevenRejected(rest: seq<byte>)
    ensures Feed(Initial, AsciiEncode("Seven") + [SP] + rest).error == Some(NumberFormat("Seven"))
  {
    ParseIntRejectsNonNumeric("Seven");
    assert IsCommandToken("Seven");
    NonNumericTxnRejected("Seven", rest);
  }

  /** "0 rsp six 200 OK\n" */
  lemma SixRejected(rest: seq<byte>)
    ensures Feed(Initial, CommandPrefix(0, RESPONSE) + AsciiEncode("six") + [SP] + rest).error == Some(NumberFormat("six"))
  {
    ParseIntRejectsNonNumeric("six");
    assert IsCommandToken("six");
    NonNumericLengthRejected(0, RESPONSE, "six", SP, rest);
  }

  /** "-2 rsp -6 200 OK\n" */
  lemma NegativeLengthExample(rest: seq<byte>)
    ensures Feed(Initial, HeaderBytes(-2, RESPONSE, -6) + [SP] + rest).error == Some(IllegalArgument("capacity < 0"))
    ensures Feed(Initial, HeaderBytes(-2, RESPONSE, -6) + [SP] + rest).view.txnId == -2
  {
    NegativeLengthFrameRejected(-2, RESPONSE, -6, SP, rest);
  }
}
