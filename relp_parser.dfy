/** The RELP frame decoder: a byte-at-a-time state machine over
      TXNR SP COMMAND SP DATALEN (SP | LF) DATA LF
    that accumulates the three header fields as text, parses the numbers, copies DATALEN bytes
    into a buffer and then waits for the trailing LF. */
module RelpParsing {
  import opened Wrappers
  import opened Text
  import opened Buffers
  import opened RelpCommands

  const MAX_COMMAND_LENGTH: nat := 11

  datatype ParserState = TXN | COMMAND | LENGTH | DATA | NL

  /** The parser's fields as a value; `data` is the frame buffer, `None` for Java's null. */
  datatype ParserView = ParserView(
    state: ParserState,
    isComplete: bool,
    txnStr: string,
    txnId: int,
    cmdStr: string,
    lenStr: string,
    len: int,
    lenLeft: int,
    data: Option<BufView>)

  /** The constructor's state (`frameLengthLeft` keeps Java's default 0). */
  const Initial: ParserView := ParserView(TXN, false, "", -1, "", "", -1, 0, None)

  /** The state after one `parse(b)` call, and the exception it threw, if any. */
  datatype Stepped = Stepped(view: ParserView, error: Option<Exception>)

  /** What every reachable parser state satisfies: in DATA there is a buffer with exactly
      `lenLeft` cells of room; in NL there is a buffer; a complete frame is in NL. */
  ghost predicate Wf(p: ParserView) {
    (p.state == DATA ==>
      p.data.Some? && p.data.value.Valid() && p.lenLeft > 0 &&
      p.data.value.position + p.lenLeft == p.data.value.limit && !p.isComplete) &&
    (p.state == NL ==> p.data.Some? && p.data.value.Valid()) &&
    (p.isComplete ==> p.state == NL)
  }

  predicate InHeader(p: ParserView) {
    p.state == TXN || p.state == COMMAND || p.state == LENGTH
  }

  /** Appends text to the header field that the current state accumulates. */
  function AppendText(p: ParserView, s: string): (r: ParserView)
    requires InHeader(p)
    ensures InHeader(r) && r.state == p.state && r.isComplete == p.isComplete && r.data == p.data
  {
    if p.state == TXN then p.(txnStr := p.txnStr + s)
    else if p.state == COMMAND then p.(cmdStr := p.cmdStr + s)
    else p.(lenStr := p.lenStr + s)
  }

  /** Whether the COMMAND check at its delimiter rejects a command. */
  predicate RejectsCommand(cmd: string) {
    |cmd| > MAX_COMMAND_LENGTH && !IsKnownCommand(cmd)
  }

  /** One call of `parse(b)`. Errors leave the fields as Java leaves them at the throw. */
  ghost function Step(p: ParserView, b: byte): (r: Stepped)
    requires Wf(p)
    ensures Wf(r.view)
    ensures r.error.Some? ==>
      r.error.value.NumberFormat? || r.error.value.IllegalArgument? || r.error.value.IllegalState?
    ensures r.view.isComplete && !p.isComplete ==> b == LF
  {
    match p.state
    case TXN => StepTxn(p, b)
    case COMMAND => StepCommand(p, b)
    case LENGTH => StepLength(p, b)
    case DATA => StepData(p, b)
    case NL => StepNewline(p, b)
  }

  /** TXN: SP ends the transaction number, which must parse as an int. */
  ghost function StepTxn(p: ParserView, b: byte): Stepped
    requires Wf(p) && p.state == TXN
  {
    if b == SP then
      match ParseInt(p.txnStr)
      case None => Stepped(p, Some(NumberFormat(p.txnStr)))
      case Some(n) => Stepped(p.(txnId := n, state := COMMAND), None)
    else Stepped(AppendText(p, [ByteToChar(b)]), None)
  }

  /** COMMAND: SP ends the command; the state moves to LENGTH before the check can throw. */
  ghost function StepCommand(p: ParserView, b: byte): Stepped
    requires Wf(p) && p.state == COMMAND
  {
    if b == SP then
      var q := p.(state := LENGTH);
      if RejectsCommand(p.cmdStr) then Stepped(q, Some(IllegalState("Invalid COMMAND.")))
      else Stepped(q, None)
    else Stepped(AppendText(p, [ByteToChar(b)]), None)
  }

  /** LENGTH: SP or LF ends DATALEN; the length fields are set before the buffer allocation can
      throw. The source's `frameLength > Integer.MAX_VALUE` test can never hold for an int. */
  ghost function StepLength(p: ParserView, b: byte): Stepped
    requires Wf(p) && p.state == LENGTH
  {
    if b == SP || b == LF then
      match ParseInt(p.lenStr)
      case None => Stepped(p, Some(NumberFormat(p.lenStr)))
      case Some(n) =>
        var q := p.(len := n, lenLeft := n);
        if n < 0 then Stepped(q, Some(IllegalArgument("capacity < 0")))
        else
          var r := q.(data := Some(Allocated(n)), state := if n == 0 then NL else DATA);
          Stepped(if b == LF && n == 0 then r.(isComplete := true) else r, None)
    else Stepped(AppendText(p, [ByteToChar(b)]), None)
  }

  /** DATA: the byte goes into the buffer; after the last one the buffer is flipped. */
  ghost function StepData(p: ParserView, b: byte): Stepped
    requires Wf(p) && p.state == DATA
  {
    var p1 := if p.isComplete then p.(state := NL) else p;
    var p2 := if p1.lenLeft > 0 then p1.(data := Some(p1.data.value.Put(b)), lenLeft := p1.lenLeft - 1) else p1;
    if p2.lenLeft == 0 then Stepped(p2.(data := Some(p2.data.value.Flip()), state := NL), None)
    else Stepped(p2, None)
  }

  /** NL: only LF is accepted, and it completes the frame. */
  ghost function StepNewline(p: ParserView, b: byte): Stepped
    requires Wf(p) && p.state == NL
  {
    if b == LF then Stepped(p.(isComplete := true), None)
    else Stepped(p, Some(IllegalState("relp frame parsing failure")))
  }

  /** Parsing a sequence of bytes, stopping at the first exception. */
  ghost function Feed(p: ParserView, bs: seq<byte>): (r: Stepped)
    requires Wf(p)
    ensures Wf(r.view)
    decreases |bs|
  {
    if |bs| == 0 then Stepped(p, None)
    else
      var s := Step(p, bs[0]);
      if s.error.Some? then s else Feed(s.view, bs[1..])
  }

  // ---------------------------------------------------------------------------------------------
  // Properties of the decoder

  /** Parsing `a + b` is parsing `a`, then (unless it threw) parsing `b`. */
  lemma {:induction false} FeedConcat(p: ParserView, a: seq<byte>, b: seq<byte>)
    requires Wf(p)
    ensures Feed(p, a + b) == (var r := Feed(p, a); if r.error.Some? then r else Feed(r.view, b))
    decreases |a|
  {
    if |a| == 0 {
      assert a + b == b;
    } else {
      assert (a + b)[0] == a[0] && (a + b)[1..] == a[1..] + b;
      var s := Step(p, a[0]);
      if s.error.None? {
        FeedConcat(s.view, a[1..], b);
      }
    }
  }

  predicate NoDelimiter(bs: seq<byte>) {
    forall i :: 0 <= i < |bs| ==> bs[i] != SP && bs[i] != LF
  }

  lemma AppendTextTwice(p: ParserView, s: string, t: string)
    requires InHeader(p)
    ensures AppendText(AppendText(p, s), t) == AppendText(p, s + t)
  {
    assert p.txnStr + s + t == p.txnStr + (s + t);
    assert p.cmdStr + s + t == p.cmdStr + (s + t);
    assert p.lenStr + s + t == p.lenStr + (s + t);
  }

  /** In a header state, bytes that are neither SP nor LF are appended to the field, one
      character per byte. */
  lemma {:induction false} FeedText(p: ParserView, bs: seq<byte>)
    requires Wf(p) && InHeader(p) && NoDelimiter(bs)
    ensures Feed(p, bs) == Stepped(AppendText(p, AsciiDecode(bs)), None)
    decreases |bs|
  {
    if |bs| == 0 {
      assert AsciiDecode(bs) == [];
      assert p.txnStr + [] == p.txnStr && p.cmdStr + [] == p.cmdStr && p.lenStr + [] == p.lenStr;
    } else {
      var c := [ByteToChar(bs[0])];
      var q := AppendText(p, c);
      assert Step(p, bs[0]) == Stepped(q, None);
      FeedText(q, bs[1..]);
      assert AsciiDecode(bs) == c + AsciiDecode(bs[1..]);
      AppendTextTwice(p, c, AsciiDecode(bs[1..]));
    }
  }

  /** The cells of a buffer after `bs` has been written over the room between position and limit. */
  function Filled(d: BufView, bs: seq<byte>): seq<byte>
    requires d.Valid() && d.position + |bs| == d.limit
  {
    d.cells[..d.position] + bs + d.cells[d.limit..]
  }

  /** In DATA, exactly `lenLeft` bytes are copied verbatim into the buffer, which is then flipped
      for reading, and the parser moves to NL. */
  lemma {:induction false} FeedData(p: ParserView, bs: seq<byte>)
    requires Wf(p) && p.state == DATA && |bs| == p.lenLeft
    ensures Feed(p, bs) == Stepped(p.(state := NL, lenLeft := 0,
      data := Some(BufView(Filled(p.data.value, bs), 0, p.data.value.limit))), None)
    decreases |bs|
  {
    var d := p.data.value;
    var d1 := d.Put(bs[0]);
    FilledPut(d, bs);
    if |bs| > 1 {
      var q := p.(data := Some(d1), lenLeft := p.lenLeft - 1);
      assert Step(p, bs[0]) == Stepped(q, None);
      FeedData(q, bs[1..]);
    }
  }

  /** Filling after one `put` is filling with that byte first. */
  lemma FilledPut(d: BufView, bs: seq<byte>)
    requires d.Valid() && |bs| >= 1 && d.position + |bs| == d.limit
    ensures Filled(d.Put(bs[0]), bs[1..]) == Filled(d, bs)
    ensures |bs| == 1 ==> d.Put(bs[0]).cells == Filled(d, bs)
  {
    var d1 := d.Put(bs[0]);
    assert d1.cells[d1.limit..] == d.cells[d.limit..];
    assert d1.cells[..d1.position] + bs[1..] == d.cells[..d.position] + bs;
    if |bs| == 1 {
      assert d1.cells == d1.cells[..d1.position] + d1.cells[d1.limit..];
    }
  }

  /** Since every known command has at most 11 characters, the COMMAND check rejects exactly
      the commands longer than 11 characters; either way the parser has moved on to LENGTH. */
  lemma CommandCheck(p: ParserView)
    requires Wf(p) && p.state == COMMAND
    ensures Step(p, SP).view == p.(state := LENGTH)
    ensures Step(p, SP).error.Some? <==> |p.cmdStr| > MAX_COMMAND_LENGTH
    ensures Step(p, SP).error.Some? ==> Step(p, SP).error == Some(IllegalState("Invalid COMMAND."))
  {
    if IsKnownCommand(p.cmdStr) {
      KnownCommandsAreShort(p.cmdStr);
    }
  }

  /** The delimiter after DATALEN 0: LF completes the frame at once, SP waits in NL for the LF. */
  lemma ZeroLengthDelimiter(p: ParserView, b: byte)
    requires Wf(p) && p.state == LENGTH && ParseInt(p.lenStr) == Some(0) && (b == SP || b == LF)
    ensures Step(p, b).error.None? && Step(p, b).view.state == NL
    ensures Step(p, b).view.isComplete <==> b == LF
    ensures Step(p, b).view.data == Some(Allocated(0))
  {
  }

  /** A negative DATALEN is refused by the buffer allocation, after the length fields were set. */
  lemma NegativeLengthRejected(p: ParserView, b: byte, n: int)
    requires Wf(p) && p.state == LENGTH && ParseInt(p.lenStr) == Some(n) && n < 0 && (b == SP || b == LF)
    ensures Step(p, b).error.Some? && Step(p, b).error.value.IsIllegalArgument()
    ensures Step(p, b).view == p.(len := n, lenLeft := n)
  {
  }

  /** A header number that `Integer.parseInt` refuses raises NumberFormatException at its
      delimiter, and the state is left as it was. */
  lemma NonNumericRejected(p: ParserView, b: byte)
    requires Wf(p) && ((p.state == TXN && b == SP && ParseInt(p.txnStr).None?) ||
                       (p.state == LENGTH && (b == SP || b == LF) && ParseInt(p.lenStr).None?))
    ensures Step(p, b).view == p
    ensures Step(p, b).error.Some? && Step(p, b).error.value.NumberFormat?
  {
  }

  predicate AllNewlines(bs: seq<byte>) {
    forall i :: 0 <= i < |bs| ==> bs[i] == LF
  }

  /** Once a frame is complete, further LFs change nothing, and the first other byte throws
      "relp frame parsing failure" with the frame left as it was. */
  lemma {:induction false} CompleteFrameIsStable(p: ParserView, bs: seq<byte>)
    requires Wf(p) && p.isComplete
    ensures AllNewlines(bs) ==> Feed(p, bs) == Stepped(p, None)
    ensures !AllNewlines(bs) ==> Feed(p, bs) == Stepped(p, Some(IllegalState("relp frame parsing failure")))
    decreases |bs|
  {
    if |bs| > 0 {
      assert p.(isComplete := true) == p;
      if bs[0] == LF {
        CompleteFrameIsStable(p, bs[1..]);
        assert AllNewlines(bs) <==> AllNewlines(bs[1..]);
      } else {
        assert !AllNewlines(bs);
      }
    }
  }

  /** After the DATALEN bytes of DATA, a byte other than LF throws: a frame whose data is longer
      than announced is refused. */
  lemma {:induction false} OverlongDataRejected(p: ParserView, bs: seq<byte>, b: byte)
    requires Wf(p) && p.state == DATA && |bs| == p.lenLeft && b != LF
    ensures Feed(p, bs + [b]).error == Some(IllegalState("relp frame parsing failure"))
  {
    FeedConcat(p, bs, [b]);
    FeedData(p, bs);
  }

  // ---------------------------------------------------------------------------------------------
  // The parser object

  class RelpParser {
    var state: ParserState
    var isComplete: bool
    var frameTxnIdString: string
    var frameTxnId: int
    var frameCommandString: string
    var frameLengthString: string
    var frameLength: int
    var frameLengthLeft: int
    var frameData: ByteBuffer?
    ghost var Repr: set<object>

    ghost function View(): ParserView
      reads this, Repr
      requires frameData != null ==> frameData in Repr && frameData.data in Repr
    {
      ParserView(state, isComplete, frameTxnIdString, frameTxnId, frameCommandString,
        frameLengthString, frameLength, frameLengthLeft,
        if frameData == null then None else Some(frameData.View()))
    }

    ghost predicate Valid()
      reads this, Repr
    {
      (frameData == null ==> Repr == {this}) &&
      (frameData != null ==> Repr == {this, frameData, frameData.data} && frameData.Valid()) &&
      Wf(View())
    }

    constructor ()
      ensures Valid() && fresh(Repr) && View() == Initial
    {
      state := TXN;
      isComplete := false;
      frameTxnIdString := "";
      frameTxnId := -1;
      frameCommandString := "";
      frameLengthString := "";
      frameLength := -1;
      frameLengthLeft := 0;
      frameData := null;
      Repr := {this};
    }

    /** Back to the constructor's state, dropping the frame buffer. */
    method Reset()
      modifies this
      ensures Valid() && Repr == {this} && View() == Initial
    {
      state := TXN;
      isComplete := false;
      frameTxnIdString := "";
      frameTxnId := -1;
      frameCommandString := "";
      frameLengthString := "";
      frameLength := -1;
      frameLengthLeft := 0;
      frameData := null;
      Repr := {this};
    }

    /** `parse(b)`; `err` is the exception the call throws, if any. */
    method Parse(b: byte) returns (err: Option<Exception>)
      requires Valid()
      modifies Repr
      ensures Valid() && fresh(Repr - old(Repr))
      ensures Stepped(View(), err) == Step(old(View()), b)
    {
      match state {
        case TXN => err := ParseTxn(b);
        case COMMAND => err := ParseCommand(b);
        case LENGTH => err := ParseLength(b);
        case DATA => err := ParseData(b);
        case NL => err := ParseNewline(b);
      }
    }

    method ParseTxn(b: byte) returns (err: Option<Exception>)
      requires Valid() && state == TXN
      modifies this
      ensures Valid() && Repr == old(Repr) && frameData == old(frameData)
      ensures Stepped(View(), err) == StepTxn(old(View()), b)
    {
      err := None;
      if b == SP {
        var n := ParseInt(frameTxnIdString);
        if n.None? {
          return Some(NumberFormat(frameTxnIdString));
        }
        frameTxnId := n.value;
        state := COMMAND;
      } else {
        frameTxnIdString := frameTxnIdString + [ByteToChar(b)];
      }
    }

    method ParseCommand(b: byte) returns (err: Option<Exception>)
      requires Valid() && state == COMMAND
      modifies this
      ensures Valid() && Repr == old(Repr) && frameData == old(frameData)
      ensures Stepped(View(), err) == StepCommand(old(View()), b)
    {
      err := None;
      if b == SP {
        state := LENGTH;
        if |frameCommandString| > MAX_COMMAND_LENGTH && !IsKnownCommand(frameCommandString) {
          return Some(IllegalState("Invalid COMMAND."));
        }
      } else {
        frameCommandString := frameCommandString + [ByteToChar(b)];
      }
    }

    method ParseLength(b: byte) returns (err: Option<Exception>)
      requires Valid() && state == LENGTH
      modifies this
      ensures Valid() && fresh(Repr - old(Repr))
      ensures Stepped(View(), err) == StepLength(old(View()), b)
    {
      err := None;
      if b == SP || b == LF {
        var n := ParseInt(frameLengthString);
        if n.None? {
          return Some(NumberFormat(frameLengthString));
        }
        frameLength := n.value;
        frameLengthLeft := frameLength;
        err := AllocateFrame(b);
      } else {
        frameLengthString := frameLengthString + [ByteToChar(b)];
      }
    }

    /** The end of DATALEN once it has been parsed: allocate the buffer and pick the next state. */
    method AllocateFrame(b: byte) returns (err: Option<Exception>)
      requires Valid() && state == LENGTH && (b == SP || b == LF)
      requires ParseInt(frameLengthString) == Some(frameLength) && frameLengthLeft == frameLength
      modifies this
      ensures Valid() && fresh(Repr - old(Repr))
      ensures old(frameLength) < 0 ==>
        err == Some(IllegalArgument("capacity < 0")) && View() == old(View())
      ensures old(frameLength) >= 0 ==> err.None?
      ensures old(frameLength) >= 0 ==>
        View() == (var r := old(View()).(data := Some(Allocated(old(frameLength) as nat)),
                                        state := if frameLength == 0 then NL else DATA);
                   if b == LF && frameLength == 0 then r.(isComplete := true) else r)
    {
      err := None;
      var buffer := AllocateDirect(frameLength);
      if buffer.Thrown? {
        return Some(buffer.ex);
      }
      frameData, Repr := buffer.value, {this, buffer.value, buffer.value.data};
      state := if frameLength == 0 then NL else DATA;
      if b == LF && frameLength == 0 {
        isComplete := true;
      }
    }

    method ParseData(b: byte) returns (err: Option<Exception>)
      requires Valid() && state == DATA
      modifies Repr
      ensures Valid() && Repr == old(Repr) && frameData == old(frameData)
      ensures Stepped(View(), err) == StepData(old(View()), b)
    {
      err := None;
      // The source first moves to NL when the frame is complete; a complete frame is never in
      // DATA, so that statement has no effect here.
      if frameLengthLeft > 0 {
        frameData.Put(b);
        frameLengthLeft := frameLengthLeft - 1;
      }
      if frameLengthLeft == 0 {
        frameData.Flip();
        state := NL;
      }
    }

    method ParseNewline(b: byte) returns (err: Option<Exception>)
      requires Valid() && state == NL
      modifies this
      ensures Valid() && Repr == old(Repr) && frameData == old(frameData)
      ensures Stepped(View(), err) == StepNewline(old(View()), b)
    {
      err := None;
      if b == LF {
        isComplete := true;
      } else {
        return Some(IllegalState("relp frame parsing failure"));
      }
    }
  }
}
