/** RELP frames: the request frame the client writes (RelpFrameTX), the response frame it builds
    from a parsed reply (RelpFrameRX), and the older text-payload response (RelpResponse). The
    three share the header fields of AbstractRelpFrame: a transaction number, a command and
    a data length. */
module Frames {
  import opened Wrappers
  import opened Text
  import opened Buffers
  import opened RelpCommands

  // ---------------------------------------------------------------------------------------------
  // The wire form of a request

  /** HEADER = TXNR SP COMMAND SP DATALEN, each part written as US-ASCII text. */
  function HeaderBytes(txn: int, command: string, dataLength: int): seq<byte> {
    NumberBytes(txn) + [SP] + AsciiEncode(command) + [SP] + NumberBytes(dataLength)
  }

  /** SP DATA when there is a payload, nothing for a null payload. */
  function DataPart(data: Option<seq<byte>>): seq<byte> {
    if data.Some? then [SP] + data.value else []
  }

  /** A frame without its trailing LF. */
  function FrameBody(txn: int, command: string, dataLength: int, data: Option<seq<byte>>): seq<byte> {
    HeaderBytes(txn, command, dataLength) + DataPart(data)
  }

  /** Everything `write` puts into the buffer: header, data part and one LF. */
  function FrameBytes(txn: int, command: string, dataLength: int, data: Option<seq<byte>>): (bs: seq<byte>)
    ensures |bs| > 0 && bs[|bs| - 1] == LF
    ensures bs[..|bs| - 1] == FrameBody(txn, command, dataLength, data)
  {
    FrameBody(txn, command, dataLength, data) + [LF]
  }

  function DataLengthOf(data: Option<seq<byte>>): nat {
    if data.Some? then |data.value| else 0
  }

  /** `length()`: it always counts a space before DATA, so it equals the bytes `write` emits
      when there is a payload, and is one more than them for a null payload. */
  function PrecomputedLength(txn: int, command: string, dataLength: int, data: Option<seq<byte>>): (n: int)
    ensures n == |FrameBytes(txn, command, dataLength, data)| + (if data.None? then 1 else 0)
  {
    var txnLen := |NumberBytes(txn)|;
    var commandLen := |AsciiEncode(command)|;
    var lengthLen := |NumberBytes(dataLength)|;
    txnLen + 1 + commandLen + 1 + lengthLen + 1 + DataLengthOf(data) + 1
  }

  /** `toString()` of a request: "txn command len " and the payload decoded as UTF-8, or "". */
  function RequestText(txn: int, command: string, dataLength: int, data: Option<seq<byte>>): string {
    IntToString(txn) + " " + command + " " + IntToString(dataLength) + " " +
    (if data.Some? then Utf8Decode(data.value) else "")
  }

  /** For an ASCII command and ASCII payload, the text of a request is its wire form without
      the trailing LF. */
  lemma RequestTextMatchesWire(txn: int, command: string, data: seq<byte>)
    requires IsAscii(command) && AllAsciiBytes(data)
    ensures AsciiEncode(RequestText(txn, command, |data|, Some(data))) + [LF] == FrameBytes(txn, command, |data|, Some(data))
  {
    Utf8DecodeAscii(data);
    AsciiBytesRoundTrip(data);
    var text := RequestText(txn, command, |data|, Some(data));
    assert text == IntToString(txn) + " " + command + " " + IntToString(|data|) + " " + AsciiDecode(data);
    AsciiEncodeLine(text);
    LineText(txn, command, |data|, AsciiDecode(data));
  }

  /** The text "txn command len" encodes to the header bytes. */
  lemma HeaderText(txn: int, command: string, dataLength: int)
    ensures AsciiEncode(IntToString(txn) + " " + command + " " + IntToString(dataLength)) == HeaderBytes(txn, command, dataLength)
  {
    AsciiEncodeSpaced(IntToString(txn) + " " + command, IntToString(dataLength));
    AsciiEncodeSpaced(IntToString(txn), command);
  }

  lemma SpacedLine(header: seq<byte>, payload: seq<byte>)
    ensures header + [SP] + payload + [LF] == header + ([SP] + payload) + [LF]
  {
  }

  /** The text "txn command len payload\n" encodes to the frame carrying the encoded payload. */
  lemma LineText(txn: int, command: string, dataLength: int, payload: string)
    ensures AsciiEncode(IntToString(txn) + " " + command + " " + IntToString(dataLength) + " " + payload + "\n") ==
      FrameBytes(txn, command, dataLength, Some(AsciiEncode(payload)))
  {
    var h := IntToString(txn) + " " + command + " " + IntToString(dataLength);
    AsciiEncodeLine(h + " " + payload);
    AsciiEncodeSpaced(h, payload);
    HeaderText(txn, command, dataLength);
    SpacedLine(HeaderBytes(txn, command, dataLength), AsciiEncode(payload));
  }

  // ---------------------------------------------------------------------------------------------
  // RelpFrameTX

  /** Header, data part and LF appended in turn make one frame appended. */
  lemma AppendedInTurn(w0: seq<byte>, w1: seq<byte>, w2: seq<byte>, w3: seq<byte>, header: seq<byte>, part: seq<byte>)
    requires w1 == w0 + header && w2 == w1 + part && w3 == w2 + [LF]
    ensures w3 == w0 + (header + part + [LF])
  {
  }

  class RelpFrameTX {
    var transactionNumber: int
    const command: string
    const dataLength: int
    const data: Option<seq<byte>>

    /** `RelpFrameTX(command, data)`: the data length is the payload's, 0 for null; the
        transaction number keeps Java's default 0 until it is stamped. */
    constructor (command: string, data: Option<seq<byte>>)
      requires data.Some? ==> |data.value| <= MaxInt
      ensures transactionNumber == 0 && this.command == command && this.data == data
      ensures dataLength == DataLengthOf(data) && IsInt32(dataLength)
    {
      transactionNumber := 0;
      this.command := command;
      this.dataLength := DataLengthOf(data);
      this.data := data;
    }

    /** `RelpFrameTX(byte[] data)`: a syslog frame. */
    constructor OfSyslog(data: Option<seq<byte>>)
      requires data.Some? ==> |data.value| <= MaxInt
      ensures transactionNumber == 0 && command == SYSLOG && this.data == data
      ensures dataLength == DataLengthOf(data) && IsInt32(dataLength)
    {
      transactionNumber := 0;
      command := SYSLOG;
      dataLength := DataLengthOf(data);
      this.data := data;
    }

    /** `RelpFrameTX(command)`: a frame without payload. */
    constructor OfCommand(command: string)
      ensures transactionNumber == 0 && this.command == command && data.None? && dataLength == 0
    {
      transactionNumber := 0;
      this.command := command;
      dataLength := 0;
      data := None;
    }

    method SetTransactionNumber(txID: int)
      modifies this
      ensures transactionNumber == txID
    {
      transactionNumber := txID;
    }

    /** The bytes `write` emits for the current fields. */
    function Bytes(): seq<byte>
      reads this
    {
      FrameBytes(transactionNumber, command, dataLength, data)
    }

    /** `length()`: the count summed in Java `int` arithmetic, which wraps round once it
        passes 2^31 - 1; below that it is the exact count. */
    function Length(): (n: int)
      reads this
      ensures var exact := PrecomputedLength(transactionNumber, command, dataLength, data);
        IsInt32(n) && (n - exact) % 0x1_0000_0000 == 0
      ensures PrecomputedLength(transactionNumber, command, dataLength, data) <= MaxInt ==>
        n >= |Bytes()| && (n == |Bytes()| <==> data.Some?)
    {
      Wrap32(PrecomputedLength(transactionNumber, command, dataLength, data))
    }

    function ToString(): string
      reads this
    {
      RequestText(transactionNumber, command, dataLength, data)
    }

    /** `write(dst)`: header, data part and LF, appended after the buffer's position. */
    method Write(dst: ByteBuffer)
      requires dst.Valid() && |Bytes()| <= dst.Remaining()
      modifies dst, dst.data
      ensures dst.Valid() && dst.limit == old(dst.limit)
      ensures dst.Written() == old(dst.Written()) + Bytes()
    {
      ghost var w0 := dst.Written();
      PutHeader(dst);
      ghost var w1 := dst.Written();
      PutData(dst);
      ghost var w2 := dst.Written();
      dst.PutAll([LF]);
      AppendedInTurn(w0, w1, w2, dst.Written(), HeaderBytes(transactionNumber, command, dataLength), DataPart(data));
    }

    method PutHeader(dst: ByteBuffer)
      requires dst.Valid() && |HeaderBytes(transactionNumber, command, dataLength)| <= dst.Remaining()
      modifies dst, dst.data
      ensures dst.Valid() && dst.limit == old(dst.limit)
      ensures dst.Written() == old(dst.Written()) + HeaderBytes(transactionNumber, command, dataLength)
    {
      PutFields(dst, NumberBytes(transactionNumber), AsciiEncode(command), NumberBytes(dataLength));
    }

    /** The three encoded header fields, each of the first two followed by SP. */
    static method PutFields(dst: ByteBuffer, txn: seq<byte>, command: seq<byte>, dataLength: seq<byte>)
      requires dst.Valid() && |txn| + 1 + |command| + 1 + |dataLength| <= dst.Remaining()
      modifies dst, dst.data
      ensures dst.Valid() && dst.limit == old(dst.limit)
      ensures dst.Written() == old(dst.Written()) + txn + [SP] + command + [SP] + dataLength
    {
      dst.PutAll(txn);
      dst.PutAll([SP]);
      dst.PutAll(command);
      dst.PutAll([SP]);
      dst.PutAll(dataLength);
    }

    method PutData(dst: ByteBuffer)
      requires dst.Valid() && |DataPart(data)| <= dst.Remaining()
      modifies dst, dst.data
      ensures dst.Valid() && dst.limit == old(dst.limit)
      ensures dst.Written() == old(dst.Written()) + DataPart(data)
    {
      if data.Some? {
        dst.PutAll([SP]);
        dst.PutAll(data.value);
      }
    }
  }

  // ---------------------------------------------------------------------------------------------
  // RelpFrameRX

  predicate IsDigitByte(b: byte) {
    48 <= b <= 57
  }

  /** `getResponseCode()` of a response frame, as its loop decides: a non-digit among the first
      three bytes is "not a number"; with three digits, a fourth byte that is a space gives the
      code, any other fourth byte is "too long", and no fourth byte is "not present". */
  predicate LeadingDigits(data: seq<byte>) {
    forall i :: 0 <= i < 3 && i < |data| ==> IsDigitByte(data[i])
  }

  function ResponseCode(data: seq<byte>): Outcome<int> {
    if !LeadingDigits(data) then
      Thrown(IllegalArgument("response code not a number"))
    else if |data| <= 3 then Thrown(IllegalArgument("response code not present"))
    else if data[3] == SP then
      match ParseInt(AsciiDecode(data[..3]))
      case Some(v) => Ok(v)
      case None => Thrown(NumberFormat(AsciiDecode(data[..3])))
    else Thrown(IllegalArgument("response code too long"))
  }

  /** A code is returned exactly for three ASCII digits followed by a space; it is their value,
      between 0 and 999. Every failure is an IllegalArgumentException. */
  lemma ResponseCodeValue(data: seq<byte>)
    ensures ResponseCode(data).Ok? <==>
      |data| >= 4 && IsDigitByte(data[0]) && IsDigitByte(data[1]) && IsDigitByte(data[2]) && data[3] == SP
    ensures ResponseCode(data).Ok? ==>
      ResponseCode(data).value == (data[0] as int - 48) * 100 + (data[1] as int - 48) * 10 + (data[2] as int - 48)
    ensures ResponseCode(data).Ok? ==> 0 <= ResponseCode(data).value <= 999
    ensures ResponseCode(data).Thrown? ==> ResponseCode(data).ex.IllegalArgument?
  {
    if |data| >= 4 && IsDigitByte(data[0]) && IsDigitByte(data[1]) && IsDigitByte(data[2]) {
      var s := AsciiDecode(data[..3]);
      assert AllDigits(s);
      DigitsValueOfThree(s);
    } else {
      if |data| >= 4 {
        assert !(IsDigitByte(data[0]) && IsDigitByte(data[1]) && IsDigitByte(data[2]));
      }
    }
  }

  class RelpFrameRX {
    var transactionNumber: int
    const command: string
    const dataLength: int
    const data: seq<byte>

    /** `RelpFrameRX(txID, command, dataLength, src)`: the data is everything that remains in
        `src`, whatever `dataLength` says, and `src` is drained. */
    constructor (txID: int, command: string, dataLength: int, src: ByteBuffer)
      requires src.Valid()
      modifies src
      ensures transactionNumber == txID && this.command == command && this.dataLength == dataLength
      ensures data == old(src.Unread())
      ensures src.Valid() && src.limit == old(src.limit) && src.position == src.limit
    {
      transactionNumber := txID;
      this.command := command;
      this.dataLength := dataLength;
      var got := src.GetBytes(src.Remaining());
      data := got.value;
    }

    method SetTransactionNumber(txID: int)
      modifies this
      ensures transactionNumber == txID
    {
      transactionNumber := txID;
    }

    /** `toString()`: "txn command len data\n", the data decoded with the default charset,
        taken here as UTF-8. */
    function ToString(): string
      reads this
    {
      IntToString(transactionNumber) + " " + command + " " + IntToString(dataLength) + " " +
      Utf8Decode(data) + "\n"
    }

    /** `getResponseCode()`: the loop over the data with a position and a three-byte code. */
    method GetResponseCode() returns (r: Outcome<int>)
      ensures r == ResponseCode(data)
    {
      var position := 0;
      var code := new byte[3];
      for i := 0 to |data|
        invariant position == i && i <= 3
        invariant forall k :: 0 <= k < i ==> IsDigitByte(data[k]) && code[k] == data[k]
      {
        var datum := data[i];
        if position == 3 && datum == SP {
          assert code[..] == data[..3];
          var parsed := ParseInt(AsciiDecode(code[..]));
          return if parsed.Some? then Ok(parsed.value) else Thrown(NumberFormat(AsciiDecode(code[..])));
        } else if position >= 3 {
          return Thrown(IllegalArgument("response code too long"));
        }
        if 48 <= datum <= 57 {
          code[position] := datum;
        } else {
          return Thrown(IllegalArgument("response code not a number"));
        }
        position := position + 1;
      }
      return Thrown(IllegalArgument("response code not present"));
    }
  }

  /** For ASCII data, the text of a response frame is the wire form the parser accepted. */
  lemma ResponseTextMatchesWire(f: RelpFrameRX)
    requires IsAscii(f.command) && AllAsciiBytes(f.data)
    ensures AsciiEncode(f.ToString()) == FrameBytes(f.transactionNumber, f.command, f.dataLength, Some(f.data))
  {
    Utf8DecodeAscii(f.data);
    AsciiBytesRoundTrip(f.data);
    LineText(f.transactionNumber, f.command, f.dataLength, AsciiDecode(f.data));
  }

  // ---------------------------------------------------------------------------------------------
  // AbstractRelpFrame.readString and RelpResponse

  /** `readString(src, dataLength)`: null for a non-positive length; otherwise exactly
      `dataLength` bytes decoded as US-ASCII, or BufferUnderflowException when fewer remain. */
  method ReadString(src: ByteBuffer, dataLength: int) returns (r: Outcome<Option<string>>)
    requires src.Valid()
    modifies src
    ensures src.Valid() && src.limit == old(src.limit)
    ensures dataLength <= 0 ==> r == Ok(None) && src.position == old(src.position)
    ensures 0 < dataLength <= old(src.Remaining()) ==>
      r == Ok(Some(AsciiDecode(old(src.Unread())[..dataLength]))) && src.position == old(src.position) + dataLength
    ensures dataLength > old(src.Remaining()) && dataLength > 0 ==>
      r == Thrown(BufferUnderflow) && src.position == old(src.position)
  {
    if dataLength > 0 {
      var bytes := src.GetBytes(dataLength);
      if bytes.Thrown? {
        return Thrown(bytes.ex);
      }
      return Ok(Some(AsciiDecode(bytes.value)));
    } else {
      return Ok(None);
    }
  }

  /** `payload.indexOf(c)`: the first index of `c`, or -1. */
  function IndexOf(s: string, c: char): (i: int)
    ensures -1 <= i < |s|
    ensures i >= 0 ==> s[i] == c && c !in s[..i]
    ensures i == -1 <==> c !in s
  {
    if |s| == 0 then -1
    else if s[0] == c then 0
    else
      var j := IndexOf(s[1..], c);
      assert j >= 0 ==> s[1..][..j] == s[1..j + 1];
      if j < 0 then -1 else j + 1
  }

  /** The first occurrence is the one with no earlier occurrence. */
  lemma IndexOfAt(s: string, c: char, k: nat)
    requires k < |s| && s[k] == c && c !in s[..k]
    ensures IndexOf(s, c) == k
  {
    assert s[..k + 1][k] == c;
  }

  /** `getResponseCode()` of the legacy response: the text before the first space, parsed as an
      int. A null payload is a NullPointerException and a payload without a space makes
      `substring(0, -1)` throw StringIndexOutOfBoundsException. */
  function LegacyResponseCode(payload: Option<string>): (r: Outcome<int>)
    ensures payload.None? ==> r == Thrown(NullPointer)
    ensures payload.Some? && ' ' !in payload.value ==> r == Thrown(IndexOutOfBounds)
    ensures r.Ok? ==> ' ' in payload.value
    ensures r.Ok? ==> ParseInt(payload.value[..IndexOf(payload.value, ' ')]) == Some(r.value)
  {
    if payload.None? then Thrown(NullPointer)
    else
      var index := IndexOf(payload.value, ' ');
      if index < 0 then Thrown(IndexOutOfBounds)
      else
        match ParseInt(payload.value[..index])
        case Some(v) => Ok(v)
        case None => Thrown(NumberFormat(payload.value[..index]))
  }

  class RelpResponse {
    var transactionNumber: int
    const command: string
    const dataLength: int
    const payload: Option<string>

    /** Sets the header fields and a payload already read. */
    constructor (txID: int, command: string, dataLength: int, payload: Option<string>)
      ensures transactionNumber == txID && this.command == command && this.dataLength == dataLength
      ensures this.payload == payload
    {
      transactionNumber := txID;
      this.command := command;
      this.dataLength := dataLength;
      this.payload := payload;
    }

    /** `toString()`: "txn command len", then " payload\n" only when there is a payload. */
    function ToString(): string
      reads this
    {
      IntToString(transactionNumber) + " " + command + " " + IntToString(dataLength) +
      (if payload.Some? then " " + payload.value + "\n" else "")
    }

    function GetResponseCode(): Outcome<int>
      reads this
    {
      LegacyResponseCode(payload)
    }
  }

  /** `new RelpResponse(txID, command, dataLength, src)`: the payload comes from `readString`,
      whose exception propagates out of the constructor. */
  method NewRelpResponse(txID: int, command: string, dataLength: int, src: ByteBuffer)
    returns (r: Outcome<RelpResponse>)
    requires src.Valid()
    modifies src
    ensures src.Valid()
    ensures dataLength <= 0 ==> r.Ok? && r.value.payload.None?
    ensures 0 < dataLength <= old(src.Remaining()) ==>
      r.Ok? && r.value.payload == Some(AsciiDecode(old(src.Unread())[..dataLength]))
    ensures dataLength > old(src.Remaining()) && dataLength > 0 ==> r == Thrown(BufferUnderflow)
    ensures r.Ok? ==> fresh(r.value)
    ensures r.Ok? ==> r.value.transactionNumber == txID && r.value.command == command
    ensures r.Ok? ==> r.value.dataLength == dataLength
  {
    var payload := ReadString(src, dataLength);
    if payload.Thrown? {
      return Thrown(payload.ex);
    }
    var response := new RelpResponse(txID, command, dataLength, payload.value);
    return Ok(response);
  }

  /** Encoded with the frame charset, the text of a legacy response is the wire form of a frame
      carrying the payload, and without a payload it is the bare header with no LF. */
  lemma LegacyTextMatchesWire(r: RelpResponse)
    ensures r.payload.Some? ==>
      AsciiEncode(r.ToString()) == FrameBytes(r.transactionNumber, r.command, r.dataLength, Some(AsciiEncode(r.payload.value)))
    ensures r.payload.None? ==> AsciiEncode(r.ToString()) == HeaderBytes(r.transactionNumber, r.command, r.dataLength)
  {
    var h := IntToString(r.transactionNumber) + " " + r.command + " " + IntToString(r.dataLength);
    if r.payload.Some? {
      var p := r.payload.value;
      assert r.ToString() == h + " " + p + "\n";
      LineText(r.transactionNumber, r.command, r.dataLength, p);
    } else {
      assert r.ToString() == h;
      HeaderText(r.transactionNumber, r.command, r.dataLength);
    }
  }

  /** The text of a fresh OPEN request without a payload: "0 open 0 ". */
  lemma OpenRequestText()
    ensures RequestText(0, OPEN, 0, None) == "0 open 0 "
  {
    assert IntToString(0) == "0";
  }

  // ---------------------------------------------------------------------------------------------
  // The two response-code rules side by side

  /** Where the frame rule finds a code, the legacy rule applied to the same bytes finds the
      same code. */
  lemma ResponseCodeRulesAgree(data: seq<byte>)
    requires ResponseCode(data).Ok?
    ensures LegacyResponseCode(Some(AsciiDecode(data))) == ResponseCode(data)
  {
    ResponseCodeValue(data);
    var s := AsciiDecode(data);
    assert s[3] == ' ';
    assert ' ' !in s[..3] by {
      forall k | 0 <= k < 3 ensures s[k] != ' ' {
        assert IsDigitByte(data[k]);
      }
    }
    IndexOfAt(s, ' ', 3);
    assert s[..3] == AsciiDecode(data[..3]);
  }

  /** "2000 OK" is refused by the frame rule ("too long")... */
  lemma FrameRuleRefusesFourDigits()
    ensures ResponseCode(AsciiEncode("2000 OK")) == Thrown(IllegalArgument("response code too long"))
  {
    var d := AsciiEncode("2000 OK");
    assert d[0] == 50 && d[1] == 48 && d[2] == 48 && d[3] == 48;
    assert LeadingDigits(d);
  }

  /** ...but read as 2000 by the legacy rule. */
  lemma LegacyRuleAcceptsFourDigits()
    ensures LegacyResponseCode(Some("2000 OK")) == Ok(2000)
  {
    var s := "2000 OK";
    assert s[..4] == "2000";
    IndexOfAt(s, ' ', 4);
    TwoThousand();
  }

  lemma TwoThousand()
    ensures ParseInt("2000") == Some(2000)
  {
    assert NatToString(2000) == "2000" by {
      assert NatToString(2) == "2";
      assert NatToString(20) == "20";
      assert NatToString(200) == "200";
    }
    ParseIntToString(2000);
  }
}
