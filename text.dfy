/** Bytes, the character codecs the library calls (US-ASCII, UTF-8, single bytes), and Java's
    `Integer.toString` / `Integer.parseInt` on 32-bit ints. */
module Text {
  import opened Wrappers

  /** A Java `byte`, stored unsigned: the value 0..255 of its bit pattern. */
  newtype byte = b: int | 0 <= b < 256

  const SP: byte := 32
  const LF: byte := 10

  /** The range of a Java `int`. */
  const MinInt: int := -0x8000_0000
  const MaxInt: int := 0x7fff_ffff

  predicate IsInt32(n: int) {
    MinInt <= n <= MaxInt
  }

  /** A sum of Java `int`s: the `int` congruent to the true sum modulo 2^32. */
  function Wrap32(n: int): (r: int)
    ensures IsInt32(r) && (r - n) % 0x1_0000_0000 == 0
    ensures IsInt32(n) ==> r == n
  {
    var m := n % 0x1_0000_0000;
    if m > MaxInt then m - 0x1_0000_0000 else m
  }

  /** A sum past the `int` range but below 2^32 wraps round to a negative `int`. */
  lemma Wrap32Negative(n: int)
    requires MaxInt < n < 0x1_0000_0000
    ensures Wrap32(n) == n - 0x1_0000_0000 < 0
  {
    assert n % 0x1_0000_0000 == n;
  }

  // ---------------------------------------------------------------------------------------------
  // Single-byte and US-ASCII codecs

  /** `new String(new byte[] {b})` and US-ASCII decoding of one byte: ASCII bytes map to their
      character, every other byte to the replacement character U+FFFD. */
  function ByteToChar(b: byte): (c: char)
    ensures b < 128 <==> c as int == b as int
    ensures b >= 128 <==> c == '�'
  {
    if b < 128 then b as int as char else '�'
  }

  /** `new String(bytes, StandardCharsets.US_ASCII)`. */
  function AsciiDecode(bs: seq<byte>): (s: string)
    ensures |s| == |bs|
    ensures forall i :: 0 <= i < |bs| ==> s[i] == ByteToChar(bs[i])
  {
    seq(|bs|, i requires 0 <= i < |bs| => ByteToChar(bs[i]))
  }

  predicate IsAscii(s: string) {
    forall i :: 0 <= i < |s| ==> s[i] < 128 as char
  }

  /** `s.getBytes("US-ASCII")`: characters outside ASCII become '?'. */
  function AsciiEncode(s: string): (bs: seq<byte>)
    ensures |bs| == |s|
    ensures forall i :: 0 <= i < |s| ==> (s[i] < 128 as char ==> bs[i] as int == s[i] as int)
    ensures forall i :: 0 <= i < |s| ==> (s[i] >= 128 as char ==> bs[i] == '?' as int as byte)
  {
    seq(|s|, i requires 0 <= i < |s| => if s[i] < 128 as char then s[i] as int as byte else '?' as int as byte)
  }

  /** Decoding what was encoded gives the text back, for ASCII text. */
  lemma AsciiRoundTrip(s: string)
    requires IsAscii(s)
    ensures AsciiDecode(AsciiEncode(s)) == s
  {
  }

  /** Encoding distributes over concatenation. */
  lemma AsciiEncodeConcat(a: string, b: string)
    ensures AsciiEncode(a + b) == AsciiEncode(a) + AsciiEncode(b)
  {
  }

  /** A space between two texts encodes to an SP byte between their encodings. */
  lemma AsciiEncodeSpaced(a: string, b: string)
    ensures AsciiEncode(a + " " + b) == AsciiEncode(a) + [SP] + AsciiEncode(b)
  {
    AsciiEncodeConcat(a + " ", b);
    AsciiEncodeConcat(a, " ");
    assert AsciiEncode(" ") == [SP];
  }

  /** A text ended by a newline encodes to its encoding and an LF byte. */
  lemma AsciiEncodeLine(a: string)
    ensures AsciiEncode(a + "\n") == AsciiEncode(a) + [LF]
  {
    AsciiEncodeConcat(a, "\n");
    assert AsciiEncode("\n") == [LF];
  }

  /** Encoding what was decoded gives the bytes back, for ASCII bytes. */
  lemma AsciiBytesRoundTrip(bs: seq<byte>)
    requires forall i :: 0 <= i < |bs| ==> bs[i] < 128
    ensures AsciiEncode(AsciiDecode(bs)) == bs
  {
  }

  // ---------------------------------------------------------------------------------------------
  // UTF-8 decoding, as `new String(bytes, "UTF-8")` does it: each maximal ill-formed subpart becomes
  // one U+FFFD.

  predicate InRange(b: byte, lo: int, hi: int) {
    lo <= b as int <= hi
  }

  /** The number of bytes announced by a lead byte, or 0 when it cannot start a sequence. */
  function SequenceLength(b: byte): nat {
    if b < 0x80 then 1
    else if InRange(b, 0xC2, 0xDF) then 2
    else if InRange(b, 0xE0, 0xEF) then 3
    else if InRange(b, 0xF0, 0xF4) then 4
    else 0
  }

  /** Whether `b1` may follow the lead byte `b0` (the second byte has special ranges). */
  predicate SecondOk(b0: byte, b1: byte) {
    if b0 == 0xE0 then InRange(b1, 0xA0, 0xBF)
    else if b0 == 0xED then InRange(b1, 0x80, 0x9F)
    else if b0 == 0xF0 then InRange(b1, 0x90, 0xBF)
    else if b0 == 0xF4 then InRange(b1, 0x80, 0x8F)
    else InRange(b1, 0x80, 0xBF)
  }

  /** How many bytes after a lead byte of sequence length `n` (2..4) are well-formed continuations. */
  function ValidTail(bs: seq<byte>, n: nat): (k: nat)
    requires |bs| >= 1 && 2 <= n <= 4
    ensures k <= n - 1 && k < |bs|
  {
    if |bs| < 2 || !SecondOk(bs[0], bs[1]) then 0
    else if n == 2 || |bs| < 3 || !InRange(bs[2], 0x80, 0xBF) then 1
    else if n == 3 || |bs| < 4 || !InRange(bs[3], 0x80, 0xBF) then 2
    else 3
  }

  function Cont(b: byte): int {
    b as int - 0x80
  }

  /** The scalar value of a well-formed sequence of two to four bytes. */
  function DecodeScalar(bs: seq<byte>, n: nat): (c: char)
    requires 2 <= n <= 4 && |bs| >= n && SequenceLength(bs[0]) == n && ValidTail(bs, n) == n - 1
  {
    if n == 2 then
      ((bs[0] as int - 0xC0) * 64 + Cont(bs[1])) as char
    else if n == 3 then
      var v := (bs[0] as int - 0xE0) * 4096 + Cont(bs[1]) * 64 + Cont(bs[2]);
      assert bs[0] == 0xED ==> v <= 0xD7FF;
      assert bs[0] != 0xED ==> v < 0xD800 || v >= 0xE000;
      v as char
    else
      var v := (bs[0] as int - 0xF0) * 262144 + Cont(bs[1]) * 4096 + Cont(bs[2]) * 64 + Cont(bs[3]);
      assert v <= 0x10FFFF;
      v as char
  }

  function Utf8Decode(bs: seq<byte>): (s: string)
    ensures |s| <= |bs|
    decreases |bs|
  {
    if |bs| == 0 then ""
    else
      var n := SequenceLength(bs[0]);
      if n == 1 then [bs[0] as int as char] + Utf8Decode(bs[1..])
      else if n == 0 then ['�'] + Utf8Decode(bs[1..])
      else
        var k := ValidTail(bs, n);
        if k == n - 1 then [DecodeScalar(bs, n)] + Utf8Decode(bs[n..])
        else ['�'] + Utf8Decode(bs[k + 1..])
  }

  predicate AllAsciiBytes(bs: seq<byte>) {
    forall i :: 0 <= i < |bs| ==> bs[i] < 128
  }

  /** UTF-8 and US-ASCII agree on ASCII bytes. */
  lemma {:induction false} Utf8DecodeAscii(bs: seq<byte>)
    requires AllAsciiBytes(bs)
    ensures Utf8Decode(bs) == AsciiDecode(bs)
    decreases |bs|
  {
    if |bs| > 0 {
      Utf8DecodeAscii(bs[1..]);
    }
  }

  // ---------------------------------------------------------------------------------------------
  // Decimal text: Integer.toString and Integer.parseInt

  predicate IsDigitChar(c: char) {
    '0' <= c <= '9'
  }

  predicate AllDigits(s: string) {
    forall i :: 0 <= i < |s| ==> IsDigitChar(s[i])
  }

  function DigitChar(d: nat): (c: char)
    requires d < 10
    ensures IsDigitChar(c)
  {
    ('0' as int + d) as char
  }

  /** The decimal digits of a natural number, without leading zeros. */
  function NatToString(n: nat): (s: string)
    ensures |s| >= 1 && AllDigits(s)
  {
    if n < 10 then [DigitChar(n)] else NatToString(n / 10) + [DigitChar(n % 10)]
  }

  /** `Integer.toString(n)`: a '-' sign for negative numbers, then the digits. */
  function IntToString(n: int): string {
    if n < 0 then "-" + NatToString(-n) else NatToString(n)
  }

  /** The value of a string of decimal digits. */
  function DigitsValue(s: string): nat
    requires AllDigits(s)
  {
    if |s| == 0 then 0 else DigitsValue(s[..|s| - 1]) * 10 + (s[|s| - 1] as int - '0' as int)
  }

  /** Appending a digit multiplies the value by ten and adds the digit. */
  lemma DigitsValueAppend(s: string, c: char)
    requires AllDigits(s) && IsDigitChar(c)
    ensures AllDigits(s + [c]) && DigitsValue(s + [c]) == DigitsValue(s) * 10 + (c as int - '0' as int)
  {
    assert (s + [c])[..|s|] == s;
  }

  /** The value of three digits. */
  lemma DigitsValueOfThree(s: string)
    requires |s| == 3 && AllDigits(s)
    ensures DigitsValue(s) == (s[0] as int - '0' as int) * 100 + (s[1] as int - '0' as int) * 10 + (s[2] as int - '0' as int)
  {
    assert s == [s[0]] + [s[1]] + [s[2]];
    assert [s[0]] == [] + [s[0]];
    DigitsValueAppend([], s[0]);
    DigitsValueAppend([s[0]], s[1]);
    DigitsValueAppend([s[0]] + [s[1]], s[2]);
  }

  /** `Integer.parseInt(s)` for a string of ASCII characters: an optional sign and at least one
      digit, whose value lies in the `int` range; `None` where Java throws NumberFormatException. */
  function ParseInt(s: string): (r: Option<int>)
    ensures r.Some? ==> IsInt32(r.value)
  {
    if |s| == 0 then None
    else if s[0] == '-' || s[0] == '+' then
      if |s| == 1 || !AllDigits(s[1..]) then None
      else
        var d: int := DigitsValue(s[1..]);
        var v := if s[0] == '-' then -d else d;
        if IsInt32(v) then Some(v) else None
    else if !AllDigits(s) then None
    else if DigitsValue(s) <= MaxInt then Some(DigitsValue(s))
    else None
  }

  lemma {:induction false} DigitsValueOfNat(n: nat)
    ensures DigitsValue(NatToString(n)) == n
  {
    if n >= 10 {
      var s := NatToString(n);
      assert s[..|s| - 1] == NatToString(n / 10);
      DigitsValueOfNat(n / 10);
    }
  }

  /** parseInt undoes toString on every `int`. */
  lemma ParseIntToString(n: int)
    requires IsInt32(n)
    ensures ParseInt(IntToString(n)) == Some(n)
  {
    var s := IntToString(n);
    if n < 0 {
      var t := NatToString(-n);
      assert s == "-" + t && s[1..] == t;
      DigitsValueOfNat(-n);
      assert DigitsValue(s[1..]) == -n;
    } else {
      assert s == NatToString(n);
      assert IsDigitChar(s[0]);
      DigitsValueOfNat(n);
    }
  }

  /** A string that does not start with a sign or a digit is rejected, as for "Seven" or "six". */
  lemma ParseIntRejectsNonNumeric(s: string)
    requires |s| > 0 && !IsDigitChar(s[0]) && s[0] != '-' && s[0] != '+'
    ensures ParseInt(s) == None
  {
  }

  /** The ASCII bytes of a number as Java writes it. */
  function NumberBytes(n: int): (bs: seq<byte>)
    ensures |bs| == |IntToString(n)|
  {
    AsciiEncode(IntToString(n))
  }

  lemma NatStringIsAscii(n: nat)
    ensures IsAscii(NatToString(n))
  {
    var s := NatToString(n);
    forall i | 0 <= i < |s| ensures s[i] < 128 as char {
      assert IsDigitChar(s[i]);
    }
  }

  lemma IntStringIsAscii(n: int)
    ensures IsAscii(IntToString(n))
  {
    if n < 0 {
      NatStringIsAscii(-n);
      var s := IntToString(n);
      forall i | 0 <= i < |s| ensures s[i] < 128 as char {
        if i > 0 {
          assert s[i] == NatToString(-n)[i - 1];
        }
      }
    } else {
      NatStringIsAscii(n);
    }
  }

  /** The decimal text of a number never holds a space or a line feed. */
  lemma NumberBytesNoDelimiters(n: int)
    ensures forall i :: 0 <= i < |NumberBytes(n)| ==> NumberBytes(n)[i] != SP && NumberBytes(n)[i] != LF
  {
    IntStringIsAscii(n);
    var s := IntToString(n);
    forall i | 0 <= i < |s| ensures NumberBytes(n)[i] != SP && NumberBytes(n)[i] != LF {
      if n < 0 && i == 0 {
      } else if n < 0 {
        assert s[i] == NatToString(-n)[i - 1];
        assert IsDigitChar(s[i]);
      } else {
        assert IsDigitChar(s[i]);
      }
    }
  }

  /** Decoding the ASCII bytes of a number gives its text back. */
  lemma NumberBytesDecode(n: int)
    ensures AsciiDecode(NumberBytes(n)) == IntToString(n)
  {
    IntStringIsAscii(n);
    AsciiRoundTrip(IntToString(n));
  }
}
