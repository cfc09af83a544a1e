/** Byte-level helpers shared by the stream decoders: the byte type, big-endian
    integer reads (network byte order, as `struct.unpack('>H' / '>I' / '>i')`
    reads them), the header flag bits, the JPEG markers and the decimal text
    that Python's `str()` and `%.1f` produce for exact values. */
module Bytes {

  type Byte = b: int | 0 <= b < 256

  /** Big-endian unsigned 16-bit read of s[i..i+2]. */
  function U16(s: seq<Byte>, i: nat): (r: nat)
    requires i + 2 <= |s|
    ensures r < 0x1_0000
  {
    (s[i] as int) * 0x100 + s[i + 1] as int
  }

  /** Big-endian unsigned 32-bit read of s[i..i+4]. */
  function U32(s: seq<Byte>, i: nat): (r: nat)
    requires i + 4 <= |s|
    ensures r < 0x1_0000_0000
  {
    U16(s, i) * 0x1_0000 + U16(s, i + 2)
  }

  /** Big-endian two's-complement signed 32-bit read of s[i..i+4]. */
  function I32(s: seq<Byte>, i: nat): (r: int)
    requires i + 4 <= |s|
    ensures -0x8000_0000 <= r < 0x8000_0000
    ensures r >= 0 <==> U32(s, i) < 0x8000_0000
    ensures r % 0x1_0000_0000 == U32(s, i)
  {
    var u := U32(s, i);
    if u < 0x8000_0000 then u else u - 0x1_0000_0000
  }

  /** The two bytes of n in network byte order. */
  function BE16(n: nat): (r: seq<Byte>)
    requires n < 0x1_0000
    ensures |r| == 2
  {
    [n / 0x100, n % 0x100]
  }

  /** The four bytes of n in network byte order. */
  function BE32(n: nat): (r: seq<Byte>)
    requires n < 0x1_0000_0000
    ensures |r| == 4
  {
    BE16(n / 0x1_0000) + BE16(n % 0x1_0000)
  }

  lemma {:induction false} U16RoundTrip(n: nat, pre: seq<Byte>, post: seq<Byte>)
    requires n < 0x1_0000
    ensures U16(pre + BE16(n) + post, |pre|) == n
  {
    var s := pre + BE16(n) + post;
    assert s[|pre|] == n / 0x100 && s[|pre| + 1] == n % 0x100;
  }

  lemma {:induction false} U32RoundTrip(n: nat, pre: seq<Byte>, post: seq<Byte>)
    requires n < 0x1_0000_0000
    ensures U32(pre + BE32(n) + post, |pre|) == n
  {
    var s := pre + BE32(n) + post;
    assert s == pre + BE16(n / 0x1_0000) + (BE16(n % 0x1_0000) + post);
    U16RoundTrip(n / 0x1_0000, pre, BE16(n % 0x1_0000) + post);
    assert s == (pre + BE16(n / 0x1_0000)) + BE16(n % 0x1_0000) + post;
    U16RoundTrip(n % 0x1_0000, pre + BE16(n / 0x1_0000), post);
  }

  /** Bit 0x10 of a byte (the RTP extension flag X when applied to byte 0). */
  predicate Bit10(b: Byte) {
    (b as bv8) & 0x10 != 0
  }

  /** Bit 0x80 of a byte (the RTP marker flag M when applied to byte 1). */
  predicate Bit80(b: Byte) {
    (b as bv8) & 0x80 != 0
  }

  lemma {:induction false} Bit80IsHighHalf(b: Byte)
    ensures Bit80(b) <==> b >= 0x80
  {
  }

  /** JPEG start-of-image marker FF D8 at the head of s. */
  predicate StartsWithSoi(s: seq<Byte>) {
    |s| >= 2 && s[0] == 0xFF && s[1] == 0xD8
  }

  /** JPEG end-of-image marker FF D9 at the tail of s. */
  predicate EndsWithEoi(s: seq<Byte>) {
    |s| >= 2 && s[|s| - 2] == 0xFF && s[|s| - 1] == 0xD9
  }

  /** A complete JPEG image as the receivers deliver it: SOI ... EOI. */
  predicate IsJpeg(s: seq<Byte>) {
    StartsWithSoi(s) && EndsWithEoi(s)
  }

  // ---------------------------------------------------------------- decimal text

  predicate IsDigit(c: char) {
    '0' <= c <= '9'
  }

  predicate AllDigits(s: string) {
    forall i :: 0 <= i < |s| ==> IsDigit(s[i])
  }

  function DigitChar(d: nat): (c: char)
    requires d < 10
    ensures IsDigit(c)
  {
    ('0' as int + d) as char
  }

  /** The value of a decimal digit (0 for any other character). */
  function DigitValue(c: char): (d: nat)
    ensures d < 10
    ensures IsDigit(c) ==> DigitChar(d) == c
  {
    if IsDigit(c) then c as int - '0' as int else 0
  }

  /** Python's `str(n)` for a non-negative integer: its decimal digits. */
  function NatToString(n: nat): (s: string)
    ensures |s| >= 1 && AllDigits(s)
    ensures s[0] == '0' ==> n == 0
  {
    if n < 10 then [DigitChar(n)] else NatToString(n / 10) + [DigitChar(n % 10)]
  }

  /** Reads a run of decimal digits back as a number. */
  function ParseDigits(s: string): nat
  {
    if s == [] then 0 else ParseDigits(s[..|s| - 1]) * 10 + DigitValue(s[|s| - 1])
  }

  /** NatToString loses nothing: the digits read back as the number. */
  lemma {:induction false} ParseNatToString(n: nat)
    ensures ParseDigits(NatToString(n)) == n
  {
    var s := NatToString(n);
    if n >= 10 {
      assert s[..|s| - 1] == NatToString(n / 10);
      ParseNatToString(n / 10);
    }
  }

  lemma {:induction false} NatToStringInjective(a: nat, b: nat)
    requires NatToString(a) == NatToString(b)
    ensures a == b
  {
    ParseNatToString(a);
    ParseNatToString(b);
  }

  /** Python's `f"{v / 10:.1f}"` for an integer v: exact, since v / 10 has one
      decimal and the nearest double rounds back to it. */
  function Tenths(v: int): (s: string)
    ensures |s| >= 3 && s[|s| - 2] == '.' && IsDigit(s[|s| - 1])
    ensures s[0] == '-' <==> v < 0
  {
    var a := if v < 0 then -v else v;
    (if v < 0 then "-" else "") + NatToString(a / 10) + "." + [DigitChar(a % 10)]
  }

  /** Reads a Tenths text back as the integer number of tenths: an optional
      minus sign, digits, a point and one digit. */
  function ParseTenths(s: string): int {
    if |s| < 3 then 0
    else
      var neg := s[0] == '-';
      var body := if neg then s[1..|s| - 2] else s[..|s| - 2];
      var a := ParseDigits(body) * 10 + DigitValue(s[|s| - 1]);
      if neg then -a else a
  }

  /** Tenths loses nothing: the text reads back as the value, so different
      values give different texts. */
  lemma {:induction false} TenthsRoundTrip(v: int)
    ensures ParseTenths(Tenths(v)) == v
  {
    var a := if v < 0 then -v else v;
    var digits := NatToString(a / 10);
    var s := Tenths(v);
    if v < 0 {
      assert s == "-" + digits + "." + [DigitChar(a % 10)];
      assert s[1..|s| - 2] == digits;
    } else {
      assert s == digits + "." + [DigitChar(a % 10)];
      assert s[..|s| - 2] == digits;
    }
    ParseNatToString(a / 10);
  }
}
