/** `text.encode("utf-8")`, the step between the canonical text and its digest (RFC 3629 section 3). */
module Utf8 {

  newtype Byte = x: int | 0 <= x < 256

  /** The bytes of one character. */
  function BytesOf(c: char): (r: seq<Byte>)
    ensures 1 <= |r| <= 4
  {
    var n := c as int;
    if n < 0x80 then [n as Byte]
    else if n < 0x800 then [(0xC0 + n / 64) as Byte, Tail(n)]
    else if n < 0x10000 then [(0xE0 + n / 4096) as Byte, Tail(n / 64), Tail(n)]
    else [(0xF0 + n / 262144) as Byte, Tail(n / 4096), Tail(n / 64), Tail(n)]
  }

  /** A continuation byte: the low six bits. */
  function Tail(n: nat): (r: Byte)
    ensures 0x80 <= r < 0xC0 && (r as int - 0x80) == n % 64
  {
    (0x80 + n % 64) as Byte
  }

  function Encode(s: string): seq<Byte> {
    if |s| == 0 then [] else BytesOf(s[0]) + Encode(s[1..])
  }

  /** How many bytes a character takes shows in the first of them. */
  function Width(first: Byte): nat {
    if first < 0x80 then 1 else if first < 0xE0 then 2 else if first < 0xF0 then 3 else 4
  }

  /** The code point of a character's bytes. */
  function CodePoint(bs: seq<Byte>): int
    requires 1 <= |bs| <= 4
  {
    if |bs| == 1 then bs[0] as int
    else if |bs| == 2 then (bs[0] as int - 0xC0) * 64 + (bs[1] as int - 0x80)
    else if |bs| == 3 then
      ((bs[0] as int - 0xE0) * 64 + (bs[1] as int - 0x80)) * 64 + (bs[2] as int - 0x80)
    else
      (((bs[0] as int - 0xF0) * 64 + (bs[1] as int - 0x80)) * 64 + (bs[2] as int - 0x80)) * 64
      + (bs[3] as int - 0x80)
  }

  lemma WidthOf(c: char)
    ensures Width(BytesOf(c)[0]) == |BytesOf(c)|
  {
    hide Tail;
  }

  lemma SixBits(n: nat)
    ensures n == n / 64 * 64 + n % 64
    ensures n / 4096 == n / 64 / 64 && n / 262144 == n / 4096 / 64
  {
  }

  lemma CodePointOf(c: char)
    ensures CodePoint(BytesOf(c)) == c as int
  {
    var n := c as int;
    SixBits(n);
    SixBits(n / 64);
    SixBits(n / 4096);
  }

  predicate Between(low: Byte, b: Byte, high: Byte) { low <= b <= high }

  /** The byte sequences RFC 3629 allows for one character (section 4). */
  predicate WellFormed(bs: seq<Byte>) {
    || (|bs| == 1 && bs[0] <= 0x7F)
    || (|bs| == 2 && Between(0xC2, bs[0], 0xDF) && Between(0x80, bs[1], 0xBF))
    || (|bs| == 3 && Between(0xE0, bs[0], 0xEF) && Between(0x80, bs[2], 0xBF)
        && Between(if bs[0] == 0xE0 then 0xA0 else 0x80, bs[1], if bs[0] == 0xED then 0x9F else 0xBF))
    || (|bs| == 4 && Between(0xF0, bs[0], 0xF4) && Between(0x80, bs[2], 0xBF) && Between(0x80, bs[3], 0xBF)
        && Between(if bs[0] == 0xF0 then 0x90 else 0x80, bs[1], if bs[0] == 0xF4 then 0x8F else 0xBF))
  }

  /** A character is written as one of them, and the one that stands for it. */
  lemma BytesWellFormed(c: char)
    ensures WellFormed(BytesOf(c)) && CodePoint(BytesOf(c)) == c as int
  {
    CodePointOf(c);
  }

  /** Different texts have different bytes. */
  lemma {:induction false} EncodeInjective(s: string, t: string)
    requires Encode(s) == Encode(t)
    ensures s == t
  {
    if |s| > 0 && |t| > 0 {
      var a, b := BytesOf(s[0]), BytesOf(t[0]);
      var bytes := Encode(s);
      WidthOf(s[0]);
      WidthOf(t[0]);
      assert bytes[0] == a[0] && bytes[0] == b[0];
      assert bytes[..|a|] == a && bytes[..|b|] == b;
      assert bytes[|a|..] == Encode(s[1..]) && bytes[|b|..] == Encode(t[1..]);
      CodePointOf(s[0]);
      CodePointOf(t[0]);
      EncodeInjective(s[1..], t[1..]);
      assert s == [s[0]] + s[1..] && t == [t[0]] + t[1..];
    }
  }
}
