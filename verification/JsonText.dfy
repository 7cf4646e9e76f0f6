/** JSON text shared by the canonical printer (canonical.py:39-62), which writes strings the way
RFC 8785 section 3.2.2.2 asks, and the destination parser, which reads them with the grammar of
RFC 8259 section 7. `json.dumps(s, ensure_ascii=False)` writes the same escapes. */
module JsonText {

  // ----- hexadecimal -----

  function HexDigit(n: nat): char
    requires n < 16
  {
    "0123456789abcdef"[n]
  }

  /** The value of a hexadecimal digit of either case, or 16. */
  function HexValue(c: char): (r: nat)
    ensures r <= 16
  {
    if '0' <= c <= '9' then c as int - '0' as int
    else if 'a' <= c <= 'f' then c as int - 'a' as int + 10
    else if 'A' <= c <= 'F' then c as int - 'A' as int + 10
    else 16
  }

  predicate IsHex(c: char) { HexValue(c) < 16 }

  /** Four hexadecimal digits at the front of `t`, or 0x10000 when they are not there. */
  function Hex4(t: string): (r: nat)
    ensures r <= 0x10000
  {
    if |t| >= 4 && IsHex(t[0]) && IsHex(t[1]) && IsHex(t[2]) && IsHex(t[3]) then
      ((HexValue(t[0]) * 16 + HexValue(t[1])) * 16 + HexValue(t[2])) * 16 + HexValue(t[3])
    else 0x10000
  }

  // ----- writing -----

  function EscapeChar(c: char): (r: string)
    ensures |r| >= 1
  {
    if c == '\"' then "\\\""
    else if c == '\\' then "\\\\"
    else if c as int == 8 then "\\b"
    else if c as int == 12 then "\\f"
    else if c == '\n' then "\\n"
    else if c == '\r' then "\\r"
    else if c == '\t' then "\\t"
    else if c as int < 0x20 then ['\\', 'u', '0', '0', HexDigit(c as int / 16), HexDigit(c as int % 16)]
    else [c]
  }

  function Escape(s: string): string {
    if |s| == 0 then "" else EscapeChar(s[0]) + Escape(s[1..])
  }

  function Quote(s: string): string {
    "\"" + Escape(s) + "\""
  }

  function Concat(parts: seq<string>): string {
    if |parts| == 0 then "" else parts[0] + Concat(parts[1..])
  }

  lemma {:induction false} ConcatAppend(parts: seq<string>, last: string)
    ensures Concat(parts + [last]) == Concat(parts) + last
  {
    if |parts| == 0 {
      assert parts + [last] == [last];
      assert Concat([last]) == last + Concat([]);
    } else {
      assert (parts + [last])[1..] == parts[1..] + [last];
      ConcatAppend(parts[1..], last);
    }
  }

  lemma {:induction false} EscapeAppend(s: string, c: char)
    ensures Escape(s + [c]) == Escape(s) + EscapeChar(c)
  {
    if |s| == 0 {
      assert s + [c] == [c];
      assert Escape([c]) == EscapeChar(c) + Escape([]);
    } else {
      assert (s + [c])[1..] == s[1..] + [c];
      EscapeAppend(s[1..], c);
    }
  }

  predicate Plain(c: char) {
    c as int >= 0x20 && c != '\"' && c != '\\'
  }

  /** Nothing is escaped that need not be, and everything is that must be. */
  lemma {:induction false} EscapeMinimal(s: string)
    ensures |Escape(s)| >= |s|
    ensures |Escape(s)| == |s| <==> forall i :: 0 <= i < |s| ==> Plain(s[i])
    ensures (forall i :: 0 <= i < |s| ==> Plain(s[i])) ==> Escape(s) == s
  {
    if |s| > 0 {
      EscapeMinimal(s[1..]);
      assert forall i :: 0 < i < |s| ==> s[i] == s[1..][i - 1];
      assert Plain(s[0]) <==> EscapeChar(s[0]) == [s[0]];
      assert s == [s[0]] + s[1..];
    }
  }

  lemma CanonStrStep(out: seq<string>, s: string, i: nat)
    requires i < |s| && Concat(out) == "\"" + Escape(s[..i])
    ensures Concat(out + [EscapeChar(s[i])]) == "\"" + Escape(s[..i + 1])
  {
    ConcatAppend(out, EscapeChar(s[i]));
    EscapeAppend(s[..i], s[i]);
    assert s[..i + 1] == s[..i] + [s[i]];
  }

  /** `_canon_str`: the buffer of pieces, joined at the end. */
  method CanonStr(s: string) returns (text: string)
    ensures text == Quote(s)
  {
    var out := ["\""];
    for i := 0 to |s|
      invariant Concat(out) == "\"" + Escape(s[..i])
    {
      var ch := s[i];
      var piece: string;
      if ch == '\"' {
        piece := "\\\"";
      } else if ch == '\\' {
        piece := "\\\\";
      } else if ch as int == 8 {
        piece := "\\b";
      } else if ch as int == 12 {
        piece := "\\f";
      } else if ch == '\n' {
        piece := "\\n";
      } else if ch == '\r' {
        piece := "\\r";
      } else if ch == '\t' {
        piece := "\\t";
      } else if ch as int < 0x20 {
        piece := ['\\', 'u', '0', '0', HexDigit(ch as int / 16), HexDigit(ch as int % 16)];
      } else {
        piece := [ch];
      }
      assert piece == EscapeChar(ch);
      CanonStrStep(out, s, i);
      out := out + [piece];
    }
    assert s[..|s|] == s;
    ConcatAppend(out, "\"");
    out := out + ["\""];
    text := Concat(out);
  }

  // ----- reading -----

  /** What the strict JSON string scanner makes of the text after an opening quote. `Broken` is a
  string holding an unpaired surrogate escape, which no Unicode text can carry. */
  datatype Scanned =
    | Bad
    | Text(value: string, used: nat)
    | Broken(used: nat)
  {
    function Push(c: char, width: nat): Scanned {
      match this
      case Bad => Bad
      case Text(value, used) => Text([c] + value, used + width)
      case Broken(used) => Broken(used + width)
    }

    function Spoil(width: nat): Scanned {
      match this
      case Bad => Bad
      case Text(_, used) => Broken(used + width)
      case Broken(used) => Broken(used + width)
    }
  }

  predicate HighSurrogate(n: nat) { 0xD800 <= n < 0xDC00 }
  predicate LowSurrogate(n: nat) { 0xDC00 <= n < 0xE000 }

  function Joined(high: nat, low: nat): char
    requires HighSurrogate(high) && LowSurrogate(low)
  {
    (0x10000 + (high - 0xD800) * 0x400 + (low - 0xDC00)) as char
  }

  /** The character a one-letter escape names; the letter itself when it names none. */
  function Unescaped(c: char): char {
    if c == 'b' then 8 as char
    else if c == 'f' then 12 as char
    else if c == 'n' then '\n'
    else if c == 'r' then '\r'
    else if c == 't' then '\t'
    else c
  }

  predicate SimpleEscape(c: char) {
    c in "\"\\/bfnrt"
  }

  /** Python's `scanstring(..., strict=True)`. */
  function ScanString(t: string): (r: Scanned)
    ensures r.Text? || r.Broken? ==> 1 <= r.used <= |t|
    decreases |t|
  {
    if |t| == 0 then Bad
    else if t[0] == '\"' then Text("", 1)
    else if t[0] as int < 0x20 then Bad
    else if t[0] != '\\' then ScanString(t[1..]).Push(t[0], 1)
    else if |t| < 2 then Bad
    else if t[1] == 'u' then ScanUnicode(t)
    else if SimpleEscape(t[1]) then ScanString(t[2..]).Push(Unescaped(t[1]), 2)
    else Bad
  }

  /** A backslash, a `u` and what follows them. */
  function ScanUnicode(t: string): (r: Scanned)
    requires |t| >= 2
    ensures r.Text? || r.Broken? ==> 1 <= r.used <= |t|
    decreases |t|, 0
  {
    var n := Hex4(t[2..]);
    if n == 0x10000 then Bad
    else if HighSurrogate(n) && |t| >= 8 && t[6..8] == "\\u" && LowSurrogate(Hex4(t[8..])) then
      ScanString(t[12..]).Push(Joined(n, Hex4(t[8..])), 12)
    else if HighSurrogate(n) || LowSurrogate(n) then ScanString(t[6..]).Spoil(6)
    else ScanString(t[6..]).Push(n as char, 6)
  }

  lemma ScanPlain(c: char, t: string)
    requires EscapeChar(c) == [c]
    ensures ScanString([c] + t) == ScanString(t).Push(c, 1)
  {
    hide ScanUnicode;
    assert ([c] + t)[1..] == t;
  }

  lemma ScanShort(c: char, t: string)
    requires |EscapeChar(c)| == 2
    ensures ScanString(EscapeChar(c) + t) == ScanString(t).Push(c, 2)
  {
    hide ScanUnicode, HexDigit;
    var e := EscapeChar(c) + t;
    assert e[0] == '\\' && e[1] == EscapeChar(c)[1] && e[2..] == t;
  }

  lemma ScanControl(c: char, t: string)
    requires c as int < 0x20
    ensures ScanUnicode(['\\', 'u', '0', '0', HexDigit(c as int / 16), HexDigit(c as int % 16)] + t)
            == ScanString(t).Push(c, 6)
  {
    hide ScanString, HexValue, HexDigit;
    var h, l := c as int / 16, c as int % 16;
    var e := ['\\', 'u', '0', '0', HexDigit(h), HexDigit(l)] + t;
    HexDigitValue(0);
    HexDigitValue(h);
    HexDigitValue(l);
    HexZero();
    assert e[2..][0] == '0' && e[2..][1] == '0' && e[2..][2] == HexDigit(h) && e[2..][3] == HexDigit(l);
    assert Hex4(e[2..]) == c as int;
    assert e[6..] == t;
  }

  lemma HexZero()
    ensures HexDigit(0) == '0'
  {
  }

  lemma ScanEscaped(c: char, t: string)
    ensures ScanString(EscapeChar(c) + t) == ScanString(t).Push(c, |EscapeChar(c)|)
  {
    hide ScanUnicode, HexDigit;
    if |EscapeChar(c)| == 1 {
      ScanPlain(c, t);
    } else if |EscapeChar(c)| == 2 {
      ScanShort(c, t);
    } else {
      var e := EscapeChar(c) + t;
      ScanControl(c, t);
      assert e[0] == '\\' && e[1] == 'u';
      assert ScanString(e) == ScanUnicode(e);
    }
  }

  lemma HexDigitValue(n: nat)
    requires n < 16
    ensures HexValue(HexDigit(n)) == n
  {
  }

  /** Scanning what was written gives it back and stops right after the closing quote. */
  lemma {:induction false} ScanQuoted(s: string, rest: string)
    ensures ScanString(Escape(s) + "\"" + rest) == Text(s, |Escape(s)| + 1)
  {
    if |s| == 0 {
      assert Escape(s) + "\"" + rest == "\"" + rest;
    } else {
      var tail := Escape(s[1..]) + "\"" + rest;
      assert Escape(s) + "\"" + rest == EscapeChar(s[0]) + tail;
      ScanEscaped(s[0], tail);
      ScanQuoted(s[1..], rest);
      assert s == [s[0]] + s[1..];
    }
  }

  // ----- decimal integers -----

  predicate IsDigit(c: char) { '0' <= c <= '9' }

  function Digits(n: nat): (r: string)
    ensures |r| >= 1
    ensures forall i :: 0 <= i < |r| ==> IsDigit(r[i])
    ensures r[0] == '0' ==> n == 0
  {
    if n < 10 then [('0' as int + n) as char]
    else Digits(n / 10) + [('0' as int + n % 10) as char]
  }

  /** `str(i)`. */
  function IntText(i: int): string {
    if i < 0 then "-" + Digits(-i) else Digits(i)
  }

  function DigitsValue(t: string): nat
    requires forall i :: 0 <= i < |t| ==> IsDigit(t[i])
  {
    if |t| == 0 then 0
    else
      assert IsDigit(t[|t| - 1]);
      DigitsValue(t[..|t| - 1]) * 10 + (t[|t| - 1] as int - '0' as int)
  }

  lemma {:induction false} DigitsRoundTrip(n: nat)
    ensures DigitsValue(Digits(n)) == n
  {
    if n < 10 {
      assert Digits(n)[..0] == "";
    } else {
      DigitsRoundTrip(n / 10);
      var d := Digits(n);
      assert d[..|d| - 1] == Digits(n / 10);
    }
  }

  /** Digits that do not start with a zero are the decimal text of their value. */
  lemma {:induction false} DigitsOfValue(t: string)
    requires |t| > 0 && forall i :: 0 <= i < |t| ==> IsDigit(t[i])
    requires t[0] != '0'
    ensures Digits(DigitsValue(t)) == t && DigitsValue(t) >= 1
  {
    var n := |t| - 1;
    assert IsDigit(t[n]);
    if n == 0 {
      assert t[..0] == "" && DigitsValue("") == 0;
      assert t == [t[0]];
    } else {
      DigitsOfValue(t[..n]);
      assert t == t[..n] + [t[n]];
    }
  }

  /** How many digits `t` starts with. */
  function DigitRun(t: string): (n: nat)
    ensures n <= |t|
    ensures forall i :: 0 <= i < n ==> IsDigit(t[i])
    ensures n < |t| ==> !IsDigit(t[n])
  {
    if |t| == 0 || !IsDigit(t[0]) then 0 else 1 + DigitRun(t[1..])
  }

  ghost predicate NoDigitFirst(t: string) {
    |t| > 0 ==> !IsDigit(t[0])
  }

  lemma DigitRunOf(d: string, t: string)
    requires forall i :: 0 <= i < |d| ==> IsDigit(d[i])
    requires NoDigitFirst(t)
    ensures DigitRun(d + t) == |d|
  {
    assert forall i :: 0 <= i < |d| ==> (d + t)[i] == d[i];
    assert |t| > 0 ==> (d + t)[|d|] == t[0];
  }
}
