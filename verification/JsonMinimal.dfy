/** The canonical spelling of a string is the shortest text a JSON reader takes for it, with lower-case
hexadecimal digits, and the only one of its length (RFC 8785 section 3.2.2.2). */
module JsonMinimal {
  import opened JsonText

  /** `t` stands between the quotes of a string that reads as `s`. */
  ghost predicate Spells(t: string, s: string) {
    ScanString(t + "\"") == Text(s, |t| + 1)
  }

  predicate UpperHex(c: char) { 'A' <= c <= 'F' }

  /** No `\u` escape of `t` has an upper-case digit. */
  predicate LowerEscapes(t: string)
    decreases |t|
  {
    if |t| == 0 then true
    else if t[0] != '\\' || |t| == 1 then LowerEscapes(t[1..])
    else if t[1] != 'u' || |t| < 6 then LowerEscapes(t[2..])
    else (forall i :: 2 <= i < 6 ==> !UpperHex(t[i])) && LowerEscapes(t[6..])
  }

  /** How the first piece of a text that reads as `s` is read: `width` characters for the first of `s`. */
  ghost predicate FirstPiece(t: string, s: string, width: nat) {
    1 <= width <= |t| && |s| > 0 && Spells(t[width..], s[1..])
  }

  lemma AfterPiece(t: string, s: string, c: char, width: nat)
    requires width <= |t| + 1 && Spells(t, s)
    requires ScanString(t + "\"") == ScanString((t + "\"")[width..]).Push(c, width)
    requires width >= 1
    ensures FirstPiece(t, s, width) && s[0] == c
  {
    hide ScanString;
    var r := ScanString((t + "\"")[width..]);
    assert r.Text? && s == [c] + r.value && r.used + width == |t| + 1;
    assert r.used >= 1;
    assert (t + "\"")[width..] == t[width..] + "\"";
  }

  lemma PlainPiece(t: string, s: string)
    requires Spells(t, s) && |t| > 0 && t[0] != '\\'
    ensures FirstPiece(t, s, 1) && s[0] == t[0] && EscapeChar(t[0]) == [t[0]]
  {
    hide ScanUnicode;
    var u := t + "\"";
    assert u[0] == t[0];
    AfterPiece(t, s, t[0], 1);
  }

  lemma ShortPiece(t: string, s: string)
    requires Spells(t, s) && |t| > 0 && t[0] == '\\' && !(|t| > 1 && t[1] == 'u')
    ensures FirstPiece(t, s, 2) && SimpleEscape(t[1]) && s[0] == Unescaped(t[1])
    ensures |EscapeChar(s[0])| <= 2
    ensures |EscapeChar(s[0])| == 2 ==> EscapeChar(s[0]) == t[..2]
  {
    hide ScanUnicode, HexDigit;
    var u := t + "\"";
    assert u[0] == '\\';
    if |t| == 1 {
      LoneBackslash(u);
      assert false;
    }
    assert u[1] == t[1];
    AfterPiece(t, s, Unescaped(t[1]), 2);
    ShortEscape(t[1]);
    assert t[..2] == ['\\', t[1]];
  }

  lemma LoneBackslash(u: string)
    requires u == "\\\""
    ensures ScanString(u) == Bad
  {
    assert u[1] == '\"' && u[2..] == "";
  }

  lemma ShortEscape(c: char)
    requires SimpleEscape(c)
    ensures |EscapeChar(Unescaped(c))| <= 2
    ensures |EscapeChar(Unescaped(c))| == 2 ==> EscapeChar(Unescaped(c)) == ['\\', c]
  {
    hide HexDigit;
  }

  lemma StartsUnicode(u: string)
    requires |u| > 1 && u[0] == '\\' && u[1] == 'u'
    ensures ScanString(u) == ScanUnicode(u)
  {
    hide ScanUnicode;
  }

  /** A `\u` escape, or two of them for one character. */
  lemma UnicodePiece(t: string, s: string) returns (width: nat)
    requires Spells(t, s) && |t| > 1 && t[0] == '\\' && t[1] == 'u'
    ensures width == 6 || width == 12
    ensures FirstPiece(t, s, width)
    ensures width == 12 ==> |EscapeChar(s[0])| == 1
    ensures width == 6 ==> Hex4(t[2..6]) == s[0] as int
  {
    hide ScanString, HexValue;
    var u := t + "\"";
    assert u[0] == '\\' && u[1] == 'u';
    StartsUnicode(u);
    UnicodeReads(u, s, |t| + 1);
    var n := Hex4(u[2..]);
    if HighSurrogate(n) {
      width := 12;
      AfterPiece(t, s, Joined(n, Hex4(u[8..])), 12);
    } else {
      width := 6;
      AfterPiece(t, s, n as char, 6);
      HexFront(t, u);
    }
  }

  lemma HexFront(t: string, u: string)
    requires |t| >= 6 && u == t + "\""
    ensures Hex4(u[2..]) == Hex4(t[2..6])
  {
    hide HexValue;
    assert forall i :: 0 <= i < 4 ==> u[2..][i] == t[2..6][i];
  }

  /** What a text that is read to its end can have after `\u`. */
  lemma UnicodeReads(u: string, s: string, used: nat)
    requires |u| >= 2 && ScanUnicode(u) == Text(s, used)
    ensures var n := Hex4(u[2..]);
            && n < 0x10000 && !LowSurrogate(n)
            && (HighSurrogate(n) ==>
                  |u| >= 12 && LowSurrogate(Hex4(u[8..]))
                  && ScanUnicode(u) == ScanString(u[12..]).Push(Joined(n, Hex4(u[8..])), 12))
            && (!HighSurrogate(n) ==>
                  |u| >= 6 && ScanUnicode(u) == ScanString(u[6..]).Push(n as char, 6))
  {
    hide ScanString, HexValue;
  }

  /** Four hexadecimal digits in lower case that stand for a control character. */
  lemma HexUnique(h: string, c: char)
    requires |h| == 4 && Hex4(h) == c as int && c as int < 0x20
    requires forall i :: 0 <= i < 4 ==> !UpperHex(h[i])
    ensures h == ['0', '0', HexDigit(c as int / 16), HexDigit(c as int % 16)]
  {
    var a, b, d, e := HexValue(h[0]), HexValue(h[1]), HexValue(h[2]), HexValue(h[3]);
    hide Hex4;
    assert ((a * 16 + b) * 16 + d) * 16 + e == c as int && a < 16 && b < 16 && d < 16 && e < 16 by {
      HexParts(h);
    }
    assert a == 0 && b == 0 && d == c as int / 16 && e == c as int % 16;
    LowerDigit(h[0]);
    LowerDigit(h[1]);
    LowerDigit(h[2]);
    LowerDigit(h[3]);
    HexZero();
  }

  lemma HexParts(h: string)
    requires |h| == 4 && Hex4(h) < 0x10000
    ensures IsHex(h[0]) && IsHex(h[1]) && IsHex(h[2]) && IsHex(h[3])
    ensures ((HexValue(h[0]) * 16 + HexValue(h[1])) * 16 + HexValue(h[2])) * 16 + HexValue(h[3]) == Hex4(h)
  {
    hide HexValue;
  }

  lemma LowerDigit(c: char)
    requires IsHex(c) && !UpperHex(c)
    ensures HexDigit(HexValue(c)) == c
  {
  }

  /** No reader takes a shorter text for `s` than the one written; and of texts of that length, only the
  one written, unless an upper-case hexadecimal digit is used. */
  lemma {:induction false} EscapeShortest(t: string, s: string)
    requires Spells(t, s)
    ensures |Escape(s)| <= |t|
    ensures |Escape(s)| == |t| && LowerEscapes(t) ==> Escape(s) == t
    decreases |t|
  {
    hide ScanString, EscapeChar, Hex4, Spells;
    if |t| == 0 {
      NothingSpelled(t, s);
    } else if t[0] != '\\' {
      PlainPiece(t, s);
      EscapeShortest(t[1..], s[1..]);
      assert t == [t[0]] + t[1..];
    } else if |t| == 1 || t[1] != 'u' {
      ShortPiece(t, s);
      EscapeShortest(t[2..], s[1..]);
      assert t == t[..2] + t[2..];
    } else {
      var width := UnicodePiece(t, s);
      EscapeShortest(t[width..], s[1..]);
      EscapeWidth(s[0]);
      if width == 6 && |Escape(s)| == |t| && LowerEscapes(t) {
        assert t[..6][2..6] == t[2..6];
        ControlSpelled(t[..6], s[0]);
        assert t == t[..6] + t[6..];
      }
    }
  }

  lemma NothingSpelled(t: string, s: string)
    requires Spells(t, s) && |t| == 0
    ensures s == ""
  {
    assert t + "\"" == "\"";
  }

  lemma EscapeWidth(c: char)
    ensures |EscapeChar(c)| <= 6
    ensures |EscapeChar(c)| == 6 ==> c as int < 0x20
    ensures |EscapeChar(c)| == 6 ==>
              EscapeChar(c) == ['\\', 'u', '0', '0', HexDigit(c as int / 16), HexDigit(c as int % 16)]
  {
    hide HexDigit;
  }

  lemma ControlSpelled(piece: string, c: char)
    requires |piece| == 6 && piece[0] == '\\' && piece[1] == 'u' && Hex4(piece[2..6]) == c as int
    requires |EscapeChar(c)| == 6 && forall i :: 2 <= i < 6 ==> !UpperHex(piece[i])
    ensures piece == EscapeChar(c)
  {
    hide EscapeChar, Hex4, HexDigit;
    EscapeWidth(c);
    HexUnique(piece[2..6], c);
    assert piece == piece[..2] + piece[2..6];
  }

  /** What is written has no upper-case digit in an escape, and it spells the string: it is the text the
  lemma above is about. */
  lemma {:induction false} EscapeLower(s: string)
    ensures LowerEscapes(Escape(s)) && Spells(Escape(s), s)
  {
    hide ScanString, EscapeChar;
    ScanQuoted(s, "");
    assert Escape(s) + "\"" + "" == Escape(s) + "\"";
    if |s| > 0 {
      EscapeLower(s[1..]);
      LowerPiece(s[0], Escape(s[1..]));
    }
  }

  lemma LowerPiece(c: char, rest: string)
    requires LowerEscapes(rest)
    ensures LowerEscapes(EscapeChar(c) + rest)
  {
    var e := EscapeChar(c);
    var t := e + rest;
    assert t[|e|..] == rest;
    if |e| == 6 {
      hide HexDigit;
      LowerOf(c as int / 16);
      LowerOf(c as int % 16);
    }
  }

  lemma LowerOf(n: nat)
    requires n < 16
    ensures !UpperHex(HexDigit(n))
  {
  }
}
