/** Python's string orders: code points (`sorted` on strings) and the UTF-16-BE byte order
that RFC 8785 section 3.2.3 asks object members to be sorted in. */
module Ordering {

  // ----- lexicographic order -----

  predicate LexLess(a: seq<int>, b: seq<int>) {
    if |b| == 0 then false
    else if |a| == 0 then true
    else if a[0] != b[0] then a[0] < b[0]
    else LexLess(a[1..], b[1..])
  }

  predicate LexLeq(a: seq<int>, b: seq<int>) {
    a == b || LexLess(a, b)
  }

  lemma {:induction false} LexIrreflexive(a: seq<int>)
    ensures !LexLess(a, a)
  {
    if |a| > 0 { LexIrreflexive(a[1..]); }
  }

  lemma {:induction false} LexTotal(a: seq<int>, b: seq<int>)
    ensures LexLess(a, b) || a == b || LexLess(b, a)
  {
    if |a| > 0 && |b| > 0 && a[0] == b[0] {
      LexTotal(a[1..], b[1..]);
      assert a == [a[0]] + a[1..] && b == [b[0]] + b[1..];
    }
  }

  lemma {:induction false} LexTransitive(a: seq<int>, b: seq<int>, c: seq<int>)
    requires LexLess(a, b) && LexLess(b, c)
    ensures LexLess(a, c)
  {
    if |a| > 0 && a[0] == b[0] == c[0] {
      LexTransitive(a[1..], b[1..], c[1..]);
    }
  }

  lemma LexAsymmetric(a: seq<int>, b: seq<int>)
    requires LexLess(a, b)
    ensures !LexLess(b, a)
  {
    if LexLess(b, a) {
      LexTransitive(a, b, a);
      LexIrreflexive(a);
    }
  }

  lemma {:induction false} LexCommonPrefix(p: seq<int>, a: seq<int>, b: seq<int>)
    ensures LexLess(p + a, p + b) == LexLess(a, b)
  {
    if |p| == 0 {
      assert p + a == a && p + b == b;
    } else {
      assert (p + a)[1..] == p[1..] + a && (p + b)[1..] == p[1..] + b;
      LexCommonPrefix(p[1..], a, b);
    }
  }

  // ----- three images of a string -----

  function CodePoints(s: string): (r: seq<int>)
    ensures |r| == |s|
  {
    if |s| == 0 then [] else [s[0] as int] + CodePoints(s[1..])
  }

  predicate Astral(c: char) { c as int >= 0x10000 }

  /** A BMP character sorted after the surrogate range. */
  predicate AboveSurrogates(c: char) { 0xE000 <= c as int < 0x10000 }

  /** The UTF-16 code units of one character. */
  function UnitsOf(c: char): (r: seq<int>)
    ensures 1 <= |r| <= 2
    ensures forall i :: 0 <= i < |r| ==> 0 <= r[i] < 0x10000
  {
    if Astral(c) then
      var n := c as int - 0x10000;
      [0xD800 + n / 0x400, 0xDC00 + n % 0x400]
    else [c as int]
  }

  function Units(s: string): (r: seq<int>)
    ensures forall i :: 0 <= i < |r| ==> 0 <= r[i] < 0x10000
  {
    if |s| == 0 then [] else UnitsOf(s[0]) + Units(s[1..])
  }

  /** Big-endian bytes of a sequence of code units. */
  function BytesOf(units: seq<int>): seq<int> {
    if |units| == 0 then [] else [units[0] / 256, units[0] % 256] + BytesOf(units[1..])
  }

  /** `s.encode("utf-16-be")` (canonical.py:34). */
  function Utf16Bytes(s: string): seq<int> {
    BytesOf(Units(s))
  }

  lemma {:induction false} CodePointsInjective(s: string, t: string)
    requires CodePoints(s) == CodePoints(t)
    ensures s == t
  {
    if |s| > 0 {
      assert CodePoints(s)[0] == s[0] as int && CodePoints(t)[0] == t[0] as int;
      assert CodePoints(s)[1..] == CodePoints(s[1..]) && CodePoints(t)[1..] == CodePoints(t[1..]);
      CodePointsInjective(s[1..], t[1..]);
      assert s == [s[0]] + s[1..] && t == [t[0]] + t[1..];
    }
  }

  /** Byte order on the encoding is code-unit order. */
  lemma {:induction false} ByteOrderIsUnitOrder(a: seq<int>, b: seq<int>)
    requires forall i :: 0 <= i < |a| ==> 0 <= a[i] < 0x10000
    requires forall i :: 0 <= i < |b| ==> 0 <= b[i] < 0x10000
    ensures LexLess(BytesOf(a), BytesOf(b)) == LexLess(a, b)
  {
    if |a| > 0 && |b| > 0 {
      var p, q := [a[0] / 256, a[0] % 256], [b[0] / 256, b[0] % 256];
      assert BytesOf(a) == p + BytesOf(a[1..]) && BytesOf(b) == q + BytesOf(b[1..]);
      if a[0] == b[0] {
        LexCommonPrefix(p, BytesOf(a[1..]), BytesOf(b[1..]));
        ByteOrderIsUnitOrder(a[1..], b[1..]);
      } else if a[0] / 256 == b[0] / 256 {
        assert BytesOf(a)[1..][0] == a[0] % 256 && BytesOf(b)[1..][0] == b[0] % 256;
      }
    }
  }

  /** The first code unit of two different characters, or the second one, tells them apart. */
  lemma UnitsOfDiffer(c: char, d: char, x: seq<int>, y: seq<int>)
    requires c != d
    ensures UnitsOf(c) + x != UnitsOf(d) + y
    ensures LexLess(UnitsOf(c) + x, UnitsOf(d) + y) <==>
              if Astral(c) && AboveSurrogates(d) then true
              else if AboveSurrogates(c) && Astral(d) then false
              else c < d
  {
    var a, b := UnitsOf(c) + x, UnitsOf(d) + y;
    assert a[0] == UnitsOf(c)[0] && b[0] == UnitsOf(d)[0];
    if Astral(c) && Astral(d) {
      var m, n := c as int - 0x10000, d as int - 0x10000;
      assert a[1] == 0xDC00 + m % 0x400 && b[1] == 0xDC00 + n % 0x400;
      if m / 0x400 == n / 0x400 {
        assert m == 0x400 * (m / 0x400) + m % 0x400 && n == 0x400 * (n / 0x400) + n % 0x400;
        assert a[1..][0] != b[1..][0];
      }
    }
  }

  lemma {:induction false} UnitsInjective(s: string, t: string)
    requires Units(s) == Units(t)
    ensures s == t
  {
    if |s| > 0 && |t| > 0 {
      if s[0] != t[0] {
        UnitsOfDiffer(s[0], t[0], Units(s[1..]), Units(t[1..]));
      } else {
        var p := UnitsOf(s[0]);
        assert Units(s)[|p|..] == Units(s[1..]) && Units(t)[|p|..] == Units(t[1..]);
        UnitsInjective(s[1..], t[1..]);
        assert s == [s[0]] + s[1..] && t == [t[0]] + t[1..];
      }
    }
  }

  predicate KeyLess(s: string, t: string) {
    LexLess(Utf16Bytes(s), Utf16Bytes(t))
  }

  predicate CodePointLess(s: string, t: string) {
    LexLess(CodePoints(s), CodePoints(t))
  }

  lemma KeyLessIsUnitOrder(s: string, t: string)
    ensures KeyLess(s, t) == LexLess(Units(s), Units(t))
  {
    ByteOrderIsUnitOrder(Units(s), Units(t));
  }

  /** The member order is a strict total order on keys. */
  lemma KeyOrderStrictTotal(s: string, t: string, u: string)
    ensures !KeyLess(s, s)
    ensures s != t ==> KeyLess(s, t) != KeyLess(t, s)
    ensures KeyLess(s, t) && KeyLess(t, u) ==> KeyLess(s, u)
  {
    LexIrreflexive(Utf16Bytes(s));
    if s != t {
      KeyLessIsUnitOrder(s, t);
      KeyLessIsUnitOrder(t, s);
      if Units(s) == Units(t) { UnitsInjective(s, t); }
      LexTotal(Units(s), Units(t));
      if LexLess(Units(s), Units(t)) { LexAsymmetric(Units(s), Units(t)); }
    }
    if KeyLess(s, t) && KeyLess(t, u) {
      LexTransitive(Utf16Bytes(s), Utf16Bytes(t), Utf16Bytes(u));
    }
  }

  /** The characters at the first place where two strings differ, if both have one there. */
  function FirstDifference(s: string, t: string): seq<char> {
    if |s| == 0 || |t| == 0 then []
    else if s[0] != t[0] then [s[0], t[0]]
    else FirstDifference(s[1..], t[1..])
  }

  predicate SplitsOrders(d: seq<char>) {
    && |d| == 2
    && ((Astral(d[0]) && AboveSurrogates(d[1])) || (AboveSurrogates(d[0]) && Astral(d[1])))
  }

  /** RFC 8785's member order and Python's own string order disagree on exactly the pairs whose
  first difference sets a character outside the BMP against one in U+E000..U+FFFF. */
  lemma KeyOrderVersusCodePointOrder(s: string, t: string)
    ensures KeyLess(s, t) != CodePointLess(s, t) <==> SplitsOrders(FirstDifference(s, t))
  {
    KeyLessIsUnitOrder(s, t);
    UnitOrderVersusCodePointOrder(s, t);
  }

  lemma {:induction false} UnitOrderVersusCodePointOrder(s: string, t: string)
    ensures LexLess(Units(s), Units(t)) != CodePointLess(s, t)
            <==> SplitsOrders(FirstDifference(s, t))
  {
    if |s| > 0 && |t| > 0 {
      assert CodePoints(s) == [s[0] as int] + CodePoints(s[1..]);
      assert CodePoints(t) == [t[0] as int] + CodePoints(t[1..]);
      if s[0] == t[0] {
        LexCommonPrefix(UnitsOf(s[0]), Units(s[1..]), Units(t[1..]));
        LexCommonPrefix([s[0] as int], CodePoints(s[1..]), CodePoints(t[1..]));
        UnitOrderVersusCodePointOrder(s[1..], t[1..]);
      } else {
        UnitsOfDiffer(s[0], t[0], Units(s[1..]), Units(t[1..]));
      }
    } else if |t| > 0 {
      assert |Units(t)| > 0 && |CodePoints(t)| > 0;
    }
  }

  lemma CodePointOrderStrictTotal(s: string, t: string)
    ensures !CodePointLess(s, s)
    ensures s != t ==> CodePointLess(s, t) != CodePointLess(t, s)
  {
    LexIrreflexive(CodePoints(s));
    if s != t {
      if CodePoints(s) == CodePoints(t) { CodePointsInjective(s, t); }
      LexTotal(CodePoints(s), CodePoints(t));
      if CodePointLess(s, t) { LexAsymmetric(CodePoints(s), CodePoints(t)); }
    }
  }

  // ----- sorting -----

  /** `sorted(xs, key=rank)`: a stable insertion sort. */
  function SortBy<T>(xs: seq<T>, rank: T -> seq<int>): (r: seq<T>)
    ensures multiset(r) == multiset(xs)
    ensures |r| == |xs|
  {
    if |xs| == 0 then []
    else
      assert xs == [xs[0]] + xs[1..];
      InsertBy(xs[0], SortBy(xs[1..], rank), rank)
  }

  function InsertBy<T>(x: T, xs: seq<T>, rank: T -> seq<int>): (r: seq<T>)
    ensures multiset(r) == multiset([x]) + multiset(xs)
    ensures |r| == |xs| + 1
  {
    if |xs| == 0 || LexLeq(rank(x), rank(xs[0])) then [x] + xs
    else
      assert xs == [xs[0]] + xs[1..];
      [xs[0]] + InsertBy(x, xs[1..], rank)
  }

  ghost predicate Sorted<T>(xs: seq<T>, rank: T -> seq<int>) {
    forall i, j :: 0 <= i < j < |xs| ==> LexLeq(rank(xs[i]), rank(xs[j]))
  }

  lemma LexLeqTransitive(a: seq<int>, b: seq<int>, c: seq<int>)
    requires LexLeq(a, b) && LexLeq(b, c)
    ensures LexLeq(a, c)
  {
    if a != b && b != c { LexTransitive(a, b, c); }
  }

  lemma {:induction false} InsertSorted<T>(x: T, xs: seq<T>, rank: T -> seq<int>)
    requires Sorted(xs, rank)
    ensures Sorted(InsertBy(x, xs, rank), rank)
  {
    if |xs| == 0 {
    } else if LexLeq(rank(x), rank(xs[0])) {
      var r := [x] + xs;
      forall j | 0 < j < |r| ensures LexLeq(rank(r[0]), rank(r[j])) {
        if j > 1 { LexLeqTransitive(rank(x), rank(xs[0]), rank(xs[j - 1])); }
      }
    } else {
      InsertSorted(x, xs[1..], rank);
      var tail := InsertBy(x, xs[1..], rank);
      LexTotal(rank(x), rank(xs[0]));
      forall j | 0 <= j < |tail| ensures LexLeq(rank(xs[0]), rank(tail[j])) {
        assert tail[j] in multiset(tail);
        if tail[j] != x {
          assert tail[j] in multiset(xs[1..]);
          var k :| 0 <= k < |xs| - 1 && xs[1..][k] == tail[j];
          assert xs[k + 1] == tail[j];
        }
      }
    }
  }

  lemma {:induction false} SortBySorted<T>(xs: seq<T>, rank: T -> seq<int>)
    ensures Sorted(SortBy(xs, rank), rank)
  {
    if |xs| > 0 {
      SortBySorted(xs[1..], rank);
      InsertSorted(xs[0], SortBy(xs[1..], rank), rank);
    }
  }

  /** Equal ranks mean equal items. */
  ghost predicate Separates<T(!new)>(rank: T -> seq<int>, xs: multiset<T>) {
    forall x, y :: x in xs && y in xs && rank(x) == rank(y) ==> x == y
  }

  lemma LeastIsFirst<T>(a: seq<T>, x: T, rank: T -> seq<int>)
    requires Sorted(a, rank) && x in a
    ensures LexLeq(rank(a[0]), rank(x))
  {
    var i :| 0 <= i < |a| && a[i] == x;
  }

  lemma SameHead<T(!new)>(a: seq<T>, b: seq<T>, rank: T -> seq<int>)
    requires Sorted(a, rank) && Sorted(b, rank) && multiset(a) == multiset(b) && |a| > 0
    requires Separates(rank, multiset(a))
    ensures |b| > 0 && a[0] == b[0]
  {
    assert a[0] in multiset(b);
    assert b[0] in multiset(a);
    LeastIsFirst(a, b[0], rank);
    LeastIsFirst(b, a[0], rank);
    if rank(a[0]) != rank(b[0]) {
      LexAsymmetric(rank(a[0]), rank(b[0]));
    }
  }

  /** A multiset has one sorted arrangement when equal ranks mean equal items. */
  lemma {:induction false} SortedUnique<T(!new)>(a: seq<T>, b: seq<T>, rank: T -> seq<int>)
    requires Sorted(a, rank) && Sorted(b, rank) && multiset(a) == multiset(b)
    requires Separates(rank, multiset(a))
    ensures a == b
  {
    hide Sorted, Separates;
    SameLength(a, b);
    if |a| > 0 {
      Peel(a, b, rank);
      SortedUnique(a[1..], b[1..], rank);
      assert a == [a[0]] + a[1..] && b == [b[0]] + b[1..];
    }
  }

  lemma SameLength<T>(a: seq<T>, b: seq<T>)
    requires multiset(a) == multiset(b)
    ensures |a| == |b|
  {
    assert |multiset(a)| == |a| && |multiset(b)| == |b|;
  }

  /** Two sorted arrangements of one multiset begin alike, and so do what follows. */
  lemma Peel<T(!new)>(a: seq<T>, b: seq<T>, rank: T -> seq<int>)
    requires |a| == |b| > 0 && Sorted(a, rank) && Sorted(b, rank) && multiset(a) == multiset(b)
    requires Separates(rank, multiset(a))
    ensures a[0] == b[0] && multiset(a[1..]) == multiset(b[1..])
    ensures Sorted(a[1..], rank) && Sorted(b[1..], rank) && Separates(rank, multiset(a[1..]))
  {
    SameHead(a, b, rank);
    TailMultiset(a);
    TailMultiset(b);
    SortedTail(a, rank);
    SortedTail(b, rank);
    hide Sorted;
    assert forall x :: x in multiset(a[1..]) ==> x in multiset(a);
  }

  lemma SortedTail<T>(a: seq<T>, rank: T -> seq<int>)
    requires |a| > 0 && Sorted(a, rank)
    ensures Sorted(a[1..], rank)
  {
  }

  lemma TailMultiset<T>(a: seq<T>)
    requires |a| > 0
    ensures multiset(a[1..]) == multiset(a) - multiset{a[0]}
  {
    assert a == [a[0]] + a[1..];
  }

  /** Two lists sort to the same list exactly when they are permutations of each other. */
  lemma SortDecidesPermutation(a: seq<string>, b: seq<string>)
    ensures SortBy(a, CodePoints) == SortBy(b, CodePoints) <==> multiset(a) == multiset(b)
  {
    if multiset(a) == multiset(b) {
      SortBySorted(a, CodePoints);
      SortBySorted(b, CodePoints);
      forall x, y | CodePoints(x) == CodePoints(y) ensures x == y {
        CodePointsInjective(x, y);
      }
      SortedUnique(SortBy(a, CodePoints), SortBy(b, CodePoints), CodePoints);
    }
  }
}
