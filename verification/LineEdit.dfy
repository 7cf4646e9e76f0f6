/** `set_status_in_file` and `set_revision_in_file`: the two line edits of a hand-written file. */
module LineEdit {
  import opened Values
  import opened Sequences
  import opened JsonText

  /** What `\s` matches. The code needs a space and a newline to be blank and a hash not to be. */
  type Blank = char -> bool

  ghost predicate BlankOk(blank: Blank) {
    blank(' ') && blank('\n') && !blank('#')
  }

  const STATUS := "status:"
  const REVISION := "revision:"

  /** Where the first of `stops` is, at or after `from`; the length when there is none. */
  function Find(t: string, from: nat, stops: string): (n: nat)
    requires from <= |t|
    ensures from <= n <= |t|
    ensures n < |t| ==> t[n] in stops
    ensures forall i :: from <= i < n ==> t[i] !in stops
    decreases |t| - from
  {
    if from == |t| || t[from] in stops then from else Find(t, from + 1, stops)
  }

  /** Where the first line of `t` ends. */
  function Eol(t: string): nat {
    Find(t, 0, "\n")
  }

  /** How far the blank characters from `from` on reach. */
  function BlankRun(blank: Blank, t: string, from: nat): (n: nat)
    requires from <= |t|
    ensures from <= n <= |t|
    decreases |t| - from
  {
    if from < |t| && blank(t[from]) then BlankRun(blank, t, from + 1) else from
  }

  // ----- the status pattern, matched at the start of a line -----

  /** The value group ends at `value` and the whole match, comment included, at `end`. */
  datatype Match = Match(value: nat, end: nat)

  /** `_STATUS_LINE_RE` at the start of `t`. The value takes what it can up to a hash or the end of the
  line. Before a hash it must give back one blank character for the comment to start with, and there
  is no match when it has none to give. At the end of a line the comment may start with that very
  newline and be found on a later line. */
  function StatusMatch(blank: Blank, t: string): (r: Option<Match>)
    ensures r.Some? ==> |STATUS| <= r.value.value <= r.value.end <= |t|
  {
    if !StartsWith(t, STATUS) then None
    else
      var e := Find(t, |STATUS|, "#\n");
      if e < |t| && t[e] == '#' then
        if e > |STATUS| && blank(t[e - 1]) then Some(Match(e - 1, Find(t, e, "\n"))) else None
      else
        var w := BlankRun(blank, t, e);
        if w > e && w < |t| && t[w] == '#' then Some(Match(e, Find(t, w, "\n")))
        else Some(Match(e, e))
  }

  /** `_STATUS_LINE_RE.subn(..., count=1)` on a text that starts at a line; `None`: no line matched. The
  replacement writes the new value and the comment group, and the rest of the text follows. */
  function SetStatus(blank: Blank, t: string, status: string): Option<string>
    decreases |t|
  {
    match StatusMatch(blank, t)
    case Some(m) => Some(STATUS + " " + status + t[m.value..m.end] + t[m.end..])
    case None =>
      var n := Eol(t);
      if n == |t| then None
      else
        match SetStatus(blank, t[n + 1..], status)
        case None => None
        case Some(rest) => Some(t[..n + 1] + rest)
  }

  /** `_REVISION_LINE_RE.subn(..., count=1)`. */
  function SetRevision(t: string, revision: int): Option<string>
    decreases |t|
  {
    var n := Eol(t);
    if StartsWith(t, REVISION) then Some(REVISION + " " + IntText(revision) + t[n..])
    else if n == |t| then None
    else
      match SetRevision(t[n + 1..], revision)
      case None => None
      case Some(rest) => Some(t[..n + 1] + rest)
  }

  // ----- reading the two lines back -----

  function TrimLeft(blank: Blank, s: string): string {
    if |s| > 0 && blank(s[0]) then TrimLeft(blank, s[1..]) else s
  }

  function TrimRight(blank: Blank, s: string): string {
    if |s| > 0 && blank(s[|s| - 1]) then TrimRight(blank, s[..|s| - 1]) else s
  }

  /** The plain scalar on the first status line. */
  function ReadStatus(blank: Blank, t: string): Option<string>
    decreases |t|
  {
    match StatusMatch(blank, t)
    case Some(m) => Some(TrimRight(blank, TrimLeft(blank, t[|STATUS|..m.value])))
    case None =>
      var n := Eol(t);
      if n == |t| then None else ReadStatus(blank, t[n + 1..])
  }

  /** What follows the key on the first revision line. */
  function ReadRevision(t: string): Option<string>
    decreases |t|
  {
    var n := Eol(t);
    if StartsWith(t, REVISION) then Some(t[|REVISION|..n])
    else if n == |t| then None
    else ReadRevision(t[n + 1..])
  }

  /** A status worth writing: no hash, no newline, and not blank at either end. Every lifecycle state is. */
  ghost predicate PlainScalar(blank: Blank, s: string) {
    |s| > 0 && '#' !in s && '\n' !in s && !blank(s[0]) && !blank(s[|s| - 1])
  }

  // ----- a match is decided by its line -----

  /** Where the value ends on a line. */
  function ValueEnd(blank: Blank, line: string): Option<nat> {
    if !StartsWith(line, STATUS) then None
    else
      var h := Find(line, |STATUS|, "#");
      if h == |line| then Some(h)
      else if h > |STATUS| && blank(line[h - 1]) then Some(h - 1)
      else None
  }

  lemma FindIs(t: string, from: nat, stops: string, n: nat)
    requires from <= n <= |t|
    requires forall i :: from <= i < n ==> t[i] !in stops
    requires n < |t| ==> t[n] in stops
    ensures Find(t, from, stops) == n
  {
    assert Find(t, from, stops) <= n;
  }

  lemma EolOf(line: string, rest: string)
    requires '\n' !in line && (rest == "" || rest[0] == '\n')
    ensures Eol(line + rest) == |line|
  {
    var t := line + rest;
    assert forall i :: 0 <= i < |line| ==> t[i] == line[i];
    assert rest != "" ==> t[|line|] == rest[0];
    FindIs(t, 0, "\n", |line|);
  }

  lemma LineStarts(line: string, rest: string, p: string)
    requires '\n' !in p && (rest == "" || rest[0] == '\n')
    ensures StartsWith(line + rest, p) == StartsWith(line, p)
  {
    var t := line + rest;
    if |p| <= |line| {
      assert t[..|p|] == line[..|p|];
    } else if |p| <= |t| {
      assert t[|line|] == '\n';
      assert t[..|p|][|line|] == '\n';
    }
  }

  /** The part of the match that matters is a matter of the first line only; a comment found on a later
  line is written back as it was. */
  lemma MatchByLine(blank: Blank, line: string, rest: string)
    requires '\n' !in line && (rest == "" || rest[0] == '\n')
    ensures StatusMatch(blank, line + rest).Some? <==> ValueEnd(blank, line).Some?
    ensures ValueEnd(blank, line).Some? ==>
              && StatusMatch(blank, line + rest).value.value == ValueEnd(blank, line).value
              && |STATUS| <= ValueEnd(blank, line).value <= |line|
  {
    var t := line + rest;
    assert '\n' !in STATUS;
    LineStarts(line, rest, STATUS);
    if StartsWith(line, STATUS) {
      var h := Find(line, |STATUS|, "#");
      assert forall i :: 0 <= i < |line| ==> t[i] == line[i];
      if h < |line| {
        FindIs(t, |STATUS|, "#\n", h);
      } else {
        assert rest != "" ==> t[h] == '\n';
        FindIs(t, |STATUS|, "#\n", h);
      }
    }
  }

  /** `^(status:)[^#\n]*(?P<comment>\s+#.*)?$` matches the start of `t`: the value runs to `value`, and the
  comment, if there is one, to `end`. */
  ghost predicate Matches(blank: Blank, t: string, value: nat, end: nat) {
    && |STATUS| <= value <= end <= |t| && t[..|STATUS|] == STATUS
    && (forall i :: |STATUS| <= i < value ==> t[i] != '#' && t[i] != '\n')
    && (end == value || exists hash :: value < hash && IsComment(blank, t, value, hash, end))
    && (end < |t| ==> t[end] == '\n')
  }

  ghost predicate IsComment(blank: Blank, t: string, value: nat, hash: int, end: nat) {
    && value <= hash < end <= |t|
    && (forall i :: value <= i < hash ==> blank(t[i]))
    && t[hash] == '#' && forall i :: hash < i < end ==> t[i] != '\n'
  }

  /** The match is the one the pattern takes: the longest value there is a match for, and then its comment
  if it has one. */
  lemma StatusMatchIsGreedy(blank: Blank, t: string)
    requires BlankOk(blank)
    ensures var m := StatusMatch(blank, t);
            && (m.Some? ==> Matches(blank, t, m.value.value, m.value.end))
            && (forall value: nat, end: nat :: Matches(blank, t, value, end) ==>
                  m.Some? && (value < m.value.value || (value == m.value.value && end <= m.value.end)))
  {
    var m := StatusMatch(blank, t);
    if m.Some? { TakenMatches(blank, t); }
    forall value: nat, end: nat | Matches(blank, t, value, end)
      ensures m.Some? && (value < m.value.value || (value == m.value.value && end <= m.value.end))
    {
      NoneBetter(blank, t, value, end);
    }
  }

  lemma BlankRunIs(blank: Blank, t: string, from: nat)
    requires from <= |t|
    ensures var n := BlankRun(blank, t, from);
            && (forall i :: from <= i < n ==> blank(t[i]))
            && (n < |t| ==> !blank(t[n]))
    decreases |t| - from
  {
    if from < |t| && blank(t[from]) { BlankRunIs(blank, t, from + 1); }
  }

  lemma TakenMatches(blank: Blank, t: string)
    requires BlankOk(blank) && StatusMatch(blank, t).Some?
    ensures var m := StatusMatch(blank, t).value; Matches(blank, t, m.value, m.end)
  {
    hide BlankRun;
    var m := StatusMatch(blank, t).value;
    var e := Find(t, |STATUS|, "#\n");
    if e < |t| && t[e] == '#' {
      assert IsComment(blank, t, e - 1, e, m.end);
    } else {
      BlankRunIs(blank, t, e);
      var w := BlankRun(blank, t, e);
      if w > e && w < |t| && t[w] == '#' {
        assert IsComment(blank, t, e, w, m.end);
      }
    }
  }

  lemma NoneBetter(blank: Blank, t: string, value: nat, end: nat)
    requires BlankOk(blank) && Matches(blank, t, value, end)
    ensures var m := StatusMatch(blank, t);
            m.Some? && (value < m.value.value || (value == m.value.value && end <= m.value.end))
  {
    hide BlankRun;
    var e := Find(t, |STATUS|, "#\n");
    assert value <= e;
    BlankRunIs(blank, t, e);
    var w := BlankRun(blank, t, e);
    if end > value {
      var hash :| value < hash && IsComment(blank, t, value, hash, end);
      if e < |t| && t[e] == '#' {
        assert hash == e;
      } else if value == e {
        assert hash == w;
      }
    }
  }

  lemma SplitFirst(t: string)
    ensures var n := Eol(t);
            && t == t[..n] + t[n..] && '\n' !in t[..n]
            && (t[n..] == "" || t[n..][0] == '\n')
            && (n < |t| ==> t[n..] == "\n" + t[n + 1..])
  {
  }

  /** The edited line: the new value, and the comment if the line has one. */
  function Edited(blank: Blank, line: string, status: string): string
    requires ValueEnd(blank, line).Some?
  {
    STATUS + " " + status + line[ValueEnd(blank, line).value..]
  }

  lemma Rejoin(t: string, head: string, a: nat, b: nat)
    requires a <= b <= |t|
    ensures head + t[a..b] + t[b..] == head + t[a..]
  {
    assert t[a..] == t[a..b] + t[b..];
  }

  /** The edit of a text whose first line is the one to edit. */
  lemma SetStatusHere(blank: Blank, line: string, rest: string, status: string)
    requires '\n' !in line && (rest == "" || rest[0] == '\n') && ValueEnd(blank, line).Some?
    ensures SetStatus(blank, line + rest, status) == Some(Edited(blank, line, status) + rest)
  {
    hide StatusMatch, ValueEnd;
    var t := line + rest;
    MatchByLine(blank, line, rest);
    var m := StatusMatch(blank, t).value;
    var head := STATUS + " " + status;
    Rejoin(t, head, m.value, m.end);
    assert t[m.value..] == line[m.value..] + rest;
    assert head + (line[m.value..] + rest) == (head + line[m.value..]) + rest;
  }

  /** ... and of one whose first line is not. */
  lemma SetStatusLater(blank: Blank, line: string, rest: string, status: string)
    requires '\n' !in line && ValueEnd(blank, line).None?
    ensures SetStatus(blank, line, status) == None
    ensures SetStatus(blank, line + "\n" + rest, status) ==
              if SetStatus(blank, rest, status).None? then None
              else Some(line + "\n" + SetStatus(blank, rest, status).value)
  {
    var t := line + "\n" + rest;
    assert t == line + ("\n" + rest);
    MatchByLine(blank, line, "\n" + rest);
    EolOf(line, "\n" + rest);
    assert t[|line| + 1..] == rest && t[..|line| + 1] == line + "\n";
    assert line + "" == line;
    MatchByLine(blank, line, "");
    EolOf(line, "");
  }

  lemma SetRevisionHere(line: string, rest: string, revision: int)
    requires '\n' !in line && (rest == "" || rest[0] == '\n') && StartsWith(line, REVISION)
    ensures SetRevision(line + rest, revision)
            == Some((REVISION + " " + IntText(revision)) + rest)
  {
    hide IntText;
    assert '\n' !in REVISION;
    LineStarts(line, rest, REVISION);
    EolOf(line, rest);
    assert (line + rest)[|line|..] == rest;
  }

  lemma SetRevisionLater(line: string, rest: string, revision: int)
    requires '\n' !in line && !StartsWith(line, REVISION)
    ensures SetRevision(line, revision) == None
    ensures SetRevision(line + "\n" + rest, revision) ==
              if SetRevision(rest, revision).None? then None
              else Some(line + "\n" + SetRevision(rest, revision).value)
  {
    hide IntText;
    var t := line + "\n" + rest;
    assert t == line + ("\n" + rest);
    assert '\n' !in REVISION;
    LineStarts(line, "\n" + rest, REVISION);
    EolOf(line, "\n" + rest);
    assert t[|line| + 1..] == rest && t[..|line| + 1] == line + "\n";
    assert line + "" == line;
    EolOf(line, "");
  }

  // ----- one line at a time -----

  lemma FirstChar(t: string, p: string)
    requires p != "" && StartsWith(t, p)
    ensures t[0] == p[0]
  {
    assert t[..|p|][0] == t[0];
  }

  lemma Keys(t: string)
    ensures !(StartsWith(t, STATUS) && StartsWith(t, REVISION))
  {
    assert STATUS[0] == 's' && REVISION[0] == 'r';
    if StartsWith(t, STATUS) { FirstChar(t, STATUS); }
    if StartsWith(t, REVISION) { FirstChar(t, REVISION); }
  }

  lemma ValueEndIs(blank: Blank, e: string, n: nat)
    requires BlankOk(blank) && StartsWith(e, STATUS) && |STATUS| < n <= |e|
    requires forall i :: |STATUS| <= i < n ==> e[i] != '#'
    requires n < |e| ==> n + 1 < |e| && blank(e[n]) && e[n + 1] == '#'
    ensures ValueEnd(blank, e) == Some(n)
  {
    FindIs(e, |STATUS|, "#", if n == |e| then n else n + 1);
  }

  /** What is left of a line after its value: nothing, or a blank character and a comment. */
  lemma TailOfLine(blank: Blank, line: string)
    requires '\n' !in line && ValueEnd(blank, line).Some?
    ensures ValueEnd(blank, line).value <= |line|
    ensures var tail := line[ValueEnd(blank, line).value..];
            '\n' !in tail && (tail == "" || (|tail| > 1 && blank(tail[0]) && tail[1] == '#'))
  {
    var v := ValueEnd(blank, line).value;
    assert forall i :: 0 <= i < |line| - v ==> line[v..][i] == line[v + i];
  }

  /** The edited line is a status line whose value is what was written. */
  lemma EditedLine(blank: Blank, line: string, status: string)
    requires BlankOk(blank) && PlainScalar(blank, status)
    requires '\n' !in line && ValueEnd(blank, line).Some?
    ensures '\n' !in Edited(blank, line, status)
    ensures ValueEnd(blank, Edited(blank, line, status)) == Some(|STATUS| + 1 + |status|)
    ensures !StartsWith(Edited(blank, line, status), REVISION)
  {
    var tail := line[ValueEnd(blank, line).value..];
    TailOfLine(blank, line);
    WriteLine(blank, status, tail);
    var e := STATUS + " " + status + tail;
    Keys(e);
  }

  lemma WriteLine(blank: Blank, status: string, tail: string)
    requires BlankOk(blank) && PlainScalar(blank, status) && '\n' !in tail
    requires tail == "" || (|tail| > 1 && blank(tail[0]) && tail[1] == '#')
    ensures var e := STATUS + " " + status + tail;
            && '\n' !in e && StartsWith(e, STATUS)
            && ValueEnd(blank, e) == Some(|STATUS| + 1 + |status|)
  {
    hide ValueEnd;
    var head := STATUS + " " + status;
    var e := head + tail;
    var n := |head|;
    assert '\n' !in STATUS && '\n' !in head;
    assert e[..|STATUS|] == STATUS;
    forall i | |STATUS| <= i < n ensures e[i] != '#' {
      assert e[i] == head[i];
      if i > |STATUS| { assert head[i] == status[i - |STATUS| - 1]; }
    }
    if tail != "" { assert e[n] == tail[0] && e[n + 1] == tail[1]; }
    ValueEndIs(blank, e, n);
  }

  lemma {:induction false} TrimPlain(blank: Blank, s: string)
    requires BlankOk(blank) && PlainScalar(blank, s)
    ensures TrimRight(blank, TrimLeft(blank, " " + s)) == s
  {
    assert (" " + s)[1..] == s;
    assert TrimLeft(blank, " " + s) == TrimLeft(blank, s) == s;
  }

  lemma ReadStatusHere(blank: Blank, line: string, rest: string)
    requires '\n' !in line && (rest == "" || rest[0] == '\n') && ValueEnd(blank, line).Some?
    ensures |STATUS| <= ValueEnd(blank, line).value <= |line|
    ensures ReadStatus(blank, line + rest)
            == Some(TrimRight(blank, TrimLeft(blank, line[|STATUS|..ValueEnd(blank, line).value])))
  {
    hide StatusMatch, ValueEnd, TrimLeft, TrimRight;
    MatchByLine(blank, line, rest);
    var v := ValueEnd(blank, line).value;
    assert (line + rest)[|STATUS|..v] == line[|STATUS|..v];
  }

  lemma ReadStatusLater(blank: Blank, line: string, rest: string)
    requires '\n' !in line && ValueEnd(blank, line).None?
    ensures ReadStatus(blank, line + "\n" + rest) == ReadStatus(blank, rest)
  {
    hide StatusMatch, ValueEnd;
    var t := line + "\n" + rest;
    assert t == line + ("\n" + rest);
    MatchByLine(blank, line, "\n" + rest);
    EolOf(line, "\n" + rest);
    assert t[|line| + 1..] == rest;
  }

  lemma ReadRevisionHere(line: string, rest: string)
    requires '\n' !in line && (rest == "" || rest[0] == '\n') && StartsWith(line, REVISION)
    ensures ReadRevision(line + rest) == Some(line[|REVISION|..])
  {
    assert '\n' !in REVISION;
    LineStarts(line, rest, REVISION);
    EolOf(line, rest);
    assert (line + rest)[|REVISION|..|line|] == line[|REVISION|..];
  }

  lemma ReadRevisionLater(line: string, rest: string)
    requires '\n' !in line && !StartsWith(line, REVISION)
    ensures ReadRevision(line + "\n" + rest) == ReadRevision(rest)
    ensures ReadRevision(line) == None
  {
    var t := line + "\n" + rest;
    assert t == line + ("\n" + rest);
    assert '\n' !in REVISION;
    LineStarts(line, "\n" + rest, REVISION);
    EolOf(line, "\n" + rest);
    assert t[|line| + 1..] == rest;
    assert line + "" == line;
    EolOf(line, "");
  }

  /** A text is its only line, or a line, a newline and another text. */
  lemma Cases(t: string) returns (line: string, rest: string, last: bool)
    ensures '\n' !in line
    ensures if last then t == line && rest == "" else t == line + "\n" + rest && |rest| < |t|
  {
    SplitFirst(t);
    var n := Eol(t);
    line := t[..n];
    if n == |t| {
      rest, last := "", true;
    } else {
      rest, last := t[n + 1..], false;
      assert t == line + ("\n" + rest);
    }
  }

  // ----- what the edits do to a whole text -----

  /** Whole lines, none of which is a status line the pattern matches. */
  ghost predicate NoStatusLine(blank: Blank, t: string)
    decreases |t|
  {
    t == "" || (Eol(t) < |t| && ValueEnd(blank, t[..Eol(t)]).None? && NoStatusLine(blank, t[Eol(t) + 1..]))
  }

  /** Nothing more on the line, or a comment. */
  ghost predicate AfterValue(blank: Blank, b: string) {
    b == "" || b[0] == '\n' || (|b| > 1 && blank(b[0]) && b[1] == '#')
  }

  /** Of a text that holds the lines `a`, a status line's whole value and `b`, the edit leaves `a` and `b`
  alone; and it is the first status line. */
  ghost predicate ValueReplaced(
      blank: Blank, t: string, status: string, r: string, a: string, value: string, b: string)
  {
    && t == a + STATUS + value + b
    && r == a + STATUS + " " + status + b
    && NoStatusLine(blank, a)
    && '#' !in value && '\n' !in value
    && AfterValue(blank, b)
  }

  /** The edit replaces one value, on the first status line, and loses nothing else. */
  lemma {:induction false} OnlyTheValueChanges(blank: Blank, t: string, status: string)
    requires SetStatus(blank, t, status).Some?
    ensures exists a, value, b ::
              ValueReplaced(blank, t, status, SetStatus(blank, t, status).value, a, value, b)
    decreases |t|
  {
    hide SetStatus, ValueEnd, ValueReplaced;
    var line, rest, last := Cases(t);
    if ValueEnd(blank, line).Some? {
      var after := if last then "" else "\n" + rest;
      assert t == line + after;
      SetStatusHere(blank, line, after, status);
      var a, value, b := ReplacedHere(blank, line, after, status);
    } else {
      SetStatusLater(blank, line, rest, status);
      OnlyTheValueChanges(blank, rest, status);
      var r := SetStatus(blank, rest, status).value;
      var a, value, b :| ValueReplaced(blank, rest, status, r, a, value, b);
      PrefixReplaced(blank, line, rest, status, r, a, value, b);
    }
  }

  lemma ReplacedHere(blank: Blank, line: string, after: string, status: string)
    returns (a: string, value: string, b: string)
    requires '\n' !in line && ValueEnd(blank, line).Some? && (after == "" || after[0] == '\n')
    ensures ValueReplaced(blank, line + after, status, Edited(blank, line, status) + after, a, value, b)
  {
    hide ValueEnd;
    ValueOnLine(blank, line);
    TailOfLine(blank, line);
    var v := ValueEnd(blank, line).value;
    a, value, b := "", line[|STATUS|..v], line[v..] + after;
    assert line == line[..|STATUS|] + value + line[v..];
    assert "" + STATUS + value + b == line + after;
    assert "" + STATUS + " " + status + b == Edited(blank, line, status) + after;
    AfterTail(blank, line[v..], after);
  }

  lemma AfterTail(blank: Blank, tail: string, after: string)
    requires after == "" || after[0] == '\n'
    requires tail == "" || (|tail| > 1 && blank(tail[0]) && tail[1] == '#')
    ensures AfterValue(blank, tail + after)
  {
  }

  lemma PrefixReplaced(
      blank: Blank, line: string, t: string, status: string, r: string, a: string, value: string,
      b: string)
    requires '\n' !in line && ValueEnd(blank, line).None?
    requires ValueReplaced(blank, t, status, r, a, value, b)
    ensures ValueReplaced(blank, line + "\n" + t, status, line + "\n" + r, line + "\n" + a, value, b)
  {
    hide ValueEnd;
    var x := line + "\n";
    assert x + a == line + ("\n" + a);
    EolOf(line, "\n" + a);
    assert (x + a)[..|line|] == line && (x + a)[|line| + 1..] == a;
    assert x + (a + STATUS + value + b) == x + a + STATUS + value + b;
    assert x + (a + STATUS + " " + status + b) == x + a + STATUS + " " + status + b;
  }

  lemma ValueOnLine(blank: Blank, line: string)
    requires '\n' !in line && ValueEnd(blank, line).Some?
    ensures var v := ValueEnd(blank, line).value;
            && |STATUS| <= v <= |line| && line[..|STATUS|] == STATUS
            && '#' !in line[|STATUS|..v] && '\n' !in line[|STATUS|..v]
  {
    var v := ValueEnd(blank, line).value;
    forall i | 0 <= i < v - |STATUS| ensures line[|STATUS|..v][i] != '#' && line[|STATUS|..v][i] != '\n' {
      assert line[|STATUS|..v][i] == line[|STATUS| + i];
    }
  }

  /** After the edit the status reads back as written, and the revision line reads as it did. */
  lemma {:induction false} StatusReadsBack(blank: Blank, t: string, status: string)
    requires BlankOk(blank) && PlainScalar(blank, status)
    requires SetStatus(blank, t, status).Some?
    ensures ReadStatus(blank, SetStatus(blank, t, status).value) == Some(status)
    ensures ReadRevision(SetStatus(blank, t, status).value) == ReadRevision(t)
    decreases |t|
  {
    hide SetStatus, ValueEnd, ReadStatus, ReadRevision, Edited, TrimLeft, TrimRight;
    var line, rest, last := Cases(t);
    var r := SetStatus(blank, t, status).value;
    if ValueEnd(blank, line).Some? {
      var after := if last then "" else "\n" + rest;
      assert t == line + after;
      SetStatusHere(blank, line, after, status);
      EditedLine(blank, line, status);
      var e := Edited(blank, line, status);
      ReadStatusHere(blank, e, after);
      WrittenValue(blank, line, status);
      TrimPlain(blank, status);
      StatusIsNotRevision(blank, line);
      ReadRevisionLater(line, rest);
      ReadRevisionLater(e, rest);
      assert last ==> t == line && r == e;
      assert !last ==> t == line + "\n" + rest && r == e + "\n" + rest;
    } else {
      SetStatusLater(blank, line, rest, status);
      var u := SetStatus(blank, rest, status).value;
      StatusReadsBack(blank, rest, status);
      ReadStatusLater(blank, line, u);
      if StartsWith(line, REVISION) {
        ReadRevisionHere(line, "\n" + rest);
        ReadRevisionHere(line, "\n" + u);
        assert t == line + ("\n" + rest) && r == line + ("\n" + u);
      } else {
        ReadRevisionLater(line, rest);
        ReadRevisionLater(line, u);
      }
    }
  }

  lemma StatusIsNotRevision(blank: Blank, line: string)
    requires ValueEnd(blank, line).Some?
    ensures !StartsWith(line, REVISION)
  {
    Keys(line);
  }

  lemma WrittenValue(blank: Blank, line: string, status: string)
    requires ValueEnd(blank, line).Some?
    ensures var e, n := Edited(blank, line, status), |STATUS| + 1 + |status|;
            n <= |e| && e[|STATUS|..n] == " " + status
  {
  }

  /** The line `set_revision_in_file` writes. */
  function RevisionLine(revision: int): string {
    REVISION + " " + IntText(revision)
  }

  lemma RevisionLineOk(blank: Blank, revision: int)
    ensures '\n' !in RevisionLine(revision)
    ensures StartsWith(RevisionLine(revision), REVISION)
    ensures ValueEnd(blank, RevisionLine(revision)).None?
  {
    var n := if revision < 0 then -revision else revision;
    var d := Digits(n);
    assert '\n' !in d && '\n' !in "-" && '\n' !in REVISION && '\n' !in " ";
    var line := RevisionLine(revision);
    assert line[..|REVISION|] == REVISION;
    Keys(line);
  }

  lemma EditedIsStatus(blank: Blank, line: string, status: string)
    requires BlankOk(blank) && PlainScalar(blank, status)
    requires '\n' !in line && ValueEnd(blank, line).Some?
    ensures Edited(blank, line, status) != "" && !StartsWith(Edited(blank, line, status), REVISION)
    ensures '\n' !in Edited(blank, line, status)
  {
    EditedLine(blank, line, status);
  }

  /** The status edit and the revision edit can be made in either order. */
  lemma {:induction false} EditsCommute(blank: Blank, t: string, status: string, revision: int)
    requires BlankOk(blank) && PlainScalar(blank, status)
    requires SetStatus(blank, t, status).Some? && SetRevision(t, revision).Some?
    ensures SetRevision(SetStatus(blank, t, status).value, revision)
            == SetStatus(blank, SetRevision(t, revision).value, status)
    ensures SetRevision(SetStatus(blank, t, status).value, revision).Some?
    decreases |t|
  {
    hide SetStatus, SetRevision, ValueEnd, Edited, RevisionLine;
    var line, rest, last := Cases(t);
    var after := if last then "" else "\n" + rest;
    assert t == line + after;
    var s, r := SetStatus(blank, t, status).value, SetRevision(t, revision).value;
    if ValueEnd(blank, line).Some? {
      StatusIsNotRevision(blank, line);
      SetRevisionLater(line, rest, revision);
      SetStatusHere(blank, line, after, status);
      EditedIsStatus(blank, line, status);
      var e := Edited(blank, line, status);
      SetRevisionLater(e, rest, revision);
      var u := SetRevision(rest, revision).value;
      assert s == e + "\n" + rest && r == line + "\n" + u;
      assert r == line + ("\n" + u);
      SetStatusHere(blank, line, "\n" + u, status);
      assert e + "\n" + u == e + ("\n" + u);
    } else if StartsWith(line, REVISION) {
      SetStatusLater(blank, line, rest, status);
      RevisionHereIs(line, after, revision);
      var e := RevisionLine(revision);
      RevisionLineOk(blank, revision);
      SetStatusLater(blank, e, rest, status);
      var u := SetStatus(blank, rest, status).value;
      assert r == e + after && r == e + "\n" + rest;
      assert s == line + "\n" + u && s == line + ("\n" + u);
      RevisionHereIs(line, "\n" + u, revision);
      assert e + "\n" + u == e + ("\n" + u);
    } else {
      SetStatusLater(blank, line, rest, status);
      SetRevisionLater(line, rest, revision);
      var u, w := SetStatus(blank, rest, status).value, SetRevision(rest, revision).value;
      EditsCommute(blank, rest, status, revision);
      SetRevisionLater(line, u, revision);
      SetStatusLater(blank, line, w, status);
    }
  }

  lemma RevisionHereIs(line: string, rest: string, revision: int)
    requires '\n' !in line && (rest == "" || rest[0] == '\n') && StartsWith(line, REVISION)
    ensures SetRevision(line + rest, revision) == Some(RevisionLine(revision) + rest)
  {
    SetRevisionHere(line, rest, revision);
  }

  // ----- the revision edit -----

  /** Whole lines, none of which begins with the key. */
  ghost predicate NoRevisionLine(t: string)
    decreases |t|
  {
    t == "" || (Eol(t) < |t| && !StartsWith(t[..Eol(t)], "revision:") && NoRevisionLine(t[Eol(t) + 1..]))
  }

  /** Of a text that holds the lines `a`, the first revision line and `b`, the edit leaves `a` and `b`
  alone. */
  ghost predicate RevisionReplaced(t: string, revision: int, r: string, a: string, line: string, b: string) {
    && t == a + line + b && r == a + "revision: " + IntText(revision) + b
    && NoRevisionLine(a)
    && StartsWith(line, "revision:") && '\n' !in line && (b == "" || b[0] == '\n')
  }

  lemma RevisionReplacedHere(line: string, after: string, revision: int)
    requires '\n' !in line && (after == "" || after[0] == '\n') && StartsWith(line, REVISION)
    ensures RevisionReplaced(line + after, revision, RevisionLine(revision) + after, "", line, after)
  {
    hide IntText;
    assert "" + line + after == line + after;
    assert REVISION + " " == "revision: ";
    assert "" + "revision: " + IntText(revision) + after == RevisionLine(revision) + after;
  }

  lemma RevisionPrefixed(line: string, t: string, revision: int, r: string, a: string, found: string, b: string)
    requires '\n' !in line && !StartsWith(line, REVISION)
    requires RevisionReplaced(t, revision, r, a, found, b)
    ensures RevisionReplaced(line + "\n" + t, revision, line + "\n" + r, line + "\n" + a, found, b)
  {
    hide IntText;
    var x := line + "\n";
    assert x + a == line + ("\n" + a);
    EolOf(line, "\n" + a);
    assert (x + a)[..|line|] == line && (x + a)[|line| + 1..] == a;
    assert x + (a + found + b) == x + a + found + b;
    assert x + (a + "revision: " + IntText(revision) + b) == x + a + "revision: " + IntText(revision) + b;
  }

  /** The revision edit replaces the first revision line and loses nothing else. */
  lemma {:induction false} OnlyTheRevisionChanges(t: string, revision: int)
    requires SetRevision(t, revision).Some?
    ensures exists a, line, b ::
              RevisionReplaced(t, revision, SetRevision(t, revision).value, a, line, b)
    decreases |t|
  {
    hide SetRevision, RevisionReplaced, RevisionLine;
    var line, rest, last := Cases(t);
    if StartsWith(line, REVISION) {
      var after := if last then "" else "\n" + rest;
      assert t == line + after;
      RevisionHereIs(line, after, revision);
      RevisionReplacedHere(line, after, revision);
    } else {
      SetRevisionLater(line, rest, revision);
      OnlyTheRevisionChanges(rest, revision);
      var r := SetRevision(rest, revision).value;
      var a, found, b :| RevisionReplaced(rest, revision, r, a, found, b);
      RevisionPrefixed(line, rest, revision, r, a, found, b);
    }
  }

  /** After the edit the revision reads back as written, and the status reads as it did. */
  lemma {:induction false} RevisionReadsBack(blank: Blank, t: string, revision: int)
    requires SetRevision(t, revision).Some?
    ensures ReadRevision(SetRevision(t, revision).value) == Some(" " + IntText(revision))
    ensures ReadStatus(blank, SetRevision(t, revision).value) == ReadStatus(blank, t)
    decreases |t|
  {
    hide SetRevision, ValueEnd, ReadStatus, ReadRevision, RevisionLine, IntText, TrimLeft, TrimRight;
    var line, rest, last := Cases(t);
    var after := if last then "" else "\n" + rest;
    assert t == line + after;
    if StartsWith(line, REVISION) {
      RevisionHereIs(line, after, revision);
      var e := RevisionLine(revision);
      RevisionLineOk(blank, revision);
      ReadRevisionHere(e, after);
      AfterKey(revision);
      NotAStatusLine(blank, line);
      SkipLine(blank, line, rest, last);
      SkipLine(blank, e, rest, last);
    } else {
      SetRevisionLater(line, rest, revision);
      RevisionReadsBack(blank, rest, revision);
      var u := SetRevision(rest, revision).value;
      ReadRevisionLater(line, u);
      if ValueEnd(blank, line).Some? {
        ReadStatusHere(blank, line, "\n" + rest);
        ReadStatusHere(blank, line, "\n" + u);
        assert t == line + ("\n" + rest) && line + "\n" + u == line + ("\n" + u);
      } else {
        ReadStatusLater(blank, line, rest);
        ReadStatusLater(blank, line, u);
      }
    }
  }

  lemma AfterKey(revision: int)
    ensures |RevisionLine(revision)| >= |REVISION|
    ensures RevisionLine(revision)[|REVISION|..] == " " + IntText(revision)
  {
    hide IntText;
  }

  lemma NotAStatusLine(blank: Blank, line: string)
    requires StartsWith(line, REVISION)
    ensures ValueEnd(blank, line).None?
  {
    Keys(line);
  }

  /** Reading on past a line without a status. */
  lemma SkipLine(blank: Blank, line: string, rest: string, last: bool)
    requires '\n' !in line && ValueEnd(blank, line).None?
    ensures ReadStatus(blank, line + if last then "" else "\n" + rest)
            == if last then None else ReadStatus(blank, rest)
  {
    hide ValueEnd, StatusMatch;
    if last {
      assert line + "" == line;
      MatchByLine(blank, line, "");
      EolOf(line, "");
    } else {
      assert line + "\n" + rest == line + ("\n" + rest);
      ReadStatusLater(blank, line, rest);
    }
  }

  // ----- when there is nothing to edit -----

  /** No line of the text, the last included, matches the status pattern. */
  ghost predicate StatusAbsent(blank: Blank, t: string)
    decreases |t|
  {
    ValueEnd(blank, t[..Eol(t)]).None? && (Eol(t) < |t| ==> StatusAbsent(blank, t[Eol(t) + 1..]))
  }

  ghost predicate RevisionAbsent(t: string)
    decreases |t|
  {
    !StartsWith(t[..Eol(t)], "revision:") && (Eol(t) < |t| ==> RevisionAbsent(t[Eol(t) + 1..]))
  }

  /** An edit is refused exactly when there is no line for it. */
  lemma {:induction false} EditRefusedIff(blank: Blank, t: string, status: string, revision: int)
    ensures SetStatus(blank, t, status) == None <==> StatusAbsent(blank, t)
    ensures SetRevision(t, revision) == None <==> RevisionAbsent(t)
    decreases |t|
  {
    hide SetStatus, SetRevision, ValueEnd, Edited, IntText;
    SplitFirst(t);
    var n := Eol(t);
    var line := t[..n];
    assert line + t[n..] == t;
    if ValueEnd(blank, line).Some? {
      SetStatusHere(blank, line, t[n..], status);
    }
    if StartsWith(line, REVISION) {
      SetRevisionHere(line, t[n..], revision);
    }
    if n < |t| {
      var rest := t[n + 1..];
      assert t == line + "\n" + rest;
      EditRefusedIff(blank, rest, status, revision);
      if ValueEnd(blank, line).None? { SetStatusLater(blank, line, rest, status); }
      if !StartsWith(line, REVISION) { SetRevisionLater(line, rest, revision); }
    } else {
      assert t == line;
      if ValueEnd(blank, line).None? { SetStatusLater(blank, line, "", status); }
      if !StartsWith(line, REVISION) { SetRevisionLater(line, "", revision); }
    }
  }
}
