/** Where the scan for forbidden types objects, and where it does not look. */
module TypeScanLocations {
  import opened Values
  import opened Schema
  import opened SchemaLocations
  import opened TypeScan

  ghost predicate ForbiddenType(v: Value) {
    v == Date || (exists b :: v == Float(b)) || (exists b :: v == Bytes(b)) || exists tag :: v == Foreign(tag)
  }

  /** A key that may not be looked under. */
  ghost predicate BadName(key: Key) {
    key == StrKey("") || !exists name :: key == StrKey(name)
  }

  /** The value at the place `rel` leads to is of a forbidden type, or is a mapping with this bad key. No bad
  key lies on the way. */
  ghost predicate Offends(value: Value, rel: Path, kind: Kind)
    decreases value
  {
    if rel == [] then
      || (kind == Forbidden && ForbiddenType(value))
      || (value.Map? && exists i :: 0 <= i < |value.members| && OffendsKey(value.members[i], kind))
    else
      match value
      case List(items) =>
        rel[0].Nth? && rel[0].index < |items| && Offends(items[rel[0].index], rel[1..], kind)
      case Map(ms) =>
        exists i :: 0 <= i < |ms| && OffendsUnder(ms[i], rel, kind)
      case _ => false
  }

  ghost predicate OffendsKey(m: Member, kind: Kind) {
    BadName(m.key) && kind == BadKey(m.key)
  }

  ghost predicate OffendsUnder(m: Member, rel: Path, kind: Kind)
    requires rel != []
    decreases m
  {
    rel[0] == Step.At(m.key) && !BadName(m.key) && Offends(m.value, rel[1..], kind)
  }

  lemma BadNameIff(key: Key)
    ensures BadName(key) <==> !PlainKey(key)
  {
    if key.StrKey? { assert key == StrKey(key.name); }
  }

  /** An error is reported exactly when its place offends in the way it says. */
  lemma {:induction false} ScanExact(value: Value, path: Path, e: Error)
    ensures e in ScanErrors(value, path) <==>
              path <= e.path && Offends(value, e.path[|path|..], e.kind)
    decreases value
  {
    hide OffendsKey, OffendsUnder;
    match value
    case List(items) =>
      ItemsExact(items, path, 0, e);
      if path <= e.path { Relative(path, e); }
    case Map(ms) =>
      MembersExact(ms, path, e);
      if path <= e.path { Relative(path, e); }
    case _ => AtItself(path, e);
  }

  lemma Relative(path: Path, e: Error)
    requires path <= e.path
    ensures e.path[|path|..] == [] <==> e.path == path
    ensures e.path[|path|..] != [] ==> |e.path| > |path| && e.path[|path|..][0] == e.path[|path|]
  {
    AtItself(path, e);
  }

  lemma {:induction false} ItemsExact(items: seq<Value>, path: Path, index: nat, e: Error)
    ensures e in ScanItems(items, path, index) <==>
              && path <= e.path && |e.path| > |path| && e.path[|path|].Nth?
              && index <= e.path[|path|].index < index + |items|
              && Offends(items[e.path[|path|].index - index], e.path[|path|..][1..], e.kind)
    decreases items
  {
    hide Offends;
    if |items| > 0 {
      ScanExact(items[0], path + [Nth(index)], e);
      UnderStep(path, Nth(index), e);
      ItemsExact(items[1..], path, index + 1, e);
    }
  }

  /** One member accounts for `e`. */
  ghost predicate MemberReports(m: Member, path: Path, e: Error) {
    || (e.path == path && OffendsKey(m, e.kind))
    || (path <= e.path && |e.path| > |path| && OffendsUnder(m, e.path[|path|..], e.kind))
  }

  lemma {:induction false} MembersExact(ms: seq<Member>, path: Path, e: Error)
    ensures e in ScanMembers(ms, path) <==> exists i :: 0 <= i < |ms| && MemberReports(ms[i], path, e)
    decreases ms
  {
    hide MemberReports;
    if |ms| > 0 {
      MemberExact(ms[0], path, e);
      MembersExact(ms[1..], path, e);
      assert forall i :: 0 < i < |ms| ==> ms[i] == ms[1..][i - 1];
      if exists i :: 0 <= i < |ms[1..]| && MemberReports(ms[1..][i], path, e) {
        var i :| 0 <= i < |ms[1..]| && MemberReports(ms[1..][i], path, e);
        assert MemberReports(ms[i + 1], path, e);
      }
    }
  }

  lemma {:induction false} MemberExact(m: Member, path: Path, e: Error)
    ensures e in ScanMember(m, path) <==> MemberReports(m, path, e)
    decreases m
  {
    hide Offends, BadName;
    BadNameIff(m.key);
    UnderStep(path, Step.At(m.key), e);
    if PlainKey(m.key) {
      ScanExact(m.value, path + [Step.At(m.key)], e);
    }
    if path <= e.path { Relative(path, e); }
  }
}
