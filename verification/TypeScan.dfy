/** `_scan_forbidden_types`: the allowlist that keeps the hasher from raising. */
module TypeScan {
  import opened Values
  import opened Schema
  import opened Canonical

  function ScanErrors(value: Value, path: Path): seq<Error> {
    match value
    case List(items) => ScanItems(items, path, 0)
    case Map(ms) => ScanMembers(ms, path)
    case Float(_) => [Error(path, Forbidden)]
    case Date => [Error(path, Forbidden)]
    case Bytes(_) => [Error(path, Forbidden)]
    case Foreign(_) => [Error(path, Forbidden)]
    case _ => []
  }

  function ScanItems(items: seq<Value>, path: Path, index: nat): seq<Error> {
    if |items| == 0 then []
    else ScanErrors(items[0], path + [Nth(index)]) + ScanItems(items[1..], path, index + 1)
  }

  function ScanMembers(ms: seq<Member>, path: Path): seq<Error> {
    if |ms| == 0 then [] else ScanMember(ms[0], path) + ScanMembers(ms[1..], path)
  }

  function ScanMember(m: Member, path: Path): seq<Error> {
    if !PlainKey(m.key) then [Error(path, BadKey(m.key))] else ScanErrors(m.value, path + [At(m.key)])
  }

  method ScanForbiddenTypes(value: Value, path: Path, errors: ErrorList)
    modifies errors
    ensures errors.entries == old(errors.entries) + ScanErrors(value, path)
    decreases value, 2
  {
    hide ScanItems, ScanMembers;
    match value
    case List(items) => ScanForbiddenItems(items, path, errors);
    case Map(ms) => ScanForbiddenMembers(ms, path, errors);
    case Float(_) => errors.Append(path, Forbidden);
    case Date => errors.Append(path, Forbidden);
    case Bytes(_) => errors.Append(path, Forbidden);
    case Foreign(_) => errors.Append(path, Forbidden);
    case _ =>
  }

  method ScanForbiddenItems(items: seq<Value>, path: Path, errors: ErrorList)
    modifies errors
    ensures errors.entries == old(errors.entries) + ScanItems(items, path, 0)
    decreases items, 1
  {
    hide ScanErrors;
    for i := 0 to |items|
      invariant errors.entries + ScanItems(items[i..], path, i)
             == old(errors.entries) + ScanItems(items, path, 0)
    {
      assert items[i..][0] == items[i] && items[i..][1..] == items[i + 1..];
      ScanForbiddenTypes(items[i], path + [Nth(i)], errors);
    }
    assert ScanItems(items[|items|..], path, |items|) == [];
  }

  method ScanForbiddenMembers(ms: seq<Member>, path: Path, errors: ErrorList)
    modifies errors
    ensures errors.entries == old(errors.entries) + ScanMembers(ms, path)
    decreases ms, 1
  {
    hide ScanMember;
    for i := 0 to |ms|
      invariant errors.entries + ScanMembers(ms[i..], path)
             == old(errors.entries) + ScanMembers(ms, path)
    {
      assert ms[i..][0] == ms[i] && ms[i..][1..] == ms[i + 1..];
      ScanForbiddenMember(ms[i], path, errors);
    }
    assert ScanMembers(ms[|ms|..], path) == [];
  }

  method ScanForbiddenMember(m: Member, path: Path, errors: ErrorList)
    modifies errors
    ensures errors.entries == old(errors.entries) + ScanMember(m, path)
    decreases m, 0
  {
    if !PlainKey(m.key) {
      errors.Append(path, BadKey(m.key));
    } else {
      ScanForbiddenTypes(m.value, path + [At(m.key)], errors);
    }
  }

  /** No mapping anywhere in the tree has an empty key. */
  ghost predicate NoEmptyKeys(v: Value) {
    match v
    case List(items) => forall i :: 0 <= i < |items| ==> NoEmptyKeys(items[i])
    case Map(ms) => forall i :: 0 <= i < |ms| ==> NoEmptyKey(ms[i])
    case _ => true
  }

  ghost predicate NoEmptyKey(m: Member) {
    m.key != StrKey("") && NoEmptyKeys(m.value)
  }

  /** The scan is silent exactly on trees JSON can hold whose keys are all non-empty. */
  lemma {:induction false} ScanSilent(value: Value, path: Path)
    ensures ScanErrors(value, path) == [] <==> Printable(value) && NoEmptyKeys(value)
    decreases value
  {
    match value
    case List(items) => ItemsSilent(items, path, 0);
    case Map(ms) => MembersSilent(ms, path);
    case _ =>
  }

  lemma {:induction false} ItemsSilent(items: seq<Value>, path: Path, index: nat)
    ensures ScanItems(items, path, index) == [] <==>
              forall i :: 0 <= i < |items| ==> Printable(items[i]) && NoEmptyKeys(items[i])
    decreases items
  {
    if |items| > 0 {
      ScanSilent(items[0], path + [Nth(index)]);
      ItemsSilent(items[1..], path, index + 1);
      assert forall i :: 0 < i < |items| ==> items[i] == items[1..][i - 1];
    }
  }

  lemma {:induction false} MembersSilent(ms: seq<Member>, path: Path)
    ensures ScanMembers(ms, path) == [] <==>
              forall i :: 0 <= i < |ms| ==> PrintableMember(ms[i]) && NoEmptyKey(ms[i])
    decreases ms
  {
    if |ms| > 0 {
      MemberSilent(ms[0], path);
      MembersSilent(ms[1..], path);
      assert forall i :: 0 < i < |ms| ==> ms[i] == ms[1..][i - 1];
    }
  }

  lemma {:induction false} MemberSilent(m: Member, path: Path)
    ensures ScanMember(m, path) == [] <==> PrintableMember(m) && NoEmptyKey(m)
    decreases m
  {
    if PlainKey(m.key) { ScanSilent(m.value, path + [At(m.key)]); }
  }

  /** A tree the scan passes always has canonical text, so a validated package has a hash. */
  lemma ScannedHasCanon(value: Value, path: Path)
    requires ScanErrors(value, path) == []
    ensures Canon(value).Some?
  {
    ScanSilent(value, path);
    CanonDefined(value);
  }

  /** The scan also refuses what the printer would accept, but only for an empty key. */
  lemma ScanStricterByEmptyKeys(value: Value, path: Path)
    requires Canon(value).Some?
    ensures ScanErrors(value, path) == [] <==> NoEmptyKeys(value)
  {
    ScanSilent(value, path);
    CanonDefined(value);
  }
}
