/** Where a value breaks its schema: the walk reports each such place once and no other place. */
module SchemaLocations {
  import opened Values
  import opened Sequences
  import opened Schema

  /** What is wrong at a value itself, or at one key of it. */
  ghost predicate BreaksHere(value: Value, spec: Spec, rel: Path, kind: Kind) {
    match spec
    case Scalar(ty, nullable, enum) =>
      && rel == []
      && kind == (if value.Null? then NullNotAllowed
                  else if !OfType(value, ty) then WrongType
                  else NotInEnum)
      && !Conforms(value, spec)
    case ListOf(_) => rel == [] && kind == NotAList && !value.List?
    case MapOf(fields) =>
      if !value.Map? then rel == [] && kind == NotAMapping
      else
        && |rel| == 1 && rel[0].At?
        && var key := rel[0].key;
           || (kind == UnknownKey && HasKey(value.members, key) && !Declares(fields, key))
           || (kind == MissingKey && !HasKey(value.members, key) && Requires(fields, key))
    case OpenMap(required) =>
      if !value.Map? then rel == [] && kind == NotAMapping
      else
        || (rel == [] && kind.BadKey? && HasKey(value.members, kind.key) && !PlainKey(kind.key))
        || (|rel| == 1 && rel[0].At? && kind == MissingKey && rel[0].key.StrKey?
            && rel[0].key.name in required && !HasKey(value.members, rel[0].key))
        || (|rel| == 1 && rel[0].At? && kind == NotAString && HoldsNonString(value.members, rel[0].key))
  }

  ghost predicate Requires(fields: seq<Field>, key: Key) {
    key.StrKey? && exists i :: 0 <= i < |fields| && fields[i].name == key.name && !fields[i].optional
  }

  ghost predicate HoldsNonString(ms: seq<Member>, key: Key) {
    exists i :: 0 <= i < |ms| && ms[i].key == key && !ms[i].value.Str?
  }

  /** `value` breaks `spec` at the place `rel` leads to from it. */
  ghost predicate Breaks(value: Value, spec: Spec, rel: Path, kind: Kind)
    decreases spec
  {
    || BreaksHere(value, spec, rel, kind)
    || (|rel| > 0 && BreaksBelow(value, spec, rel, kind))
  }

  ghost predicate BreaksBelow(value: Value, spec: Spec, rel: Path, kind: Kind)
    requires |rel| > 0
    decreases spec, 0
  {
    match spec
    case ListOf(item) =>
      && value.List? && rel[0].Nth? && rel[0].index < |value.items|
      && Breaks(value.items[rel[0].index], item, rel[1..], kind)
    case MapOf(fields) =>
      value.Map? && exists i :: 0 <= i < |fields| && BreaksField(value.members, fields[i], rel, kind)
    case _ => false
  }

  ghost predicate BreaksField(ms: seq<Member>, f: Field, rel: Path, kind: Kind)
    requires |rel| > 0
    decreases f
  {
    && rel[0] == At(StrKey(f.name))
    && Get(ms, f.name).Some?
    && Breaks(Get(ms, f.name).value, f.spec, rel[1..], kind)
  }

  // ----- every reported place breaks, every breaking place is reported -----

  lemma {:induction false} WalkExact(value: Value, spec: Spec, path: Path, e: Error)
    requires SpecOk(spec)
    ensures e in WalkErrors(value, spec, path) <==>
              path <= e.path && Breaks(value, spec, e.path[|path|..], e.kind)
    decreases spec, 1
  {
    hide WalkErrors, Breaks, UnknownReports, FieldReports, MissingReports, EntryReports;
    match spec
    case Scalar(_, _, _) => FlatExact(value, spec, path, e);
    case ListOf(item) =>
      if value.List? {
        ListExact(value.items, item, path, 0, e);
        WholeListExact(value, item, path, e);
      } else {
        FlatExact(value, spec, path, e);
      }
    case MapOf(fields) =>
      if value.Map? {
        UnknownExact(value.members, fields, path, e);
        FieldsExact(value.members, fields, path, e);
        MapExact(value, fields, path, e);
      } else {
        FlatExact(value, spec, path, e);
      }
    case OpenMap(required) =>
      if value.Map? {
        MissingExact(value.members, required, path, e);
        OpenExact(value.members, path, e);
        OpenMapExact(value, required, path, e);
      } else {
        FlatExact(value, spec, path, e);
      }
  }

  /** A scalar, or a value of the wrong shape, is reported at its own place only. */
  lemma FlatExact(value: Value, spec: Spec, path: Path, e: Error)
    requires SpecOk(spec)
    requires spec.ListOf? ==> !value.List?
    requires spec.MapOf? || spec.OpenMap? ==> !value.Map?
    ensures e in WalkErrors(value, spec, path) <==>
              path <= e.path && Breaks(value, spec, e.path[|path|..], e.kind)
  {
    AtItself(path, e);
  }

  lemma WholeListExact(value: Value, item: Spec, path: Path, e: Error)
    requires value.List?
    requires e in ListErrors(value.items, item, path, 0) <==>
              && path <= e.path && |e.path| > |path|
              && e.path[|path|].Nth? && 0 <= e.path[|path|].index < |value.items|
              && Breaks(value.items[e.path[|path|].index], item, e.path[|path|..][1..], e.kind)
    ensures e in WalkErrors(value, ListOf(item), path) <==>
              path <= e.path && Breaks(value, ListOf(item), e.path[|path|..], e.kind)
  {
    hide ListErrors;
  }

  lemma AtItself(path: Path, e: Error)
    ensures e.path == path <==> path <= e.path && e.path[|path|..] == []
  {
    if path <= e.path && e.path[|path|..] == [] {
      assert |e.path| == |path|;
      assert e.path == e.path[..|path|];
    }
  }

  /** The place of `e` lies below `path`, and its first step from there is `step`. */
  ghost predicate Under(path: Path, step: Step, e: Error) {
    path <= e.path && |e.path| > |path| && e.path[|path|] == step
  }

  lemma UnderStep(path: Path, step: Step, e: Error)
    ensures path + [step] <= e.path <==> Under(path, step, e)
    ensures Under(path, step, e) ==> e.path[|path + [step]|..] == e.path[|path|..][1..]
  {
    var p := path + [step];
    if Under(path, step, e) {
      assert e.path[..|p|] == p;
    }
    if p <= e.path {
      assert e.path[|path|] == p[|path|];
    }
  }

  lemma {:induction false} ListExact(items: seq<Value>, item: Spec, path: Path, from: nat, e: Error)
    requires from <= |items| && SpecOk(item)
    ensures e in ListErrors(items, item, path, from) <==>
              && path <= e.path && |e.path| > |path|
              && e.path[|path|].Nth? && from <= e.path[|path|].index < |items|
              && Breaks(items[e.path[|path|].index], item, e.path[|path|..][1..], e.kind)
    decreases item, 2, |items| - from
  {
    if from < |items| {
      WalkExact(items[from], item, path + [Nth(from)], e);
      UnderStep(path, Nth(from), e);
      ListExact(items, item, path, from + 1, e);
    }
  }

  lemma {:induction false} UnknownExact(ms: seq<Member>, fields: seq<Field>, path: Path, e: Error)
    ensures e in UnknownKeys(ms, fields, path) <==> UnknownReports(ms, fields, path, e)
  {
    hide Declares;
    if |ms| > 0 {
      UnknownExact(ms[1..], fields, path, e);
      HasKeyCons(ms);
      OneStep(path, ms[0].key, e);
    }
  }

  lemma HasKeyCons(ms: seq<Member>)
    requires |ms| > 0
    ensures forall key :: HasKey(ms, key) <==> key == ms[0].key || HasKey(ms[1..], key)
  {
    forall key ensures HasKey(ms, key) <==> key == ms[0].key || HasKey(ms[1..], key) {
      assert forall i :: 0 < i < |ms| ==> ms[i] == ms[1..][i - 1];
      if HasKey(ms[1..], key) {
        var i :| 0 <= i < |ms| - 1 && ms[1..][i].key == key;
        assert ms[i + 1].key == key;
      }
    }
  }

  lemma OneStep(path: Path, key: Key, e: Error)
    ensures e.path == path + [At(key)] <==>
              path <= e.path && |e.path| == |path| + 1 && e.path[|path|] == At(key)
  {
  }

  lemma {:induction false} FieldsExact(ms: seq<Member>, fields: seq<Field>, path: Path, e: Error)
    requires forall i :: 0 <= i < |fields| ==> FieldOk(fields[i])
    ensures e in FieldsErrors(ms, fields, path) <==>
              exists i :: 0 <= i < |fields| && FieldReports(ms, fields[i], path, e)
    decreases fields, 0
  {
    hide FieldReports;
    if |fields| > 0 {
      assert FieldOk(fields[0]);
      FieldExact(ms, fields[0], path, e);
      assert forall i :: 0 < i < |fields| ==> fields[i] == fields[1..][i - 1];
      FieldsExact(ms, fields[1..], path, e);
      if e in FieldsErrors(ms, fields[1..], path) {
        var i :| 0 <= i < |fields| - 1 && FieldReports(ms, fields[1..][i], path, e);
        assert FieldReports(ms, fields[i + 1], path, e);
      }
      if exists i :: 0 < i < |fields| && FieldReports(ms, fields[i], path, e) {
        var i :| 0 < i < |fields| && FieldReports(ms, fields[i], path, e);
        assert FieldReports(ms, fields[1..][i - 1], path, e);
      }
    }
  }

  /** One field accounts for `e`: it is required and absent, or its value breaks there. */
  ghost predicate FieldReports(ms: seq<Member>, f: Field, path: Path, e: Error) {
    && Under(path, At(StrKey(f.name)), e)
    && (|| (|e.path| == |path| + 1 && e.kind == MissingKey && !HasKey(ms, StrKey(f.name)) && !f.optional)
        || BreaksField(ms, f, e.path[|path|..], e.kind))
  }

  lemma {:induction false} FieldExact(ms: seq<Member>, f: Field, path: Path, e: Error)
    requires FieldOk(f)
    ensures e in FieldErrors(ms, f, path) <==> FieldReports(ms, f, path, e)
    decreases f, 0
  {
    hide Breaks, WalkErrors;
    var step := At(StrKey(f.name));
    UnderStep(path, step, e);
    OneStep(path, StrKey(f.name), e);
    match Get(ms, f.name)
    case Some(v) => WalkExact(v, f.spec, path + [step], e);
    case None =>
  }

  /** `e` names a key the schema does not declare. */
  ghost predicate UnknownReports(ms: seq<Member>, fields: seq<Field>, path: Path, e: Error) {
    && path <= e.path && |e.path| == |path| + 1 && e.path[|path|].At?
    && e.kind == UnknownKey
    && HasKey(ms, e.path[|path|].key) && !Declares(fields, e.path[|path|].key)
  }

  lemma ReportedBreaks(value: Value, fields: seq<Field>, path: Path, e: Error)
    requires value.Map?
    requires || UnknownReports(value.members, fields, path, e)
             || exists i :: 0 <= i < |fields| && FieldReports(value.members, fields[i], path, e)
    ensures path <= e.path && Breaks(value, MapOf(fields), e.path[|path|..], e.kind)
  {
    hide Declares, BreaksField, HasKey, Lookup;
    var rel := e.path[|path|..];
    assert rel[0] == e.path[|path|];
    if !UnknownReports(value.members, fields, path, e) {
      var i :| 0 <= i < |fields| && FieldReports(value.members, fields[i], path, e);
      if !BreaksField(value.members, fields[i], rel, e.kind) {
        assert Requires(fields, rel[0].key);
        assert BreaksHere(value, MapOf(fields), rel, e.kind);
      } else {
        assert BreaksBelow(value, MapOf(fields), rel, e.kind);
      }
    }
  }

  lemma BreaksReported(value: Value, fields: seq<Field>, path: Path, e: Error)
    requires value.Map?
    requires path <= e.path && Breaks(value, MapOf(fields), e.path[|path|..], e.kind)
    ensures || UnknownReports(value.members, fields, path, e)
            || exists i :: 0 <= i < |fields| && FieldReports(value.members, fields[i], path, e)
  {
    hide Declares, HasKey, Lookup;
    var rel := e.path[|path|..];
    assert |rel| > 0 ==> rel[0] == e.path[|path|];
    if BreaksHere(value, MapOf(fields), rel, e.kind) {
      if e.kind == MissingKey {
        var i :| 0 <= i < |fields| && fields[i].name == rel[0].key.name && !fields[i].optional;
        assert FieldReports(value.members, fields[i], path, e);
      }
    } else {
      var i :| 0 <= i < |fields| && BreaksField(value.members, fields[i], rel, e.kind);
      assert FieldReports(value.members, fields[i], path, e);
    }
  }

  lemma MapExact(value: Value, fields: seq<Field>, path: Path, e: Error)
    requires value.Map?
    requires e in UnknownKeys(value.members, fields, path)
             <==> UnknownReports(value.members, fields, path, e)
    requires e in FieldsErrors(value.members, fields, path) <==>
              exists i :: 0 <= i < |fields| && FieldReports(value.members, fields[i], path, e)
    ensures e in WalkErrors(value, MapOf(fields), path) <==>
              path <= e.path && Breaks(value, MapOf(fields), e.path[|path|..], e.kind)
  {
    hide UnknownReports, FieldReports, Breaks, UnknownKeys, FieldsErrors;
    if e in WalkErrors(value, MapOf(fields), path) {
      ReportedBreaks(value, fields, path, e);
    }
    if path <= e.path && Breaks(value, MapOf(fields), e.path[|path|..], e.kind) {
      BreaksReported(value, fields, path, e);
    }
  }

  lemma {:induction false} MissingExact(ms: seq<Member>, required: seq<string>, path: Path, e: Error)
    ensures e in MissingKeys(ms, required, path) <==> MissingReports(ms, required, path, e)
  {
    hide HasKey;
    if |required| > 0 {
      MissingExact(ms, required[1..], path, e);
      OneStep(path, StrKey(required[0]), e);
      assert required == [required[0]] + required[1..];
    }
  }

  lemma {:induction false} OpenExact(ms: seq<Member>, path: Path, e: Error)
    ensures e in OpenEntries(ms, path) <==> EntryReports(ms, path, e)
  {
    if |ms| > 0 {
      OpenExact(ms[1..], path, e);
      HasKeyCons(ms);
      OneStep(path, ms[0].key, e);
      if path <= e.path && |e.path| == |path| + 1 && e.path[|path|].At? {
        NonStringCons(ms, e.path[|path|].key);
      }
    }
  }

  lemma NonStringCons(ms: seq<Member>, key: Key)
    requires |ms| > 0
    ensures HoldsNonString(ms, key) <==>
              (ms[0].key == key && !ms[0].value.Str?) || HoldsNonString(ms[1..], key)
  {
    assert forall i :: 0 < i < |ms| ==> ms[i] == ms[1..][i - 1];
    if HoldsNonString(ms[1..], key) {
      var i :| 0 <= i < |ms| - 1 && ms[1..][i].key == key && !ms[1..][i].value.Str?;
      assert ms[i + 1] == ms[1..][i];
    }
  }

  /** `e` names a required key that is absent. */
  ghost predicate MissingReports(ms: seq<Member>, required: seq<string>, path: Path, e: Error) {
    && path <= e.path && |e.path| == |path| + 1 && e.path[|path|].At?
    && e.kind == MissingKey
    && e.path[|path|].key.StrKey? && e.path[|path|].key.name in required
    && !HasKey(ms, e.path[|path|].key)
  }

  /** `e` names a bad key, or an entry that is not a string. */
  ghost predicate EntryReports(ms: seq<Member>, path: Path, e: Error) {
    || (&& e.path == path && e.kind.BadKey?
        && HasKey(ms, e.kind.key) && !PlainKey(e.kind.key))
    || (&& path <= e.path && |e.path| == |path| + 1 && e.path[|path|].At?
        && e.kind == NotAString && HoldsNonString(ms, e.path[|path|].key))
  }

  lemma OpenBreaks(value: Value, required: seq<string>, path: Path, e: Error)
    requires value.Map?
    ensures path <= e.path && Breaks(value, OpenMap(required), e.path[|path|..], e.kind) <==>
              MissingReports(value.members, required, path, e) || EntryReports(value.members, path, e)
  {
    hide HasKey, HoldsNonString, PlainKey;
    AtItself(path, e);
    if path <= e.path {
      var rel := e.path[|path|..];
      assert |rel| == |e.path| - |path|;
      if |rel| > 0 { assert rel[0] == e.path[|path|]; }
    }
  }

  lemma OpenMapExact(value: Value, required: seq<string>, path: Path, e: Error)
    requires value.Map?
    requires e in MissingKeys(value.members, required, path)
             <==> MissingReports(value.members, required, path, e)
    requires e in OpenEntries(value.members, path) <==> EntryReports(value.members, path, e)
    ensures e in WalkErrors(value, OpenMap(required), path) <==>
              path <= e.path && Breaks(value, OpenMap(required), e.path[|path|..], e.kind)
  {
    hide MissingReports, EntryReports, Breaks, MissingKeys, OpenEntries;
    OpenBreaks(value, required, path, e);
  }

  // ----- no place is reported twice -----

  lemma OnceConcat(a: seq<Error>, b: seq<Error>)
    requires NoRepeats(a) && NoRepeats(b) && forall e :: e in a ==> e !in b
    ensures NoRepeats(a + b)
  {
    forall i, j | 0 <= i < j < |a + b| ensures (a + b)[i] != (a + b)[j] {
      if i < |a| <= j {
        assert (a + b)[i] in a && (a + b)[j] in b;
      }
    }
  }

  lemma {:induction false} WalkOnce(value: Value, spec: Spec, path: Path)
    requires SpecOk(spec) && WellFormed(value)
    ensures NoRepeats(WalkErrors(value, spec, path))
    decreases spec, 1
  {
    match spec
    case Scalar(_, _, _) =>
    case ListOf(item) =>
      if value.List? { ListOnce(value.items, item, path, 0); }
    case MapOf(fields) =>
      if value.Map? {
        var ms := value.members;
        UnknownOnce(ms, fields, path);
        FieldsOnce(ms, fields, path);
        forall e | e in UnknownKeys(ms, fields, path) ensures e !in FieldsErrors(ms, fields, path) {
          UnknownExact(ms, fields, path, e);
          FieldsExact(ms, fields, path, e);
          DeclaredNames(ms, fields, path, e);
        }
        OnceConcat(UnknownKeys(ms, fields, path), FieldsErrors(ms, fields, path));
      }
    case OpenMap(required) =>
      if value.Map? {
        var ms := value.members;
        MissingOnce(ms, required, path);
        OpenOnce(ms, path);
        forall e | e in MissingKeys(ms, required, path) ensures e !in OpenEntries(ms, path) {
          MissingExact(ms, required, path, e);
          OpenExact(ms, path, e);
        }
        OnceConcat(MissingKeys(ms, required, path), OpenEntries(ms, path));
      }
  }

  lemma DeclaredNames(ms: seq<Member>, fields: seq<Field>, path: Path, e: Error)
    requires path <= e.path && |e.path| == |path| + 1 && e.path[|path|].At?
    requires !Declares(fields, e.path[|path|].key)
    ensures !exists i :: 0 <= i < |fields| && FieldReports(ms, fields[i], path, e)
  {
  }

  lemma {:induction false} ListOnce(items: seq<Value>, item: Spec, path: Path, from: nat)
    requires from <= |items| && SpecOk(item) && forall i :: 0 <= i < |items| ==> WellFormed(items[i])
    ensures NoRepeats(ListErrors(items, item, path, from))
    decreases item, 2, |items| - from
  {
    if from < |items| {
      var first := WalkErrors(items[from], item, path + [Nth(from)]);
      var rest := ListErrors(items, item, path, from + 1);
      WalkOnce(items[from], item, path + [Nth(from)]);
      ListOnce(items, item, path, from + 1);
      forall e | e in first ensures e !in rest {
        WalkExact(items[from], item, path + [Nth(from)], e);
        UnderStep(path, Nth(from), e);
        ListExact(items, item, path, from + 1, e);
      }
      OnceConcat(first, rest);
    }
  }

  lemma TailDistinct(ms: seq<Member>)
    requires |ms| > 0 && DistinctKeys(ms)
    ensures DistinctKeys(ms[1..]) && !HasKey(ms[1..], ms[0].key)
  {
    assert forall i :: 0 <= i < |ms| - 1 ==> ms[1..][i] == ms[i + 1];
  }

  lemma {:induction false} UnknownOnce(ms: seq<Member>, fields: seq<Field>, path: Path)
    requires DistinctKeys(ms)
    ensures NoRepeats(UnknownKeys(ms, fields, path))
  {
    if |ms| > 0 {
      TailDistinct(ms);
      UnknownOnce(ms[1..], fields, path);
      var first := if Declares(fields, ms[0].key) then [] else [Error(path + [At(ms[0].key)], UnknownKey)];
      forall e | e in first ensures e !in UnknownKeys(ms[1..], fields, path) {
        UnknownExact(ms[1..], fields, path, e);
      }
      OnceConcat(first, UnknownKeys(ms[1..], fields, path));
    }
  }

  lemma {:induction false} FieldsOnce(ms: seq<Member>, fields: seq<Field>, path: Path)
    requires DistinctNames(fields) && WellFormedMembers(ms)
    requires forall i :: 0 <= i < |fields| ==> FieldOk(fields[i])
    ensures NoRepeats(FieldsErrors(ms, fields, path))
    decreases fields, 0
  {
    if |fields| > 0 {
      var f, rest := fields[0], fields[1..];
      assert forall i :: 0 < i < |fields| ==> fields[i] == rest[i - 1];
      assert FieldOk(f);
      FieldOnce(ms, f, path);
      FieldsOnce(ms, rest, path);
      forall e | e in FieldErrors(ms, f, path) ensures e !in FieldsErrors(ms, rest, path) {
        FieldExact(ms, f, path, e);
        FieldsExact(ms, rest, path, e);
        OtherFields(ms, f, rest, path, e);
      }
      OnceConcat(FieldErrors(ms, f, path), FieldsErrors(ms, rest, path));
    }
  }

  lemma OtherFields(ms: seq<Member>, f: Field, rest: seq<Field>, path: Path, e: Error)
    requires FieldReports(ms, f, path, e)
    requires forall i :: 0 <= i < |rest| ==> rest[i].name != f.name
    ensures !exists i :: 0 <= i < |rest| && FieldReports(ms, rest[i], path, e)
  {
  }

  lemma {:induction false} FieldOnce(ms: seq<Member>, f: Field, path: Path)
    requires FieldOk(f) && WellFormedMembers(ms)
    ensures NoRepeats(FieldErrors(ms, f, path))
    decreases f, 0
  {
    match Get(ms, f.name)
    case Some(v) =>
      var i :| 0 <= i < |ms| && ms[i] == Member(StrKey(f.name), v);
      assert WellFormedMember(ms[i]);
      WalkOnce(v, f.spec, path + [At(StrKey(f.name))]);
    case None =>
  }

  lemma {:induction false} MissingOnce(ms: seq<Member>, required: seq<string>, path: Path)
    requires NoRepeats(required)
    ensures NoRepeats(MissingKeys(ms, required, path))
  {
    if |required| > 0 {
      assert forall i :: 0 < i < |required| ==> required[i] == required[1..][i - 1];
      MissingOnce(ms, required[1..], path);
      var first := if HasKey(ms, StrKey(required[0])) then []
                   else [Error(path + [At(StrKey(required[0]))], MissingKey)];
      forall e | e in first ensures e !in MissingKeys(ms, required[1..], path) {
        MissingExact(ms, required[1..], path, e);
      }
      OnceConcat(first, MissingKeys(ms, required[1..], path));
    }
  }

  lemma {:induction false} OpenOnce(ms: seq<Member>, path: Path)
    requires DistinctKeys(ms)
    ensures NoRepeats(OpenEntries(ms, path))
  {
    if |ms| > 0 {
      TailDistinct(ms);
      OpenOnce(ms[1..], path);
      forall e | e in OpenEntry(ms[0], path) ensures e !in OpenEntries(ms[1..], path) {
        OpenExact(ms[1..], path, e);
      }
      OnceConcat(OpenEntry(ms[0], path), OpenEntries(ms[1..], path));
    }
  }

  /** Every breaking place is reported, exactly once, and nothing else is. */
  lemma WalkReportsEachBreakOnce(value: Value, spec: Spec, path: Path, rel: Path, kind: Kind)
    requires SpecOk(spec) && WellFormed(value)
    ensures multiset(WalkErrors(value, spec, path))[Error(path + rel, kind)]
            == if Breaks(value, spec, rel, kind) then 1 else 0
    ensures forall e :: e in WalkErrors(value, spec, path) ==> path <= e.path
  {
    var e := Error(path + rel, kind);
    WalkExact(value, spec, path, e);
    assert (path + rel)[|path|..] == rel;
    WalkOnce(value, spec, path);
    OneOfEach(WalkErrors(value, spec, path));
    forall x | x in WalkErrors(value, spec, path) ensures path <= x.path {
      WalkExact(value, spec, path, x);
    }
  }
}
