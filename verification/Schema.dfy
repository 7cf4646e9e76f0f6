/** `schema.py`: the closed-schema walker and the scan for types JSON cannot hold.

Every walker appends to one `errors` list that is passed down the recursion. Locations are
sequences of steps rather than joined strings, so two of them never read alike by accident. */
module Schema {
  import opened Values
  import opened Sequences

  // ----- specs -----

  datatype PyType = StrType | IntType | BoolType

  /** An enum is listed in the order its set iterates in. */
  datatype Spec =
    | Scalar(ty: PyType, nullable: bool, enum: Option<seq<string>>)
    | ListOf(item: Spec)
    | MapOf(fields: seq<Field>)
    | OpenMap(required: seq<string>)

  /** A named field of a mapping; `optional` is the `OptionalKey` wrapper. */
  datatype Field = Field(name: string, spec: Spec, optional: bool)

  /** Field names and required keys come from a Python dict and a frozenset: no repeats. */
  ghost predicate SpecOk(spec: Spec) {
    match spec
    case Scalar(_, _, _) => true
    case ListOf(item) => SpecOk(item)
    case MapOf(fields) => DistinctNames(fields) && forall i :: 0 <= i < |fields| ==> FieldOk(fields[i])
    case OpenMap(required) => NoRepeats(required)
  }

  ghost predicate FieldOk(f: Field) { SpecOk(f.spec) }

  ghost predicate DistinctNames(fields: seq<Field>) {
    forall i, j :: 0 <= i < j < |fields| ==> fields[i].name != fields[j].name
  }

  predicate Declares(fields: seq<Field>, key: Key) {
    key.StrKey? && exists i :: 0 <= i < |fields| && fields[i].name == key.name
  }

  // ----- errors -----

  datatype Step = At(key: Key) | Nth(index: nat)

  type Path = seq<Step>

  datatype Kind =
    | NullNotAllowed
    | WrongType
    | NotInEnum
    | NotAList
    | NotAMapping
    | UnknownKey
    | MissingKey
    | BadKey(key: Key)
    | NotAString
    | Forbidden

  datatype Error = Error(path: Path, kind: Kind)

  /** The `errors` list every walker is handed. */
  class ErrorList {
    var entries: seq<Error>

    constructor ()
      ensures entries == []
    {
      entries := [];
    }

    method Append(path: Path, kind: Kind)
      modifies this
      ensures entries == old(entries) + [Error(path, kind)]
    {
      entries := entries + [Error(path, kind)];
    }
  }

  // ----- the walk, as a function: what is appended, in order -----

  function OfType(value: Value, ty: PyType): bool {
    match ty
    case BoolType => value.Bool?
    case IntType => value.Int?
    case StrType => value.Str?
  }

  /** The one thing wrong with a scalar, if anything is. */
  function ScalarErrors(value: Value, spec: Spec, path: Path): seq<Error>
    requires spec.Scalar?
  {
    if value.Null? then
      if spec.nullable then [] else [Error(path, NullNotAllowed)]
    else if !OfType(value, spec.ty) then [Error(path, WrongType)]
    else if spec.enum.Some? && !(value.Str? && value.s in spec.enum.value) then [Error(path, NotInEnum)]
    else []
  }

  function WalkErrors(value: Value, spec: Spec, path: Path): seq<Error>
    decreases spec, 2, 0
  {
    match spec
    case Scalar(_, _, _) => ScalarErrors(value, spec, path)
    case ListOf(item) =>
      if !value.List? then [Error(path, NotAList)] else ListErrors(value.items, item, path, 0)
    case MapOf(fields) =>
      if !value.Map? then [Error(path, NotAMapping)]
      else UnknownKeys(value.members, fields, path) + FieldsErrors(value.members, fields, path)
    case OpenMap(required) =>
      if !value.Map? then [Error(path, NotAMapping)]
      else MissingKeys(value.members, required, path) + OpenEntries(value.members, path)
  }

  function ListErrors(items: seq<Value>, item: Spec, path: Path, from: nat): seq<Error>
    requires from <= |items|
    decreases item, 3, |items| - from
  {
    if from == |items| then []
    else WalkErrors(items[from], item, path + [Nth(from)]) + ListErrors(items, item, path, from + 1)
  }

  function UnknownKeys(ms: seq<Member>, fields: seq<Field>, path: Path): seq<Error> {
    if |ms| == 0 then []
    else
      (if Declares(fields, ms[0].key) then [] else [Error(path + [At(ms[0].key)], UnknownKey)])
      + UnknownKeys(ms[1..], fields, path)
  }

  function FieldsErrors(ms: seq<Member>, fields: seq<Field>, path: Path): seq<Error>
    decreases fields, 0, 0
  {
    if |fields| == 0 then []
    else FieldErrors(ms, fields[0], path) + FieldsErrors(ms, fields[1..], path)
  }

  function FieldErrors(ms: seq<Member>, f: Field, path: Path): seq<Error>
    decreases f, 0, 0
  {
    var at := path + [At(StrKey(f.name))];
    match Get(ms, f.name)
    case Some(v) => WalkErrors(v, f.spec, at)
    case None => if f.optional then [] else [Error(at, MissingKey)]
  }

  function MissingKeys(ms: seq<Member>, required: seq<string>, path: Path): seq<Error> {
    if |required| == 0 then []
    else
      (if HasKey(ms, StrKey(required[0])) then []
       else [Error(path + [At(StrKey(required[0]))], MissingKey)])
      + MissingKeys(ms, required[1..], path)
  }

  /** The keys an open mapping may have. */
  predicate PlainKey(key: Key) {
    key.StrKey? && key.name != ""
  }

  function OpenEntry(m: Member, path: Path): seq<Error> {
    (if PlainKey(m.key) then [] else [Error(path, BadKey(m.key))])
    + if m.value.Str? then [] else [Error(path + [At(m.key)], NotAString)]
  }

  function OpenEntries(ms: seq<Member>, path: Path): seq<Error> {
    if |ms| == 0 then [] else OpenEntry(ms[0], path) + OpenEntries(ms[1..], path)
  }

  // ----- the walkers -----

  /** `_check_scalar`. */
  method CheckScalar(value: Value, spec: Spec, path: Path, errors: ErrorList)
    requires spec.Scalar?
    modifies errors
    ensures errors.entries == old(errors.entries) + ScalarErrors(value, spec, path)
  {
    if value.Null? {
      if !spec.nullable {
        errors.Append(path, NullNotAllowed);
      }
      return;
    }
    var ok := OfType(value, spec.ty);
    if !ok {
      errors.Append(path, WrongType);
      return;
    }
    if spec.enum.Some? && !(value.Str? && value.s in spec.enum.value) {
      errors.Append(path, NotInEnum);
    }
  }

  /** `_walk`. */
  method Walk(value: Value, spec: Spec, path: Path, errors: ErrorList)
    modifies errors
    ensures errors.entries == old(errors.entries) + WalkErrors(value, spec, path)
    decreases spec, 3
  {
    match spec
    case Scalar(_, _, _) => CheckScalar(value, spec, path, errors);
    case ListOf(item) => WalkList(value, item, path, errors);
    case MapOf(fields) => WalkMap(value, fields, path, errors);
    case OpenMap(required) => WalkOpenMap(value, required, path, errors);
  }

  /** `_walk_list`. */
  method WalkList(value: Value, item: Spec, path: Path, errors: ErrorList)
    modifies errors
    ensures errors.entries == old(errors.entries) + WalkErrors(value, ListOf(item), path)
    decreases item, 5
  {
    hide ListErrors;
    if !value.List? {
      errors.Append(path, NotAList);
      return;
    }
    WalkItems(value.items, item, path, errors);
  }

  method WalkItems(items: seq<Value>, item: Spec, path: Path, errors: ErrorList)
    modifies errors
    ensures errors.entries == old(errors.entries) + ListErrors(items, item, path, 0)
    decreases item, 4
  {
    hide WalkErrors;
    for i := 0 to |items|
      invariant errors.entries + ListErrors(items, item, path, i)
             == old(errors.entries) + ListErrors(items, item, path, 0)
    {
      Walk(items[i], item, path + [Nth(i)], errors);
    }
  }

  /** `_walk_map`: unknown keys first, then the declared fields in turn. */
  method WalkMap(value: Value, fields: seq<Field>, path: Path, errors: ErrorList)
    modifies errors
    ensures errors.entries == old(errors.entries) + WalkErrors(value, MapOf(fields), path)
    decreases fields, 2
  {
    hide UnknownKeys, FieldsErrors;
    if !value.Map? {
      errors.Append(path, NotAMapping);
      return;
    }
    ReportUnknownKeys(value.members, fields, path, errors);
    WalkFields(value.members, fields, path, errors);
  }

  method ReportUnknownKeys(ms: seq<Member>, fields: seq<Field>, path: Path, errors: ErrorList)
    modifies errors
    ensures errors.entries == old(errors.entries) + UnknownKeys(ms, fields, path)
  {
    hide Declares;
    for i := 0 to |ms|
      invariant errors.entries + UnknownKeys(ms[i..], fields, path)
             == old(errors.entries) + UnknownKeys(ms, fields, path)
    {
      assert ms[i..][0] == ms[i] && ms[i..][1..] == ms[i + 1..];
      if !Declares(fields, ms[i].key) {
        errors.Append(path + [At(ms[i].key)], UnknownKey);
      }
    }
    assert UnknownKeys(ms[|ms|..], fields, path) == [];
  }

  method WalkFields(ms: seq<Member>, fields: seq<Field>, path: Path, errors: ErrorList)
    modifies errors
    ensures errors.entries == old(errors.entries) + FieldsErrors(ms, fields, path)
    decreases fields, 1
  {
    hide Lookup, WalkErrors;
    for i := 0 to |fields|
      invariant errors.entries + FieldsErrors(ms, fields[i..], path)
             == old(errors.entries) + FieldsErrors(ms, fields, path)
    {
      var f := fields[i];
      assert fields[i..][0] == f && fields[i..][1..] == fields[i + 1..];
      var at := path + [At(StrKey(f.name))];
      var v := Get(ms, f.name);
      if v.Some? {
        WalkField(v.value, f, at, errors);
      } else if !f.optional {
        errors.Append(at, MissingKey);
      }
    }
    assert FieldsErrors(ms, fields[|fields|..], path) == [];
  }

  method WalkField(value: Value, f: Field, at: Path, errors: ErrorList)
    modifies errors
    ensures errors.entries == old(errors.entries) + WalkErrors(value, f.spec, at)
    decreases f, 0
  {
    Walk(value, f.spec, at, errors);
  }

  /** `_walk_open_map`: required keys first, then every entry. */
  method WalkOpenMap(value: Value, required: seq<string>, path: Path, errors: ErrorList)
    modifies errors
    ensures errors.entries == old(errors.entries) + WalkErrors(value, OpenMap(required), path)
  {
    hide MissingKeys, OpenEntries;
    if !value.Map? {
      errors.Append(path, NotAMapping);
      return;
    }
    ReportMissingKeys(value.members, required, path, errors);
    CheckOpenEntries(value.members, path, errors);
  }

  method ReportMissingKeys(ms: seq<Member>, required: seq<string>, path: Path, errors: ErrorList)
    modifies errors
    ensures errors.entries == old(errors.entries) + MissingKeys(ms, required, path)
  {
    hide HasKey;
    for i := 0 to |required|
      invariant errors.entries + MissingKeys(ms, required[i..], path)
             == old(errors.entries) + MissingKeys(ms, required, path)
    {
      assert required[i..][0] == required[i] && required[i..][1..] == required[i + 1..];
      if !HasKey(ms, StrKey(required[i])) {
        errors.Append(path + [At(StrKey(required[i]))], MissingKey);
      }
    }
    assert MissingKeys(ms, required[|required|..], path) == [];
  }

  method CheckOpenEntries(ms: seq<Member>, path: Path, errors: ErrorList)
    modifies errors
    ensures errors.entries == old(errors.entries) + OpenEntries(ms, path)
  {
    hide OpenEntry;
    for i := 0 to |ms|
      invariant errors.entries + OpenEntries(ms[i..], path)
             == old(errors.entries) + OpenEntries(ms, path)
    {
      assert ms[i..][0] == ms[i] && ms[i..][1..] == ms[i + 1..];
      CheckOpenEntry(ms[i], path, errors);
    }
    assert OpenEntries(ms[|ms|..], path) == [];
  }

  method CheckOpenEntry(m: Member, path: Path, errors: ErrorList)
    modifies errors
    ensures errors.entries == old(errors.entries) + OpenEntry(m, path)
  {
    if !PlainKey(m.key) {
      errors.Append(path, BadKey(m.key));
    }
    if !m.value.Str? {
      errors.Append(path + [At(m.key)], NotAString);
    }
  }

  // ----- conformance -----

  ghost predicate Conforms(value: Value, spec: Spec)
    decreases spec
  {
    match spec
    case Scalar(ty, nullable, enum) =>
      if value.Null? then nullable
      else OfType(value, ty) && (enum.None? || (value.Str? && value.s in enum.value))
    case ListOf(item) =>
      value.List? && forall i :: 0 <= i < |value.items| ==> Conforms(value.items[i], item)
    case MapOf(fields) =>
      && value.Map?
      && (forall i :: 0 <= i < |value.members| ==> Declares(fields, value.members[i].key))
      && (forall i :: 0 <= i < |fields| ==> FieldConforms(value.members, fields[i]))
    case OpenMap(required) =>
      && value.Map?
      && (forall i :: 0 <= i < |required| ==> HasKey(value.members, StrKey(required[i])))
      && (forall i :: 0 <= i < |value.members| ==> OpenMember(value.members[i]))
  }

  ghost predicate FieldConforms(ms: seq<Member>, f: Field)
    decreases f
  {
    match Get(ms, f.name)
    case Some(v) => Conforms(v, f.spec)
    case None => f.optional
  }

  ghost predicate OpenMember(m: Member) {
    PlainKey(m.key) && m.value.Str?
  }

  /** The walk appends nothing exactly when the value conforms. */
  lemma {:induction false} SilentIffConforms(value: Value, spec: Spec, path: Path)
    ensures WalkErrors(value, spec, path) == [] <==> Conforms(value, spec)
    decreases spec, 1
  {
    match spec
    case Scalar(_, _, _) =>
    case ListOf(item) =>
      if value.List? { ListSilent(value.items, item, path, 0); }
    case MapOf(fields) =>
      if value.Map? {
        KeysSilent(value.members, fields, path);
        FieldsSilent(value.members, fields, path);
      }
    case OpenMap(required) =>
      if value.Map? {
        RequiredSilent(value.members, required, path);
        EntriesSilent(value.members, path);
      }
  }

  lemma {:induction false} ListSilent(items: seq<Value>, item: Spec, path: Path, from: nat)
    requires from <= |items|
    ensures ListErrors(items, item, path, from) == [] <==>
              forall i :: from <= i < |items| ==> Conforms(items[i], item)
    decreases item, 2, |items| - from
  {
    if from < |items| {
      SilentIffConforms(items[from], item, path + [Nth(from)]);
      ListSilent(items, item, path, from + 1);
    }
  }

  lemma {:induction false} KeysSilent(ms: seq<Member>, fields: seq<Field>, path: Path)
    ensures UnknownKeys(ms, fields, path) == [] <==>
              forall i :: 0 <= i < |ms| ==> Declares(fields, ms[i].key)
  {
    hide Declares;
    if |ms| > 0 {
      KeysSilent(ms[1..], fields, path);
      assert forall i :: 0 < i < |ms| ==> ms[i] == ms[1..][i - 1];
    }
  }

  lemma {:induction false} FieldsSilent(ms: seq<Member>, fields: seq<Field>, path: Path)
    ensures FieldsErrors(ms, fields, path) == [] <==>
              forall i :: 0 <= i < |fields| ==> FieldConforms(ms, fields[i])
    decreases fields, 0
  {
    if |fields| > 0 {
      FieldSilent(ms, fields[0], path);
      FieldsSilent(ms, fields[1..], path);
      assert forall i :: 0 < i < |fields| ==> fields[i] == fields[1..][i - 1];
    }
  }

  lemma {:induction false} FieldSilent(ms: seq<Member>, f: Field, path: Path)
    ensures FieldErrors(ms, f, path) == [] <==> FieldConforms(ms, f)
    decreases f, 0
  {
    match Get(ms, f.name)
    case Some(v) => SilentIffConforms(v, f.spec, path + [At(StrKey(f.name))]);
    case None =>
  }

  lemma {:induction false} RequiredSilent(ms: seq<Member>, required: seq<string>, path: Path)
    ensures MissingKeys(ms, required, path) == [] <==>
              forall i :: 0 <= i < |required| ==> HasKey(ms, StrKey(required[i]))
  {
    hide HasKey;
    if |required| > 0 {
      RequiredSilent(ms, required[1..], path);
      assert forall i :: 0 < i < |required| ==> required[i] == required[1..][i - 1];
    }
  }

  lemma {:induction false} EntriesSilent(ms: seq<Member>, path: Path)
    ensures OpenEntries(ms, path) == [] <==> forall i :: 0 <= i < |ms| ==> OpenMember(ms[i])
  {
    if |ms| > 0 {
      EntriesSilent(ms[1..], path);
      assert forall i :: 0 < i < |ms| ==> ms[i] == ms[1..][i - 1];
    }
  }
}
