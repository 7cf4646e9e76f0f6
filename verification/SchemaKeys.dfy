/** The walk's verdicts in terms of the values and keys themselves: which values a scalar accepts, and which
keys of a mapping are unknown, missing or bad. */
module SchemaKeys {
  import opened Values
  import opened Sequences
  import opened Schema
  import opened SchemaLocations

  // ----- scalars -----

  ghost predicate IsBool(v: Value) { exists b :: v == Bool(b) }
  ghost predicate IsInt(v: Value) { exists i :: v == Int(i) }
  ghost predicate IsStr(v: Value) { exists s :: v == Str(s) }

  /** A boolean is not an integer here, whatever Python's type hierarchy says. */
  lemma TypeTold(v: Value, ty: PyType, path: Path)
    ensures var errors := WalkErrors(v, Scalar(ty, false, None), path);
            && (ty == BoolType ==> (errors == [] <==> IsBool(v)))
            && (ty == IntType ==> (errors == [] <==> IsInt(v)))
            && (ty == StrType ==> (errors == [] <==> IsStr(v)))
            && (v == Null ==> errors == [Error(path, NullNotAllowed)])
            && (v != Null && errors != [] ==> errors == [Error(path, WrongType)])
  {
  }

  lemma OneTypeOnly(v: Value, a: PyType, b: PyType, path: Path)
    requires a != b
    ensures WalkErrors(v, Scalar(a, false, None), path) != []
            || WalkErrors(v, Scalar(b, false, None), path) != []
  {
    TypeTold(v, a, path);
    TypeTold(v, b, path);
    hide WalkErrors;
  }

  /** Null is accepted exactly where it may be, whatever the type and the enum. */
  lemma NullTold(ty: PyType, nullable: bool, enum: Option<seq<string>>, path: Path)
    ensures WalkErrors(Null, Scalar(ty, nullable, enum), path)
            == if nullable then [] else [Error(path, NullNotAllowed)]
  {
  }

  /** An enum adds one complaint to values of the right type, and only to those it does not list. */
  lemma EnumTold(v: Value, ty: PyType, nullable: bool, enum: seq<string>, path: Path)
    requires v != Null
    ensures var plain := WalkErrors(v, Scalar(ty, false, None), path);
            WalkErrors(v, Scalar(ty, nullable, Some(enum)), path)
            == if plain != [] then plain
               else if exists s :: v == Str(s) && s in enum then []
               else [Error(path, NotInEnum)]
  {
  }

  // ----- keys -----

  ghost predicate Occurs(ms: seq<Member>, key: Key) {
    exists m :: m in ms && m.key == key
  }

  lemma OccursIsHas(ms: seq<Member>, key: Key)
    ensures Occurs(ms, key) <==> HasKey(ms, key)
  {
    if HasKey(ms, key) {
      var i :| 0 <= i < |ms| && ms[i].key == key;
      assert ms[i] in ms;
    }
  }

  /** Nothing below a key is reported at the key itself as unknown or missing. */
  lemma OnlyHere(value: Value, spec: Spec, kind: Kind)
    requires kind == UnknownKey || kind == MissingKey
    ensures !Breaks(value, spec, [], kind)
  {
  }

  lemma KeyBreaks(value: Value, fields: seq<Field>, key: Key, kind: Kind)
    requires kind == UnknownKey || kind == MissingKey
    ensures Breaks(value, MapOf(fields), [At(key)], kind) <==>
              BreaksHere(value, MapOf(fields), [At(key)], kind)
  {
    hide BreaksHere, Lookup;
    var rel := [At(key)];
    assert rel[1..] == [];
    if value.Map? && exists i :: 0 <= i < |fields| && BreaksField(value.members, fields[i], rel, kind) {
      var i :| 0 <= i < |fields| && BreaksField(value.members, fields[i], rel, kind);
      OnlyHere(Get(value.members, fields[i].name).value, fields[i].spec, kind);
      assert false;
    }
  }

  lemma ReportedIff(value: Value, spec: Spec, path: Path, step: Step, kind: Kind)
    requires SpecOk(spec)
    ensures Error(path + [step], kind) in WalkErrors(value, spec, path)
            <==> Breaks(value, spec, [step], kind)
  {
    hide Breaks, WalkErrors;
    WalkExact(value, spec, path, Error(path + [step], kind));
    assert (path + [step])[|path|..] == [step];
  }

  /** A key is reported as unknown exactly when it occurs and no field has it for its name; as missing
  exactly when it does not occur and a field that may not be left out has it. */
  lemma MapKeysTold(ms: seq<Member>, fields: seq<Field>, path: Path, key: Key)
    requires SpecOk(MapOf(fields))
    ensures Error(path + [At(key)], UnknownKey) in WalkErrors(Map(ms), MapOf(fields), path)
            <==> Occurs(ms, key) && !exists f :: f in fields && key == StrKey(f.name)
    ensures Error(path + [At(key)], MissingKey) in WalkErrors(Map(ms), MapOf(fields), path)
            <==> !Occurs(ms, key) && exists f :: f in fields && key == StrKey(f.name) && !f.optional
  {
    hide WalkErrors, Breaks;
    ReportedIff(Map(ms), MapOf(fields), path, At(key), UnknownKey);
    ReportedIff(Map(ms), MapOf(fields), path, At(key), MissingKey);
    KeyBreaks(Map(ms), fields, key, UnknownKey);
    KeyBreaks(Map(ms), fields, key, MissingKey);
    OccursIsHas(ms, key);
    FieldsNamed(fields, key);
  }

  lemma FieldsNamed(fields: seq<Field>, key: Key)
    ensures Declares(fields, key) <==> exists f :: f in fields && key == StrKey(f.name)
    ensures Requires(fields, key) <==> exists f :: f in fields && key == StrKey(f.name) && !f.optional
  {
    if Declares(fields, key) {
      var i :| 0 <= i < |fields| && fields[i].name == key.name;
      assert fields[i] in fields;
    }
    if Requires(fields, key) {
      var i :| 0 <= i < |fields| && fields[i].name == key.name && !fields[i].optional;
      assert fields[i] in fields;
    }
  }

  /** Of an open mapping, the keys reported are those that are not strings and the empty string, the
  required names that do not occur, and the places of values that are not strings. */
  lemma OpenKeysTold(ms: seq<Member>, required: seq<string>, path: Path, key: Key)
    requires SpecOk(OpenMap(required))
    ensures var errors := WalkErrors(Map(ms), OpenMap(required), path);
            && (Error(path, BadKey(key)) in errors
                <==> Occurs(ms, key) && (key == StrKey("") || !exists name :: key == StrKey(name)))
            && (Error(path + [At(key)], MissingKey) in errors
                <==> !Occurs(ms, key) && exists name :: name in required && key == StrKey(name))
            && (Error(path + [At(key)], NotAString) in errors
                <==> exists m :: m in ms && m.key == key && !IsStr(m.value))
  {
    hide WalkErrors;
    var spec := OpenMap(required);
    ReportedIff(Map(ms), spec, path, At(key), MissingKey);
    ReportedIff(Map(ms), spec, path, At(key), NotAString);
    WalkExact(Map(ms), spec, path, Error(path, BadKey(key)));
    assert path[|path|..] == [];
    OccursIsHas(ms, key);
    NonStrings(ms, key);
  }

  lemma NonStrings(ms: seq<Member>, key: Key)
    ensures HoldsNonString(ms, key) <==> exists m :: m in ms && m.key == key && !IsStr(m.value)
  {
    if HoldsNonString(ms, key) {
      var i :| 0 <= i < |ms| && ms[i].key == key && !ms[i].value.Str?;
      assert ms[i] in ms && !IsStr(ms[i].value);
    }
    forall m | m in ms ensures IsStr(m.value) <==> m.value.Str? {
      StrIs(m.value);
    }
  }

  lemma StrIs(v: Value)
    ensures IsStr(v) <==> v.Str?
  {
    if v.Str? { assert v == Str(v.s); }
  }
}
