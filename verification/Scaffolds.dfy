/** `_stub_for`: a typed placeholder for any profile schema. */
module Scaffolds {
  import opened Values
  import opened Ordering
  import opened Schema

  const PROSE_PLACEHOLDER := "<edit: describe this field>"

  /** `_stub_for`; `None` where it raises `TypeError`. */
  function Stub(spec: Spec): Option<Value> {
    match spec
    case Scalar(ty, nullable, enum) =>
      Some(if nullable then Null
           else if enum.Some? && enum.value != [] then Str(SortBy(enum.value, CodePoints)[0])
           else match ty
             case BoolType => Bool(false)
             case IntType => Int(0)
             case StrType => Str(PROSE_PLACEHOLDER))
    case ListOf(item) =>
      var stub := Stub(item);
      if stub.None? then None else Some(List([stub.value]))
    case MapOf(fields) =>
      var ms := StubFields(fields);
      if ms.None? then None else Some(Map(ms.value))
    case OpenMap(_) => None
  }

  function StubFields(fields: seq<Field>): (r: Option<seq<Member>>)
    ensures r.Some? ==> |r.value| == |fields|
    ensures r.Some? ==> forall i :: 0 <= i < |fields| ==> r.value[i].key == StrKey(fields[i].name)
  {
    if |fields| == 0 then Some([])
    else
      var first, rest := StubField(fields[0]), StubFields(fields[1..]);
      if first.None? || rest.None? then None else Some([first.value] + rest.value)
  }

  function StubField(f: Field): (r: Option<Member>)
    ensures r.Some? ==> r.value.key == StrKey(f.name)
  {
    var stub := Stub(f.spec);
    if stub.None? then None else Some(Member(StrKey(f.name), stub.value))
  }

  /** No mapping with arbitrary keys anywhere. */
  ghost predicate Closed(spec: Spec) {
    match spec
    case Scalar(_, _, _) => true
    case ListOf(item) => Closed(item)
    case MapOf(fields) => forall i :: 0 <= i < |fields| ==> ClosedField(fields[i])
    case OpenMap(_) => false
  }

  ghost predicate ClosedField(f: Field) { Closed(f.spec) }

  /** Every scalar that may not be null and has an enum takes strings and has one to offer. */
  ghost predicate EnumsOffer(spec: Spec) {
    match spec
    case Scalar(ty, nullable, enum) => nullable || enum.None? || (ty.StrType? && enum.value != [])
    case ListOf(item) => EnumsOffer(item)
    case MapOf(fields) => forall i :: 0 <= i < |fields| ==> EnumsOfferField(fields[i])
    case OpenMap(_) => true
  }

  ghost predicate EnumsOfferField(f: Field) { EnumsOffer(f.spec) }

  lemma SortedFirstIsMember(xs: seq<string>)
    requires xs != []
    ensures SortBy(xs, CodePoints)[0] in xs
  {
    var first := SortBy(xs, CodePoints)[0];
    assert first in multiset(SortBy(xs, CodePoints));
    assert first in multiset(xs);
  }

  lemma {:induction false} StubDefined(spec: Spec)
    ensures Stub(spec).Some? <==> Closed(spec)
    decreases spec
  {
    match spec
    case MapOf(fields) => FieldsDefined(fields);
    case ListOf(item) => StubDefined(item);
    case _ =>
  }

  lemma {:induction false} FieldsDefined(fields: seq<Field>)
    ensures StubFields(fields).Some? <==> forall i :: 0 <= i < |fields| ==> ClosedField(fields[i])
    ensures StubFields(fields).Some? ==> forall i :: 0 <= i < |fields| ==>
              StubField(fields[i]) == Some(StubFields(fields).value[i])
    decreases fields
  {
    if |fields| > 0 {
      FieldDefined(fields[0]);
      FieldsDefined(fields[1..]);
      assert forall i :: 0 < i < |fields| ==> fields[i] == fields[1..][i - 1];
    }
  }

  lemma {:induction false} FieldDefined(f: Field)
    ensures StubField(f).Some? <==> ClosedField(f)
    decreases f
  {
    StubDefined(f.spec);
  }

  /** A stub walks clean exactly when every enum has something of its own type to offer. */
  lemma {:induction false} StubConformsIff(spec: Spec)
    requires SpecOk(spec) && Stub(spec).Some?
    ensures Conforms(Stub(spec).value, spec) <==> EnumsOffer(spec)
    decreases spec
  {
    match spec
    case Scalar(_, nullable, enum) =>
      if enum.Some? && enum.value != [] { SortedFirstIsMember(enum.value); }
    case ListOf(item) =>
      StubConformsIff(item);
      var stub := Stub(spec).value;
      assert Conforms(stub, spec) <==> Conforms(stub.items[0], item);
    case MapOf(fields) =>
      FieldsDefined(fields);
      var ms := StubFields(fields).value;
      assert DistinctKeys(ms);
      forall i | 0 <= i < |fields|
        ensures Declares(fields, ms[i].key)
        ensures FieldConforms(ms, fields[i]) <==> EnumsOfferField(fields[i])
      {
        LookupOf(ms, i);
        StubFieldConforms(fields[i], ms);
      }
    case OpenMap(_) =>
  }

  lemma {:induction false} StubFieldConforms(f: Field, ms: seq<Member>)
    requires FieldOk(f) && StubField(f).Some?
    requires Get(ms, f.name) == Some(StubField(f).value.value)
    ensures FieldConforms(ms, f) <==> EnumsOfferField(f)
    decreases f
  {
    StubConformsIff(f.spec);
  }

  /** The stub of a list holds one item, the stub of its items; that of a mapping has every declared field,
  optional ones too, in order, each with the stub of its own spec. */
  lemma StubShapes(item: Spec, fields: seq<Field>)
    ensures forall v :: Stub(ListOf(item)) == Some(v) <==> exists x :: v == List([x]) && Stub(item) == Some(x)
    ensures forall v :: Stub(MapOf(fields)) == Some(v) ==>
              exists ms: seq<Member> ::
                && v == Map(ms) && |ms| == |fields|
                && forall i :: 0 <= i < |fields| ==>
                     ms[i].key == StrKey(fields[i].name) && Stub(fields[i].spec) == Some(ms[i].value)
  {
    forall v | Stub(ListOf(item)) == Some(v)
      ensures exists x :: v == List([x]) && Stub(item) == Some(x)
    {
      var x := Stub(item).value;
      assert v == List([x]) && Stub(item) == Some(x);
    }
    if Stub(MapOf(fields)).Some? {
      FieldsDefined(fields);
      var ms := StubFields(fields).value;
      forall i | 0 <= i < |fields|
        ensures ms[i].key == StrKey(fields[i].name) && Stub(fields[i].spec) == Some(ms[i].value)
      {
        assert StubField(fields[i]) == Some(ms[i]);
      }
    }
  }

  /** The stub of a scalar: null where that is allowed, else the first of the enum in code-point order, else
  a value of the type, which for a string is not blank. */
  lemma StubScalarTold(ty: PyType, nullable: bool, enum: seq<string>)
    ensures Stub(Scalar(ty, true, Some(enum))) == Some(Null) && Stub(Scalar(ty, true, None)) == Some(Null)
    ensures enum != [] ==>
              exists s :: Stub(Scalar(ty, false, Some(enum))) == Some(Str(s)) && s in enum
                          && forall x :: x in enum ==> !CodePointLess(x, s)
    ensures Stub(Scalar(BoolType, false, None)) == Some(Bool(false))
    ensures Stub(Scalar(IntType, false, None)) == Some(Int(0))
    ensures exists s :: Stub(Scalar(StrType, false, None)) == Some(Str(s)) && s != ""
  {
    if enum != [] {
      var sorted := SortBy(enum, CodePoints);
      SortedFirstIsMember(enum);
      SortBySorted(enum, CodePoints);
      forall x | x in enum ensures !CodePointLess(x, sorted[0]) {
        assert x in multiset(sorted);
        LeastIsFirst(sorted, x, CodePoints);
        NotLess(CodePoints(sorted[0]), CodePoints(x));
      }
    }
    assert PROSE_PLACEHOLDER != "";
  }

  lemma NotLess(a: seq<int>, b: seq<int>)
    requires LexLeq(a, b)
    ensures !LexLess(b, a)
  {
    if a == b { LexIrreflexive(a); } else { LexAsymmetric(a, b); }
  }

  /** An enum of strings on an integer field: the stub is refused by the schema it was made for. */
  lemma StubOfMistypedEnum(path: Path)
    ensures var spec := Scalar(IntType, false, Some(["low"]));
            && Stub(spec) == Some(Str("low"))
            && WalkErrors(Stub(spec).value, spec, path) == [Error(path, WrongType)]
  {
    var offered := ["low"];
    assert SortBy(offered[1..], CodePoints) == [];
    assert SortBy(offered, CodePoints) == offered;
  }

  /** Walking a scaffold's stub against its own schema reports nothing. */
  lemma StubWalksClean(spec: Spec, path: Path)
    requires SpecOk(spec) && Closed(spec) && EnumsOffer(spec)
    ensures Stub(spec).Some? && WalkErrors(Stub(spec).value, spec, path) == []
  {
    StubDefined(spec);
    StubConformsIff(spec);
    SilentIffConforms(Stub(spec).value, spec, path);
  }
}
