/** The values a loaded package document is made of.

A YAML document loads into Python objects. `Value` is every object the code under
`src/intent_packages` tells apart; `Json` is what such an object means once the order in
which a mapping's members were written is forgotten. */
module Values {

  datatype Option<+T> = None | Some(value: T)

  /** A mapping key. YAML allows keys that are not strings; they carry only an identity. */
  datatype Key = StrKey(name: string) | OtherKey(id: int)

  datatype Member = Member(key: Key, value: Value)

  /** `Foreign` stands for every type the code names nowhere (a set, a tuple, ...). */
  datatype Value =
    | Null
    | Bool(b: bool)
    | Int(i: int)
    | Float(nonzero: bool)
    | Date
    | Bytes(nonempty: bool)
    | Foreign(tag: string)
    | Str(s: string)
    | List(items: seq<Value>)
    | Map(members: seq<Member>)

  /** The JSON value an object stands for: members form a finite map. */
  datatype Json =
    | JNull
    | JBool(b: bool)
    | JInt(i: int)
    | JStr(s: string)
    | JList(items: seq<Json>)
    | JObject(fields: map<string, Json>)
    | NotJson

  // ----- well-formedness: no mapping repeats a key -----

  ghost predicate DistinctKeys(ms: seq<Member>) {
    forall i, j :: 0 <= i < j < |ms| ==> ms[i].key != ms[j].key
  }

  /** What the strict loader guarantees of everything it returns (loader.py:12-30). */
  ghost predicate WellFormed(v: Value) {
    match v
    case List(items) => forall i :: 0 <= i < |items| ==> WellFormed(items[i])
    case Map(ms) => DistinctKeys(ms) && WellFormedMembers(ms)
    case _ => true
  }

  ghost predicate WellFormedMembers(ms: seq<Member>) {
    forall i :: 0 <= i < |ms| ==> WellFormedMember(ms[i])
  }

  ghost predicate WellFormedMember(m: Member) {
    WellFormed(m.value)
  }

  // ----- lookup -----

  predicate HasKey(ms: seq<Member>, key: Key) {
    exists i :: 0 <= i < |ms| && ms[i].key == key
  }

  /** `mapping.get(key)`, telling an absent key from a null value. */
  function Lookup(ms: seq<Member>, key: Key): (r: Option<Value>)
    ensures r.None? <==> !HasKey(ms, key)
    ensures r.Some? ==> exists i :: 0 <= i < |ms| && ms[i] == Member(key, r.value)
  {
    if |ms| == 0 then None
    else if ms[0].key == key then Some(ms[0].value)
    else
      assert forall i :: 0 <= i < |ms| - 1 ==> ms[1..][i] == ms[i + 1];
      var r := Lookup(ms[1..], key);
      assert HasKey(ms, key) ==> HasKey(ms[1..], key);
      r
  }

  function Get(ms: seq<Member>, name: string): Option<Value> {
    Lookup(ms, StrKey(name))
  }

  /** `v.get(name)` where `v` may be anything: no mapping, no field. */
  function SubField(v: Option<Value>, name: string): Option<Value> {
    if v.Some? && v.value.Map? then Get(v.value.members, name) else None
  }

  lemma LookupOf(ms: seq<Member>, i: nat)
    requires DistinctKeys(ms) && i < |ms|
    ensures Lookup(ms, ms[i].key) == Some(ms[i].value)
  {
    assert HasKey(ms, ms[i].key);
    var r := Lookup(ms, ms[i].key);
    var j :| 0 <= j < |ms| && ms[j] == Member(ms[i].key, r.value);
  }

  // ----- meaning -----

  function Meaning(v: Value): Json {
    match v
    case Null => JNull
    case Bool(b) => JBool(b)
    case Int(i) => JInt(i)
    case Str(s) => JStr(s)
    case List(items) => JList(MeaningItems(items))
    case Map(ms) => JObject(MeaningMembers(ms))
    case _ => NotJson
  }

  function MeaningItems(items: seq<Value>): (js: seq<Json>)
    ensures |js| == |items|
    ensures forall i :: 0 <= i < |items| ==> js[i] == Meaning(items[i])
  {
    if |items| == 0 then [] else [Meaning(items[0])] + MeaningItems(items[1..])
  }

  /** Members with non-string keys mean nothing; a repeated key would keep its last value. */
  function MeaningMembers(ms: seq<Member>): map<string, Json> {
    if |ms| == 0 then map[]
    else
      var rest := MeaningMembers(ms[1..]);
      match ms[0].key
      case StrKey(k) => if k in rest then rest else rest[k := MeaningMember(ms[0])]
      case OtherKey(_) => rest
  }

  function MeaningMember(m: Member): Json {
    Meaning(m.value)
  }

  lemma {:induction false} MeaningLookup(ms: seq<Member>, name: string)
    requires DistinctKeys(ms)
    ensures name in MeaningMembers(ms) <==> HasKey(ms, StrKey(name))
    ensures name in MeaningMembers(ms) ==>
              Get(ms, name).Some? && MeaningMembers(ms)[name] == Meaning(Get(ms, name).value)
  {
    if |ms| > 0 {
      MeaningLookup(ms[1..], name);
      assert forall i :: 0 <= i < |ms| - 1 ==> ms[1..][i] == ms[i + 1];
      if ms[0].key == StrKey(name) {
        assert !HasKey(ms[1..], StrKey(name));
      } else {
        assert HasKey(ms, StrKey(name)) <==> HasKey(ms[1..], StrKey(name));
      }
    }
  }

  /** A field read through the meaning does not depend on member order. */
  lemma MeaningField(a: seq<Member>, b: seq<Member>, name: string)
    requires DistinctKeys(a) && DistinctKeys(b) && MeaningMembers(a) == MeaningMembers(b)
    ensures Get(a, name).Some? == Get(b, name).Some?
    ensures Get(a, name).Some? ==> Meaning(Get(a, name).value) == Meaning(Get(b, name).value)
  {
    MeaningLookup(a, name);
    MeaningLookup(b, name);
  }

  /** Python truthiness. */
  function Truthy(v: Value): bool {
    match v
    case Null => false
    case Bool(b) => b
    case Int(i) => i != 0
    case Float(nonzero) => nonzero
    case Date => true
    case Bytes(nonempty) => nonempty
    case Foreign(_) => true
    case Str(s) => s != ""
    case List(items) => items != []
    case Map(ms) => ms != []
  }

  /** The values Python takes for false. */
  ghost predicate Falsy(v: Value) {
    || v == Null || v == Bool(false) || v == Int(0) || v == Float(false) || v == Bytes(false)
    || v == Str("") || v == List([]) || v == Map([])
  }

  lemma FalsyIff(v: Value)
    ensures Truthy(v) <==> !Falsy(v)
  {
  }

  lemma {:induction false} LookupAppend(ms: seq<Member>, m: Member, key: Key)
    requires key != m.key
    ensures Lookup(ms + [m], key) == Lookup(ms, key)
  {
    if |ms| > 0 {
      assert (ms + [m])[1..] == ms[1..] + [m];
      LookupAppend(ms[1..], m, key);
    }
  }
}
