/** `package.yaml` as loaded, its intent core, and the hash that binds it. */
module Packages {
  import opened Values
  import opened Canonical
  import opened Lifecycle
  import Utf8

  /** Everything in `package.yaml` but its `revision` and `status` lines. The strict loader refuses a
  repeated key at any level, so neither line's key occurs again and all keys are distinct. */
  ghost predicate BodyOk(ms: seq<Member>) {
    && DistinctKeys(ms) && WellFormedMembers(ms)
    && !HasKey(ms, StrKey("revision")) && !HasKey(ms, StrKey("status"))
  }

  type Body = ms: seq<Member> | BodyOk(ms) witness []

  datatype Package = Package(body: Body, revision: int, status: State)

  /** The dict `load_package` returns. */
  function AsDict(p: Package): seq<Member> {
    p.body + [Member(StrKey("revision"), Int(p.revision)),
              Member(StrKey("status"), Str(StateName(p.status)))]
  }

  /** `core.pop(name, None)` on a copy. */
  function Without(ms: seq<Member>, name: string): seq<Member> {
    if |ms| == 0 then []
    else if ms[0].key == StrKey(name) then Without(ms[1..], name)
    else [ms[0]] + Without(ms[1..], name)
  }

  /** `intent_core`. */
  function IntentCore(ms: seq<Member>): seq<Member> {
    Without(ms, "status")
  }

  /** The hexadecimal SHA-256 of some bytes. */
  type Digest = seq<Utf8.Byte> -> string

  /** `package_hash`; `None`: it raises. */
  function DictHash(sha: Digest, ms: seq<Member>): Option<string> {
    var text := Canon(Map(IntentCore(ms)));
    if text.None? then None else Some(sha(Utf8.Encode(text.value)))
  }

  function PackageHash(sha: Digest, p: Package): Option<string> {
    DictHash(sha, AsDict(p))
  }

  /** The core of a package: its body and its revision number. */
  function Core(p: Package): seq<Member> {
    p.body + [Member(StrKey("revision"), Int(p.revision))]
  }

  /** What the hash is to bind: every member but `status`, whatever order they were written in. */
  function Intent(p: Package): map<string, Json> {
    MeaningMembers(Core(p))
  }

  lemma {:induction false} WithoutAbsent(ms: seq<Member>, name: string)
    requires !HasKey(ms, StrKey(name))
    ensures Without(ms, name) == ms
  {
    if |ms| > 0 {
      assert ms[0].key != StrKey(name);
      assert forall i :: 0 < i < |ms| ==> ms[i] == ms[1..][i - 1];
      WithoutAbsent(ms[1..], name);
      assert ms == [ms[0]] + ms[1..];
    }
  }

  lemma {:induction false} WithoutConcat(a: seq<Member>, b: seq<Member>, name: string)
    ensures Without(a + b, name) == Without(a, name) + Without(b, name)
  {
    if |a| == 0 {
      assert a + b == b;
    } else {
      assert (a + b)[1..] == a[1..] + b;
      WithoutConcat(a[1..], b, name);
    }
  }

  lemma CoreIsIntentCore(p: Package)
    ensures IntentCore(AsDict(p)) == Core(p)
  {
    var r, s := Member(StrKey("revision"), Int(p.revision)),
                Member(StrKey("status"), Str(StateName(p.status)));
    WithoutConcat(p.body, [r, s], "status");
    WithoutAbsent(p.body, "status");
    assert [r, s][1..] == [s] && [s][1..] == [];
    assert Without([r, s], "status") == [r] + Without([s], "status");
    assert Without([s], "status") == Without([], "status");
  }

  lemma ConcatWellFormed(a: seq<Member>, m: Member)
    requires DistinctKeys(a) && WellFormedMembers(a) && WellFormedMember(m) && !HasKey(a, m.key)
    ensures DistinctKeys(a + [m]) && WellFormedMembers(a + [m])
  {
  }

  lemma CoreWellFormed(p: Package)
    ensures DistinctKeys(Core(p)) && WellFormedMembers(Core(p)) && WellFormed(Map(Core(p)))
  {
    ConcatWellFormed(p.body, Member(StrKey("revision"), Int(p.revision)));
  }

  ghost predicate Injective(sha: Digest) {
    forall a, b :: sha(a) == sha(b) ==> a == b
  }

  /** Two packages hash alike exactly when they mean the same intent. */
  lemma HashBindsIntent(sha: Digest, p: Package, q: Package)
    requires Injective(sha)
    requires PackageHash(sha, p).Some? && PackageHash(sha, q).Some?
    ensures PackageHash(sha, p) == PackageHash(sha, q) <==> Intent(p) == Intent(q)
  {
    CoreIsIntentCore(p);
    CoreIsIntentCore(q);
    CoreWellFormed(p);
    CoreWellFormed(q);
    CanonEqualIffMeaningEqual(Map(Core(p)), Map(Core(q)));
    EqualHashesEqualTexts(sha, Canon(Map(Core(p))).value, Canon(Map(Core(q))).value);
  }

  lemma EqualHashesEqualTexts(sha: Digest, s: string, t: string)
    requires Injective(sha)
    ensures sha(Utf8.Encode(s)) == sha(Utf8.Encode(t)) <==> s == t
  {
    if sha(Utf8.Encode(s)) == sha(Utf8.Encode(t)) {
      Utf8.EncodeInjective(s, t);
    }
  }

  lemma CoreLookup(p: Package, name: string)
    ensures Get(Core(p), name) ==
              if name == "revision" then Some(Int(p.revision)) else Get(p.body, name)
  {
    CoreWellFormed(p);
    var c := Core(p);
    if name == "revision" {
      assert c[|p.body|].key == StrKey(name);
      LookupOf(c, |p.body|);
    } else if HasKey(p.body, StrKey(name)) {
      var i :| 0 <= i < |p.body| && p.body[i].key == StrKey(name);
      assert c[i] == p.body[i];
      LookupOf(c, i);
      LookupOf(p.body, i);
    } else {
      assert !HasKey(c, StrKey(name));
    }
  }

  /** The revision number is bound through the intent, and so is what any field holds. */
  lemma IntentBindsFields(p: Package, q: Package, name: string)
    requires Intent(p) == Intent(q)
    ensures p.revision == q.revision
    ensures Get(p.body, name).Some? == Get(q.body, name).Some?
    ensures Get(p.body, name).Some? ==>
              Meaning(Get(p.body, name).value) == Meaning(Get(q.body, name).value)
  {
    CoreWellFormed(p);
    CoreWellFormed(q);
    CoreLookup(p, "revision");
    CoreLookup(q, "revision");
    MeaningField(Core(p), Core(q), "revision");
    if name == "revision" {
      assert !HasKey(p.body, StrKey(name)) && !HasKey(q.body, StrKey(name));
    } else {
      CoreLookup(p, name);
      CoreLookup(q, name);
      MeaningField(Core(p), Core(q), name);
    }
  }

  /** The two lines hold the revision and the status; every other name is the body's. */
  lemma DictLookup(p: Package, name: string)
    ensures name != "status" ==> Get(AsDict(p), name) == Get(Core(p), name)
    ensures name != "status" && name != "revision" ==> Get(AsDict(p), name) == Get(p.body, name)
  {
    var r, s := Member(StrKey("revision"), Int(p.revision)),
                Member(StrKey("status"), Str(StateName(p.status)));
    assert AsDict(p) == Core(p) + [s];
    if name != "status" {
      LookupAppend(Core(p), s, StrKey(name));
      if name != "revision" { LookupAppend(p.body, r, StrKey(name)); }
    }
  }

  // ----- reads the operations make -----

  /** `package["follow_up"]["required"]`; `None` where it raises. */
  function FollowUpRequired(p: Package): Option<bool> {
    match SubField(Get(p.body, "follow_up"), "required")
    case None => None
    case Some(v) => Some(Truthy(v))
  }

  /** `bool(package["scope"]["open_questions"])`; `None` where it raises. */
  function OpenQuestions(p: Package): Option<bool> {
    match SubField(Get(p.body, "scope"), "open_questions")
    case None => None
    case Some(v) => Some(Truthy(v))
  }

  lemma TruthyMeaning(v: Value, w: Value)
    requires Meaning(v) == Meaning(w) && Printable(v) && Printable(w)
    requires WellFormed(v) && WellFormed(w)
    ensures Truthy(v) == Truthy(w)
  {
    if v.Map? {
      EmptyMapMeaning(v.members);
      EmptyMapMeaning(w.members);
    }
  }

  lemma EmptyMapMeaning(ms: seq<Member>)
    requires DistinctKeys(ms) && forall i :: 0 <= i < |ms| ==> PrintableMember(ms[i])
    ensures MeaningMembers(ms) == map[] <==> ms == []
  {
    if ms != [] {
      assert PrintableMember(ms[0]);
      assert HasKey(ms, ms[0].key);
      MeaningLookup(ms, ms[0].key.name);
    }
  }

  lemma BodyValuePrintable(p: Package, name: string)
    requires Canon(Map(Core(p))).Some? && Get(p.body, name).Some?
    ensures Printable(Get(p.body, name).value) && WellFormed(Get(p.body, name).value)
  {
    CanonDefined(Map(Core(p)));
    var v := Get(p.body, name).value;
    var i :| 0 <= i < |p.body| && p.body[i] == Member(StrKey(name), v);
    assert Core(p)[i] == p.body[i];
    assert PrintableMember(Core(p)[i]);
    assert WellFormedMember(p.body[i]);
  }

  /** Two packages of the same intent agree on a nested flag. */
  lemma IntentBindsFlag(sha: Digest, p: Package, q: Package, outer: string, inner: string)
    requires Intent(p) == Intent(q)
    requires PackageHash(sha, p).Some? && PackageHash(sha, q).Some?
    requires SubField(Get(p.body, outer), inner).Some?
    ensures SubField(Get(q.body, outer), inner).Some?
    ensures Truthy(SubField(Get(p.body, outer), inner).value)
            == Truthy(SubField(Get(q.body, outer), inner).value)
  {
    CoreIsIntentCore(p);
    CoreIsIntentCore(q);
    IntentBindsFields(p, q, outer);
    BodyValuePrintable(p, outer);
    BodyValuePrintable(q, outer);
    var v, w := Get(p.body, outer).value, Get(q.body, outer).value;
    assert w.Map?;
    MeaningField(v.members, w.members, inner);
    MemberPrintable(v.members, inner);
    MemberPrintable(w.members, inner);
    TruthyMeaning(Get(v.members, inner).value, Get(w.members, inner).value);
  }

  lemma MemberPrintable(ms: seq<Member>, name: string)
    requires WellFormedMembers(ms) && forall i :: 0 <= i < |ms| ==> PrintableMember(ms[i])
    requires Get(ms, name).Some?
    ensures Printable(Get(ms, name).value) && WellFormed(Get(ms, name).value)
  {
    var v := Get(ms, name).value;
    var i :| 0 <= i < |ms| && ms[i] == Member(StrKey(name), v);
    assert PrintableMember(ms[i]) && WellFormedMember(ms[i]);
  }
}
