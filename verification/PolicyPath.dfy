/** A package and a policy that describes it: an approval in the policy's name goes all the way through. */
module PolicyPath {
  import opened Values
  import opened Lifecycle
  import opened LineageLedger
  import opened Packages
  import opened Canonical
  import opened TypeScan
  import opened Operations
  import opened LedgerInvariant
  import opened LedgerRuns
  import opened LedgerOutcomes
  import opened ApprovalPath
  import AP = ApprovalPolicy
  import PD = PolicyDocument

  function Scope(): seq<Member> { [Member(StrKey("open_questions"), List([]))] }

  function Fields(): seq<Member> {
    [Member(StrKey("target_repo"), Str("repo")), Member(StrKey("standing"), Bool(true)),
     Member(StrKey("from_version"), Str("1")), Member(StrKey("to_version"), Str("2"))]
  }

  function Budgets(): seq<Member> {
    [Member(StrKey("max_attempts"), Int(1)), Member(StrKey("max_llm_calls"), Int(1))]
  }

  function Term(): Value { Str("term") }

  function Terms(): Value { List([Term()]) }

  function Authority(): seq<Member> {
    [Member(StrKey("allowed"), Terms()), Member(StrKey("requires_approval"), Terms()),
     Member(StrKey("prohibited"), Terms()), Member(StrKey("budgets"), Map(Budgets()))]
  }

  function Criterion(): seq<Member> {
    [Member(StrKey("evidence_type"), Term()), Member(StrKey("approver"), Term())]
  }

  function Risk(): seq<Member> { [Member(StrKey("max_impact"), Term())] }

  function Bump(): seq<Member> {
    [Member(StrKey("package_id"), Str("p")), Member(StrKey("scope"), Map(Scope())),
     Member(StrKey("profile"), Str("bump")), Member(StrKey("profile_fields"), Map(Fields())),
     Member(StrKey("reach"), Terms()), Member(StrKey("authority"), Map(Authority())),
     Member(StrKey("acceptance"), List([Map(Criterion())])), Member(StrKey("risk"), Map(Risk()))]
  }

  function Granted(): AP.Grant {
    AP.Grant("why", "then", {"repo"}, None, [["term"]], ["term"], ["term"], ["term"], 1, 1,
             {"term"}, {"term"}, {"term"})
  }

  function Allows(): AP.Policy { AP.Policy(1, map["bump" := Some(Granted())]) }

  // ----- keys -----

  lemma SmallKeys()
    ensures DistinctKeys(Scope()) && DistinctKeys(Budgets()) && DistinctKeys(Criterion()) && DistinctKeys(Risk())
  {
    assert |"max_attempts"| == 12 && |"max_llm_calls"| == 13;
    assert |"evidence_type"| == 13 && |"approver"| == 8;
  }

  lemma FieldKeys()
    ensures DistinctKeys(Fields()) && DistinctKeys(Authority())
  {
    assert |"target_repo"| == 11 && |"standing"| == 8 && |"from_version"| == 12 && |"to_version"| == 10;
    assert |"allowed"| == 7 && |"requires_approval"| == 17 && |"prohibited"| == 10 && |"budgets"| == 7;
    assert "allowed"[0] == 'a' && "budgets"[0] == 'b';
  }

  lemma BumpKeys()
    ensures DistinctKeys(Bump())
    ensures forall i :: 0 <= i < |Bump()| ==> Bump()[i].key != StrKey("revision") && Bump()[i].key != StrKey("status")
  {
    assert |"package_id"| == 10 && |"scope"| == 5 && |"profile"| == 7 && |"profile_fields"| == 14;
    assert |"reach"| == 5 && |"authority"| == 9 && |"acceptance"| == 10 && |"risk"| == 4;
    assert |"revision"| == 8 && |"status"| == 6;
    assert "package_id"[0] == 'p' && "acceptance"[0] == 'a' && "scope"[0] == 's' && "reach"[0] == 'r';
  }

  // ----- well-formed, printable -----

  ghost predicate Sound(v: Value) {
    WellFormed(v) && Printable(v) && NoEmptyKeys(v)
  }

  ghost predicate SoundMember(m: Member) {
    WellFormedMember(m) && PrintableMember(m) && NoEmptyKey(m)
  }

  lemma SoundOf(key: string, v: Value)
    requires key != "" && Sound(v)
    ensures SoundMember(Member(StrKey(key), v))
  {
  }

  lemma SoundMap(ms: seq<Member>)
    requires DistinctKeys(ms) && forall i :: 0 <= i < |ms| ==> SoundMember(ms[i])
    ensures Sound(Map(ms))
  {
    forall i | 0 <= i < |ms| ensures WellFormedMember(ms[i]) && PrintableMember(ms[i]) && NoEmptyKey(ms[i]) {
      assert SoundMember(ms[i]);
    }
  }

  lemma SoundScalars()
    ensures forall s :: Sound(Str(s))
    ensures forall i :: Sound(Int(i))
    ensures forall b :: Sound(Bool(b))
    ensures Sound(List([])) && Sound(Terms())
  {
    assert Sound(Term());
  }

  lemma PairSound(a: string, v: Value, b: string, w: Value)
    requires a != "" && b != "" && a != b && Sound(v) && Sound(w)
    ensures Sound(Map([Member(StrKey(a), v), Member(StrKey(b), w)]))
  {
    hide Sound, SoundMember;
    SoundOf(a, v);
    SoundOf(b, w);
    SoundMap([Member(StrKey(a), v), Member(StrKey(b), w)]);
  }

  lemma SingleSound(a: string, v: Value)
    requires a != "" && Sound(v)
    ensures Sound(Map([Member(StrKey(a), v)]))
  {
    hide Sound, SoundMember;
    SoundOf(a, v);
    SoundMap([Member(StrKey(a), v)]);
  }

  lemma SmallParts()
    ensures Sound(Map(Scope())) && Sound(Map(Budgets())) && Sound(Map(Criterion())) && Sound(Map(Risk()))
  {
    hide Sound;
    SoundScalars();
    assert |"max_attempts"| == 12 && |"max_llm_calls"| == 13;
    assert |"evidence_type"| == 13 && |"approver"| == 8;
    SingleSound("open_questions", List([]));
    PairSound("max_attempts", Int(1), "max_llm_calls", Int(1));
    PairSound("evidence_type", Term(), "approver", Term());
    SingleSound("max_impact", Term());
  }

  lemma FieldsSound()
    ensures Sound(Map(Fields()))
  {
    hide Sound, SoundMember, DistinctKeys;
    SoundScalars();
    FieldKeys();
    SoundOf("target_repo", Str("repo"));
    SoundOf("standing", Bool(true));
    SoundOf("from_version", Str("1"));
    SoundOf("to_version", Str("2"));
    SoundMap(Fields());
  }

  lemma Parts()
    ensures Sound(Map(Scope())) && Sound(Map(Fields())) && Sound(Map(Budgets()))
            && Sound(Map(Criterion())) && Sound(Map(Risk()))
  {
    hide Sound;
    SmallParts();
    FieldsSound();
  }

  lemma SoundOne(v: Value)
    requires Sound(v)
    ensures Sound(List([v]))
  {
  }

  lemma AuthoritySound()
    ensures Sound(Map(Authority()))
  {
    hide Sound, SoundMember, DistinctKeys, Terms, Budgets;
    SoundScalars();
    FieldKeys();
    Parts();
    forall key: string, v | key != "" && Sound(v) ensures SoundMember(Member(StrKey(key), v)) {
      SoundOf(key, v);
    }
    SoundMap(Authority());
  }

  lemma BumpMembers()
    ensures forall i :: 0 <= i < |Bump()| ==> SoundMember(Bump()[i])
  {
    hide Sound, SoundMember, Terms, Scope, Fields, Authority, Criterion, Risk;
    SoundScalars();
    Parts();
    AuthoritySound();
    SoundOne(Map(Criterion()));
    forall key: string, v | key != "" && Sound(v) ensures SoundMember(Member(StrKey(key), v)) {
      SoundOf(key, v);
    }
  }

  lemma BumpOk()
    ensures BodyOk(Bump())
  {
    BumpKeys();
    BumpMembers();
    forall i | 0 <= i < |Bump()| ensures WellFormedMember(Bump()[i]) {
      assert SoundMember(Bump()[i]);
    }
  }

  function BumpStart(): (d: Disk)
    ensures d.pkg.body == Bump() && d.pkg.revision == 1 && d.pkg.status == Draft
    ensures d.lin == Initial("then", "author") && d.chain == []
  {
    BumpOk();
    Disk(Package(Bump(), 1, Draft), Initial("then", "author"), [])
  }

  // ----- what the names lead to -----

  lemma InBump()
    ensures Get(Bump(), "package_id") == Some(Str("p")) && Get(Bump(), "scope") == Some(Map(Scope()))
    ensures Get(Bump(), "profile") == Some(Str("bump")) && Get(Bump(), "profile_fields") == Some(Map(Fields()))
    ensures Get(Bump(), "reach") == Some(Terms())
    ensures Get(Bump(), "authority") == Some(Map(Authority()))
    ensures Get(Bump(), "acceptance") == Some(List([Map(Criterion())]))
    ensures Get(Bump(), "risk") == Some(Map(Risk()))
  {
    hide DistinctKeys, Lookup, Terms, Scope, Fields, Authority, Criterion, Risk;
    BumpKeys();
    forall i | 0 <= i < |Bump()| ensures Lookup(Bump(), Bump()[i].key) == Some(Bump()[i].value) {
      LookupOf(Bump(), i);
    }
    assert Bump()[0].key == StrKey("package_id") && Bump()[1].key == StrKey("scope");
    assert Bump()[2].key == StrKey("profile") && Bump()[3].key == StrKey("profile_fields");
    assert Bump()[4].key == StrKey("reach") && Bump()[5].key == StrKey("authority");
    assert Bump()[6].key == StrKey("acceptance") && Bump()[7].key == StrKey("risk");
  }

  lemma InFields()
    ensures Get(Fields(), "target_repo") == Some(Str("repo"))
    ensures Get(Fields(), "standing") == Some(Bool(true))
    ensures Get(Fields(), "from_version") == Some(Str("1")) && Get(Fields(), "to_version") == Some(Str("2"))
  {
    hide DistinctKeys, Lookup;
    FieldKeys();
    LookupOf(Fields(), 0);
    LookupOf(Fields(), 1);
    LookupOf(Fields(), 2);
    LookupOf(Fields(), 3);
  }

  lemma InAuthority()
    ensures Get(Authority(), "allowed") == Some(Terms())
    ensures Get(Authority(), "requires_approval") == Some(Terms())
    ensures Get(Authority(), "prohibited") == Some(Terms())
    ensures Get(Authority(), "budgets") == Some(Map(Budgets()))
  {
    hide DistinctKeys, Lookup, Terms, Budgets;
    FieldKeys();
    LookupOf(Authority(), 0);
    LookupOf(Authority(), 1);
    LookupOf(Authority(), 2);
    LookupOf(Authority(), 3);
  }

  lemma InSmall()
    ensures Get(Scope(), "open_questions") == Some(List([])) && Get(Risk(), "max_impact") == Some(Term())
    ensures Get(Budgets(), "max_attempts") == Some(Int(1)) && Get(Budgets(), "max_llm_calls") == Some(Int(1))
    ensures Get(Criterion(), "evidence_type") == Some(Term())
    ensures Get(Criterion(), "approver") == Some(Term())
  {
    hide DistinctKeys, Lookup, Term;
    SmallKeys();
    LookupOf(Scope(), 0);
    LookupOf(Risk(), 0);
    LookupOf(Budgets(), 0);
    LookupOf(Budgets(), 1);
    LookupOf(Criterion(), 0);
    LookupOf(Criterion(), 1);
  }

  // ----- conformance -----

  lemma OneStrItem()
    ensures AP.StrItems(["term"]) == [Str("term")]
  {
    assert ["term"][1..] == [];
  }

  lemma LeadsIn(ms: seq<Member>, a: string, sub: seq<Member>, b: string, v: Value)
    requires Get(ms, a) == Some(Map(sub)) && Get(sub, b) == Some(v)
    ensures AP.Leads(ms, [a, b], v)
  {
    hide Lookup;
    AP.LeadsTwo(ms, a, b, v);
  }

  lemma TargetLeads()
    ensures AP.Leads(Bump(), ["profile_fields", "target_repo"], Str("repo"))
    ensures AP.StandingConforms(Bump()) && AP.BumpConforms(Bump())
  {
    hide Lookup, AP.Leads, Bump, Fields;
    InBump();
    InFields();
    LeadsIn(Bump(), "profile_fields", Fields(), "target_repo", Str("repo"));
    LeadsIn(Bump(), "profile_fields", Fields(), "standing", Bool(true));
    LeadsIn(Bump(), "profile_fields", Fields(), "from_version", Str("1"));
    LeadsIn(Bump(), "profile_fields", Fields(), "to_version", Str("2"));
    assert "1"[0] != "2"[0];
  }

  lemma ReachLeads()
    ensures AP.ReachConforms(Bump(), Granted()) && AP.ImpactConforms(Bump(), Granted())
  {
    hide Lookup, AP.Leads, Bump, Risk;
    InBump();
    InSmall();
    OneStrItem();
    AP.LeadsOne(Bump(), "reach", Terms());
    LeadsIn(Bump(), "risk", Risk(), "max_impact", Term());
    assert ["term"] in Granted().reachOptions && "term" in Granted().maxImpact;
  }

  lemma AuthorityLeads()
    ensures AP.AuthorityConforms(Bump(), Granted())
  {
    hide Lookup, AP.Leads, Bump, Authority;
    InBump();
    InAuthority();
    OneStrItem();
    LeadsIn(Bump(), "authority", Authority(), "allowed", Terms());
    LeadsIn(Bump(), "authority", Authority(), "requires_approval", Terms());
    LeadsIn(Bump(), "authority", Authority(), "prohibited", Terms());
    assert AP.Leads(Bump(), ["authority", "allowed"], List(AP.StrItems(["term"])));
  }

  lemma BudgetLeads()
    ensures AP.BudgetConforms(Bump(), "max_attempts", 1) && AP.BudgetConforms(Bump(), "max_llm_calls", 1)
  {
    hide Lookup, AP.Leads, Bump, Authority, Budgets;
    InBump();
    InAuthority();
    InSmall();
    AP.LeadsThree(Bump(), "authority", "budgets", "max_attempts", Int(1));
    AP.LeadsThree(Bump(), "authority", "budgets", "max_llm_calls", Int(1));
  }

  lemma AcceptanceLeads()
    ensures AP.AcceptanceConforms(Bump(), Granted())
  {
    hide Lookup, AP.Leads, Bump, Criterion;
    InBump();
    AP.LeadsOne(Bump(), "acceptance", List([Map(Criterion())]));
    CriterionFits();
    hide Granted, AP.CriterionConforms;
  }

  lemma CriterionFits()
    ensures AP.CriterionConforms(Map(Criterion()), Granted())
  {
    hide Lookup, AP.Leads, Criterion;
    InSmall();
    AP.LeadsOne(Criterion(), "evidence_type", Term());
    AP.LeadsOne(Criterion(), "approver", Term());
    assert "term" in Granted().acceptanceEvidenceTypes && "term" in Granted().acceptanceApprovers;
  }

  lemma BumpConforms(o: AP.Oracle)
    ensures AP.PolicyConforms(o, Allows(), Bump())
  {
    hide Lookup, AP.Leads, Bump, AP.StandingConforms, AP.BumpConforms, AP.ReachConforms, AP.ImpactConforms,
         AP.AuthorityConforms, AP.BudgetConforms, AP.AcceptanceConforms;
    InBump();
    TargetLeads();
    ReachLeads();
    AuthorityLeads();
    BudgetLeads();
    AcceptanceLeads();
    assert "repo" in Granted().targetRepositories;
    assert AP.ConformsTo(o, Bump(), Granted());
    assert "bump" in Allows().grants && Allows().grants["bump"] == Some(Granted()) && "bump" != "";
  }

  /** A world in which there is no person to approve anything, and the policy in force. */
  function Nobody(): Env {
    Env(p => true, s => false, Some(Allows()),
        AP.Oracle(s => None, s => s, vs => false, t => false, s => false))
  }

  lemma BumpScans()
    ensures ScanErrors(Map(AsDict(BumpStart().pkg)), []) == []
  {
    hide ScanErrors, Bump, Sound, BodyOk;
    BumpMembers();
    var ms := AsDict(BumpStart().pkg);
    assert |"revision"| == 8 && |"status"| == 6;
    SoundLine("revision", Int(1));
    SoundLine("status", Str(StateName(Draft)));
    forall i | 0 <= i < |ms| ensures PrintableMember(ms[i]) && NoEmptyKey(ms[i]) {
      if i < |Bump()| { assert ms[i] == Bump()[i] && SoundMember(Bump()[i]); }
    }
    ScanSilent(Map(ms), []);
  }

  lemma BumpAnswers()
    ensures Named(BumpStart().pkg) && OpenQuestions(BumpStart().pkg) == Some(false)
  {
    hide Lookup, Bump, Scope, BodyOk;
    InBump();
    InSmall();
  }

  lemma BumpPresentable()
    ensures Presentable(Nobody(), BumpStart())
    ensures OpenQuestions(BumpStart().pkg) == Some(false)
  {
    hide ScanErrors, Lookup, Bump, AsDict, Allows, BodyOk, Named, OpenQuestions;
    BumpAnswers();
    BumpScans();
    assert BumpStart().lin == Initial("then", "author");
  }

  lemma SoundLine(key: string, v: Value)
    requires key != "" && (v.Str? || v.Int?)
    ensures PrintableMember(Member(StrKey(key), v)) && NoEmptyKey(Member(StrKey(key), v))
  {
  }

  predicate KnowsNobody(approver: string) { false }

  /** With nobody to recognise, an approval in the policy's name is enough: there is a package it works
  for. */
  lemma SomePolicyRunVerifies()
    ensures exists sha, start, run ::
              && GoodHash(sha) && Scaffolded(start) && Orderly(run) && Spoken(run)
              && NoApprovals(start.chain)
              && VerifyAnswer(sha, KnowsNobody, After(sha, start, run), true, false) == Verified
  {
    hide After, VerifyAnswer, Presentable, GoodHash, PD.Approver, PD.ProfileName, AP.PolicyConforms,
         Lookup, Bump, AsDict, OpenQuestions, BodyOk;
    var env, start := Nobody(), BumpStart();
    var sha: Digest := Spelled;
    var heard := Recorded(None);
    SpelledIsGoodHash();
    BumpPresentable();
    InBump();
    DictLookup(start.pkg, "profile");
    WellNamed();
    DictConforms(env.oracle);
    ReviewThenPolicyVerifies(sha, env, start, "author", "bump", "commit", heard, heard, "now", KnowsNobody);
    ScaffoldedIfPresentable(env, start);
    var run := Path(env, "author", PD.Approver("bump", 1), "commit", heard, heard, "now");
    assert Orderly(run) && Spoken(run) && NoApprovals(start.chain) && GoodHash(sha);
    assert VerifyAnswer(sha, KnowsNobody, After(sha, start, run), true, false) == Verified;
  }

  lemma WellNamed()
    ensures PD.ProfileName("bump")
    ensures "profile" != "status" && "profile" != "revision"
  {
    assert |"profile"| == 7 && |"status"| == 6 && |"revision"| == 8;
  }

  lemma DictConforms(o: AP.Oracle)
    ensures AP.PolicyConforms(o, Allows(), AsDict(BumpStart().pkg))
  {
    hide Lookup, AP.RefusalsFor, AP.PolicyConforms, AsDict, Bump, Allows, BodyOk;
    var p := BumpStart().pkg;
    BumpConforms(o);
    AP.NoRefusalIffConforms(o, Allows(), Bump());
    NotStatus();
    NotRevision();
    forall name | name != "status" && name != "revision" ensures Get(AsDict(p), name) == Get(Bump(), name) {
      DictLookup(p, name);
    }
    SameReads(o, Allows(), AsDict(p), Bump());
    AP.NoRefusalIffConforms(o, Allows(), AsDict(p));
  }

  lemma NotRevision()
    ensures "profile" != "revision" && "profile_fields" != "revision" && "reach" != "revision"
    ensures "authority" != "revision" && "acceptance" != "revision" && "risk" != "revision"
  {
    assert |"revision"| == 8 && |"profile"| == 7 && |"profile_fields"| == 14 && |"reach"| == 5;
    assert |"authority"| == 9 && |"acceptance"| == 10 && |"risk"| == 4;
  }
}
