/** The way an approval is meant to be given, from scaffold to read gate: the guards on it can all be met,
and when they are, nothing else stands in the way. */
module ApprovalPath {
  import opened Values
  import opened Lifecycle
  import opened LineageLedger
  import opened Packages
  import opened Canonical
  import opened TypeScan
  import opened Checks
  import opened Operations
  import opened LedgerInvariant
  import opened LedgerRuns
  import opened LedgerOutcomes
  import AP = ApprovalPolicy
  import PD = PolicyDocument
  import Utf8

  /** A fresh directory whose package is ready to be looked at, in the eyes of `env`. */
  ghost predicate Presentable(env: Env, start: Disk) {
    && Scaffolded(start)
    && start.pkg.status == Draft
    && env.ok(start.pkg) && env.ok(start.pkg.(status := ReadyForReview))
    && ScanErrors(Map(AsDict(start.pkg)), []) == []
    && Named(start.pkg)
  }

  lemma {:induction false} ScanIgnoresStatus(p: Package, s: State)
    requires ScanErrors(Map(AsDict(p)), []) == []
    ensures ScanErrors(Map(AsDict(p.(status := s))), []) == []
  {
    hide ScanErrors;
    var q := p.(status := s);
    var before, after := AsDict(p), AsDict(q);
    ScanSilent(Map(before), []);
    ScanSilent(Map(after), []);
    forall i | 0 <= i < |after| ensures PrintableMember(after[i]) && NoEmptyKey(after[i]) {
      if i <= |p.body| {
        assert after[i] == before[i];
        assert PrintableMember(before[i]) && NoEmptyKey(before[i]);
      }
    }
  }

  /** Nothing keeps a presentable package out of review. */
  lemma FreshTransition(sha: Digest, env: Env, start: Disk)
    requires Presentable(env, start)
    ensures PackageHash(sha, start.pkg).Some?
    ensures TransitionRefusal(sha, env, start, ReadyForReview).None?
  {
    hide PackageHash, ScanErrors, PackageProblems, Named, FollowUpRequired;
    ValidIffClean(sha, env.ok, start.pkg, start.lin);
    CleanHashable(sha, env.ok, start.pkg, start.lin);
  }

  /** The directory once review has been entered. */
  function InReview(
      sha: Digest, start: Disk, m: Emission, now: string, actor: string): Disk
    requires PackageHash(sha, start.pkg).Some?
  {
    Disk(start.pkg.(status := ReadyForReview),
         TransitionLedger(sha, start, ReadyForReview, m, now, actor),
         m.Chain(start.chain, Event("package.transitioned", [])))
  }

  lemma EntersReviewAs(
      sha: Digest, env: Env, start: Disk, m: Emission, now: string, actor: string)
    requires Presentable(env, start)
    ensures PackageHash(sha, start.pkg).Some?
    ensures Next(sha, start, Here(env, Transition(ReadyForReview, actor), m, now, 3))
            == InReview(sha, start, m, now, actor)
  {
    hide PackageHash, Presentable, TransitionRefusal, Written, TransitionLedger;
    FreshTransition(sha, env, start);
    LeftOfWritten(start, m.Chain(start.chain, Event("package.transitioned", [])),
                  TransitionLedger(sha, start, ReadyForReview, m, now, actor), ReadyForReview, 3);
  }

  /** A package just taken into review validates again. */
  lemma CleanInReview(
      sha: Digest, env: Env, start: Disk, m: Emission, now: string, actor: string)
    requires Presentable(env, start) && PackageHash(sha, start.pkg).Some?
    ensures var d := InReview(sha, start, m, now, actor);
            Clean(sha, env.ok, d.pkg, d.lin) && PackageHash(sha, d.pkg) == PackageHash(sha, start.pkg)
  {
    hide PackageHash, ScanErrors, Named;
    var d := InReview(sha, start, m, now, actor);
    StatusNotHashed(sha, start.pkg, d.pkg);
    ScanIgnoresStatus(start.pkg, ReadyForReview);
    var r := d.lin.revisions;
    assert |r| == 1 && r[0].revision == 1 && r[0].hash == PackageHash(sha, start.pkg).value;
    assert Latest(r) == r[0];
    assert d.lin.transitions == [d.lin.transitions[0]];
  }

  lemma FreshInReview(
      sha: Digest, env: Env, start: Disk, m: Emission, now: string, actor: string,
      approver: string)
    requires Presentable(env, start) && PackageHash(sha, start.pkg).Some?
    requires OpenQuestions(start.pkg) == Some(false)
    requires AuthoriseRefusal(env, start.pkg.(status := ReadyForReview), approver).None?
    ensures var d := InReview(sha, start, m, now, actor);
            FreshApproval(sha, env, d, approver) && Named(d.pkg)
  {
    hide PackageHash, ScanErrors, PackageProblems, Clean, Snapshotted, AuthoriseRefusal;
    var d := InReview(sha, start, m, now, actor);
    CleanInReview(sha, env, start, m, now, actor);
    ValidIffClean(sha, env.ok, d.pkg, d.lin);
  }

  function Path(
      env: Env, actor: string, approver: string, commit: string, m: Emission, n: Emission, now: string)
    : seq<Label>
  {
    [Here(env, Transition(ReadyForReview, actor), m, now, 3),
     Here(env, Approve(approver, commit), n, now, 3)]
  }

  lemma AfterTwo(sha: Digest, start: Disk, a: Label, b: Label)
    ensures After(sha, start, [a, b]) == Next(sha, Next(sha, start, a), b)
    ensures After(sha, start, [a]) == Next(sha, start, a)
  {
    hide Next;
    var one, two := [a], [a, b];
    assert one[..|one| - 1] == [] && two[..|two| - 1] == one;
    assert After(sha, start, []) == start;
    assert After(sha, start, one) == Next(sha, After(sha, start, one[..|one| - 1]), one[|one| - 1]);
    assert After(sha, start, two) == Next(sha, After(sha, start, two[..|two| - 1]), two[|two| - 1]);
  }

  /** A presentable package without open questions, taken into review and approved there by whoever is
  let through, makes `verify_approval` true for everyone who recognises the approver. */
  lemma PathVerifies(
      sha: Digest, env: Env, start: Disk, actor: string, approver: string, commit: string,
      m: Emission, n: Emission, now: string, human: string -> bool)
    requires GoodHash(sha) && Presentable(env, start)
    requires OpenQuestions(start.pkg) == Some(false) && n.Recorded?
    requires AuthoriseRefusal(env, start.pkg.(status := ReadyForReview), approver).None?
    requires Recognised(human, approver)
    ensures VerifyAnswer(sha, human,
                         After(sha, start, Path(env, actor, approver, commit, m, n, now)), true, false)
            == Verified
  {
    hide Presentable, PackageHash, FreshApproval, Inv, VerifyAnswer, After, InReview, ApproveTrace,
         AuthoriseRefusal, Recognised;
    var run := Path(env, actor, approver, commit, m, n, now);
    AfterTwo(sha, start, run[0], run[1]);
    EntersReviewAs(sha, env, start, m, now, actor);
    FreshInReview(sha, env, start, m, now, actor, approver);
    var d := InReview(sha, start, m, now, actor);
    ScaffoldedIfPresentable(env, start);
    ReachableInv(sha, start, [run[0]]);
    ApprovedThenVerified(sha, env, d, approver, commit, n, now, human);
    FullTrace(sha, env, d, approver, commit, n, now);
  }

  /** The partner of `VerifiedMeansApproved`: a presentable package without open questions, taken into
  review and approved there by a person, makes `verify_approval` true, whatever became of the
  transition's own event. */
  lemma ReviewThenApproveVerifies(
      sha: Digest, env: Env, start: Disk, actor: string, approver: string, commit: string,
      m: Emission, n: Emission, now: string)
    requires GoodHash(sha) && Presentable(env, start)
    requires OpenQuestions(start.pkg) == Some(false) && env.human(approver) && n.Recorded?
    ensures VerifyAnswer(sha, env.human,
                         After(sha, start, Path(env, actor, approver, commit, m, n, now)), true, false)
            == Verified
  {
    hide Presentable, PackageHash, VerifyAnswer, After;
    PathVerifies(sha, env, start, actor, approver, commit, m, n, now, env.human);
  }

  /** ... and so does an approval in the name of the policy in force, when the policy describes the package:
  the answer is then true even for those who know no person at all. */
  lemma ReviewThenPolicyVerifies(
      sha: Digest, env: Env, start: Disk, actor: string, profile: string, commit: string,
      m: Emission, n: Emission, now: string, human: string -> bool)
    requires GoodHash(sha) && Presentable(env, start)
    requires OpenQuestions(start.pkg) == Some(false) && n.Recorded?
    requires env.policy.Some? && env.policy.value.version >= 1 && PD.ProfileName(profile)
    requires Get(AsDict(start.pkg), "profile") == Some(Str(profile))
    requires AP.PolicyConforms(env.oracle, env.policy.value, AsDict(start.pkg))
    ensures var approver := PD.Approver(profile, env.policy.value.version);
            VerifyAnswer(sha, human,
                         After(sha, start, Path(env, actor, approver, commit, m, n, now)), true, false)
            == Verified
  {
    hide Presentable, PackageHash, VerifyAnswer, After, AP.PolicyConforms, PD.IsPolicyApprover,
         PD.Approver, PD.ProfileName;
    var approver := PD.Approver(profile, env.policy.value.version);
    PD.ApproverRecognised(profile, env.policy.value.version);
    PolicyLetsThrough(env, start.pkg, ReadyForReview, profile);
    PathVerifies(sha, env, start, actor, approver, commit, m, n, now, human);
  }

  /** The policy's objections do not depend on the status line. */
  lemma RefusalsIgnoreStatus(o: AP.Oracle, policy: AP.Policy, p: Package, s: State)
    ensures AP.RefusalsFor(o, policy, AsDict(p.(status := s))) == AP.RefusalsFor(o, policy, AsDict(p))
    ensures Get(AsDict(p.(status := s)), "profile") == Get(AsDict(p), "profile")
  {
    hide Lookup, AsDict;
    var q := p.(status := s);
    assert Core(q) == Core(p);
    NotStatus();
    forall name | name != "status" ensures Get(AsDict(q), name) == Get(AsDict(p), name) {
      DictLookup(p, name);
      DictLookup(q, name);
    }
    SameReads(o, policy, AsDict(q), AsDict(p));
  }

  lemma NotStatus()
    ensures "profile" != "status" && "profile_fields" != "status" && "reach" != "status"
    ensures "authority" != "status" && "acceptance" != "status" && "risk" != "status"
  {
    assert |"status"| == 6 && |"profile"| == 7 && |"profile_fields"| == 14 && |"reach"| == 5;
    assert |"authority"| == 9 && |"acceptance"| == 10 && |"risk"| == 4;
  }

  /** The six names the refusal functions look at. */
  ghost predicate AgreeOn(a: seq<Member>, b: seq<Member>) {
    && Get(a, "profile") == Get(b, "profile") && Get(a, "profile_fields") == Get(b, "profile_fields")
    && Get(a, "reach") == Get(b, "reach") && Get(a, "authority") == Get(b, "authority")
    && Get(a, "acceptance") == Get(b, "acceptance") && Get(a, "risk") == Get(b, "risk")
  }

  lemma SameFields(o: AP.Oracle, a: seq<Member>, b: seq<Member>, g: AP.Grant)
    requires AgreeOn(a, b)
    ensures AP.TargetVerdict(o, a, g) == AP.TargetVerdict(o, b, g)
    ensures AP.StandingVerdict(a) == AP.StandingVerdict(b) && AP.BumpVerdict(a) == AP.BumpVerdict(b)
  {
    hide Lookup, AP.Unless;
    assert forall name :: AP.ProfileField(a, name) == AP.ProfileField(b, name);
    hide AP.ProfileField;
  }

  lemma SameLists(o: AP.Oracle, a: seq<Member>, b: seq<Member>, g: AP.Grant)
    requires AgreeOn(a, b)
    ensures AP.ReachVerdict(a, g) == AP.ReachVerdict(b, g)
    ensures AP.AuthorityVerdict(o, a, g) == AP.AuthorityVerdict(o, b, g)
    ensures AP.BudgetVerdict(a, g) == AP.BudgetVerdict(b, g)
    ensures AP.AcceptanceVerdict(o, a, g) == AP.AcceptanceVerdict(o, b, g)
    ensures AP.ImpactVerdict(o, a, g) == AP.ImpactVerdict(o, b, g)
  {
    hide Lookup, AP.Unless, AP.TermsVerdict, AP.MemberVerdict, AP.CriteriaVerdict, AP.Strings, AP.Within;
    assert forall name :: AP.Authority(a, name) == AP.Authority(b, name);
    hide AP.Authority;
  }

  lemma SameReads(o: AP.Oracle, policy: AP.Policy, a: seq<Member>, b: seq<Member>)
    requires AgreeOn(a, b)
    ensures AP.RefusalsFor(o, policy, a) == AP.RefusalsFor(o, policy, b)
  {
    hide Lookup, AP.Objections, AP.Verdicts;
    forall g ensures AP.Verdicts(o, a, g) == AP.Verdicts(o, b, g) {
      SameFields(o, a, b, g);
      SameLists(o, a, b, g);
      SameTuple(o, a, b, g);
    }
  }

  lemma SameTuple(o: AP.Oracle, a: seq<Member>, b: seq<Member>, g: AP.Grant)
    requires AP.TargetVerdict(o, a, g) == AP.TargetVerdict(o, b, g)
    requires AP.StandingVerdict(a) == AP.StandingVerdict(b) && AP.BumpVerdict(a) == AP.BumpVerdict(b)
    requires AP.ReachVerdict(a, g) == AP.ReachVerdict(b, g)
    requires AP.AuthorityVerdict(o, a, g) == AP.AuthorityVerdict(o, b, g)
    requires AP.BudgetVerdict(a, g) == AP.BudgetVerdict(b, g)
    requires AP.AcceptanceVerdict(o, a, g) == AP.AcceptanceVerdict(o, b, g)
    requires AP.ImpactVerdict(o, a, g) == AP.ImpactVerdict(o, b, g)
    ensures AP.Verdicts(o, a, g) == AP.Verdicts(o, b, g)
  {
    hide AP.TargetVerdict, AP.StandingVerdict, AP.BumpVerdict, AP.ReachVerdict, AP.AuthorityVerdict,
         AP.BudgetVerdict, AP.AcceptanceVerdict, AP.ImpactVerdict;
  }

  lemma PolicyLetsThrough(env: Env, p: Package, s: State, profile: string)
    requires env.policy.Some? && env.policy.value.version >= 1 && PD.ProfileName(profile)
    requires Get(AsDict(p), "profile") == Some(Str(profile))
    requires AP.PolicyConforms(env.oracle, env.policy.value, AsDict(p))
    ensures AuthoriseRefusal(env, p.(status := s), PD.Approver(profile, env.policy.value.version)).None?
  {
    hide AP.RefusalsFor, AP.PolicyConforms, PD.IsPolicyApprover, PD.Approver, PD.ProfileName, AsDict,
         Lookup;
    var policy := env.policy.value;
    PD.ApproverRecognised(profile, policy.version);
    AP.NoRefusalIffConforms(env.oracle, policy, AsDict(p));
    RefusalsIgnoreStatus(env.oracle, policy, p, s);
  }

  lemma ScaffoldedIfPresentable(env: Env, start: Disk)
    requires Presentable(env, start)
    ensures Scaffolded(start)
  {
  }

  lemma FullTrace(
      sha: Digest, env: Env, d: Disk, approver: string, commit: string, m: Emission,
      now: string)
    requires GoodHash(sha) && Inv(sha, d.pkg, d.lin) && FreshApproval(sha, env, d, approver)
    requires Named(d.pkg) && m.Recorded?
    ensures var trace := ApproveTrace(sha, env, d, approver, commit, m, now);
            Next(sha, d, Here(env, Approve(approver, commit), m, now, 3)) == trace[|trace| - 1]
  {
    hide PackageHash, Inv, FreshApproval, ApproveTrace;
    FreshTrace(sha, env, d, approver, commit, m, now);
  }

  // ----- two runs that break what one might have hoped -----

  lemma QuietChain(sha: Digest, start: Disk, m: Emission, now: string, actor: string)
    requires NoApprovals(start.chain) && PackageHash(sha, start.pkg).Some?
    ensures NoApprovals(InReview(sha, start, m, now, actor).chain)
    ensures InReview(sha, start, m, now, actor).lin.approvals == start.lin.approvals
  {
    hide PackageHash, Snapshotted;
    OtherActions();
    EmissionStep(m, start.chain, Event("package.transitioned", []));
  }

  lemma NothingOnChain(chain: seq<Event>, hash: string, revision: int)
    requires NoApprovals(chain)
    ensures !ChainHas(chain, hash, revision)
  {
  }

  /** The same path with the approval's emitter muted: the ledger holds an approval the chain does not. */
  lemma MutedPathLeavesChain(
      sha: Digest, env: Env, start: Disk, actor: string, approver: string, commit: string, m: Emission,
      now: string)
    requires GoodHash(sha) && Presentable(env, start) && NoApprovals(start.chain)
    requires OpenQuestions(start.pkg) == Some(false) && env.human(approver)
    ensures !LedgerInChain(After(sha, start, Path(env, actor, approver, commit, m, Muted, now)))
  {
    hide Presentable, PackageHash, FreshApproval, Inv, After, InReview, ApproveTrace, Written,
         ChainHas, NoApprovals, ApprovalEvent;
    var run := Path(env, actor, approver, commit, m, Muted, now);
    AfterTwo(sha, start, run[0], run[1]);
    EntersReviewAs(sha, env, start, m, now, actor);
    FreshInReview(sha, env, start, m, now, actor, approver);
    var d := InReview(sha, start, m, now, actor);
    ScaffoldedIfPresentable(env, start);
    ReachableInv(sha, start, [run[0]]);
    FreshTrace(sha, env, d, approver, commit, Muted, now);
    var hash := PackageHash(sha, d.pkg).value;
    var l := ApprovedLedger(d, hash, approver, commit, Muted, now);
    LeftOfWritten(d, d.chain, l, Approved, 3);
    QuietChain(sha, start, m, now, actor);
    NothingOnChain(d.chain, hash, d.pkg.revision);
    var k := |d.lin.approvals|;
    assert l.approvals[k].approvedHash == hash && l.approvals[k].revision == d.pkg.revision;
  }

  /** Review, then the ordinary edge to approved. */
  function ByTransition(env: Env, actor: string, m: Emission, n: Emission, now: string): seq<Label> {
    [Here(env, Transition(ReadyForReview, actor), m, now, 3),
     Here(env, Transition(Approved, actor), n, now, 3)]
  }

  lemma MayTransition(sha: Digest, env: Env, d: Disk)
    requires Clean(sha, env.ok, d.pkg, d.lin) && d.lin.current == ReadyForReview && Named(d.pkg)
    ensures TransitionRefusal(sha, env, d, Approved).None?
  {
    hide PackageProblems, PackageHash, Clean, FollowUpRequired, Named;
    ValidIffClean(sha, env.ok, d.pkg, d.lin);
  }

  /** Every presentable package can be made `approved`, in both files, with no approval at all; and
  `verify_approval` says no to it, asked in any way. */
  lemma ApprovedWithoutApproval(
      sha: Digest, env: Env, start: Disk, actor: string, m: Emission, n: Emission, now: string,
      human: string -> bool, intact: bool, ledgerOnly: bool)
    requires Presentable(env, start)
    ensures var d := After(sha, start, ByTransition(env, actor, m, n, now));
            && d.lin.current == Approved && d.pkg.status == Approved && d.lin.approvals == []
            && VerifyAnswer(sha, human, d, intact, ledgerOnly) == NotVerified
  {
    hide Presentable, PackageHash, After, InReview, Written, TransitionRefusal, Clean, Named;
    var run := ByTransition(env, actor, m, n, now);
    AfterTwo(sha, start, run[0], run[1]);
    EntersReviewAs(sha, env, start, m, now, actor);
    CleanInReview(sha, env, start, m, now, actor);
    var d := InReview(sha, start, m, now, actor);
    ReviewShape(sha, env, start, m, now, actor);
    MayTransition(sha, env, d);
    var l := TransitionLedger(sha, d, Approved, n, now, actor);
    LeftOfWritten(d, n.Chain(d.chain, Event("package.transitioned", [])), l, Approved, 3);
    StatusNotHashed(sha, d.pkg, d.pkg.(status := Approved));
  }

  lemma ReviewShape(sha: Digest, env: Env, start: Disk, m: Emission, now: string, actor: string)
    requires Presentable(env, start) && PackageHash(sha, start.pkg).Some?
    ensures var d := InReview(sha, start, m, now, actor);
            d.lin.current == ReadyForReview && d.lin.approvals == [] && Named(d.pkg)
  {
    hide PackageHash, Snapshotted, ScanErrors;
  }

  // ----- a directory and a world in which all this happens -----

  const QUESTIONS := Map([Member(StrKey("open_questions"), List([]))])

  function SmallBody(): (b: Body)
    ensures b == [Member(StrKey("package_id"), Str("p")), Member(StrKey("scope"), QUESTIONS)]
  {
    var q := [Member(StrKey("open_questions"), List([]))];
    var b := [Member(StrKey("package_id"), Str("p")), Member(StrKey("scope"), Map(q))];
    assert BodyOk(b) by {
      SmallBodyOk();
    }
    b
  }

  lemma SmallBodyOk()
    ensures BodyOk([Member(StrKey("package_id"), Str("p")), Member(StrKey("scope"), QUESTIONS)])
  {
    var q := [Member(StrKey("open_questions"), List([]))];
    var b := [Member(StrKey("package_id"), Str("p")), Member(StrKey("scope"), QUESTIONS)];
    assert WellFormedMember(q[0]);
    assert WellFormed(QUESTIONS);
    assert WellFormedMember(b[0]) && WellFormedMember(b[1]);
    assert |"package_id"| == 10 && |"scope"| == 5 && |"revision"| == 8 && |"status"| == 6;
    assert forall i :: 0 <= i < |b| ==> b[i].key != StrKey("revision") && b[i].key != StrKey("status");
  }

  function SmallStart(): Disk {
    Disk(Package(SmallBody(), 1, Draft), Initial("then", "author"), [])
  }

  function Everyone(): Env {
    Env(p => true, s => true, None,
        AP.Oracle(s => None, s => s, vs => false, t => false, s => false))
  }

  lemma SmallPresentable()
    ensures Presentable(Everyone(), SmallStart())
    ensures OpenQuestions(SmallStart().pkg) == Some(false)
  {
    hide ScanErrors, Named, AsDict, SmallBody, OpenQuestions;
    SmallPrintable();
    ScanSilent(Map(AsDict(SmallStart().pkg)), []);
    SmallFields();
    assert SmallStart().lin == Initial("then", "author");
  }

  lemma SmallFields()
    ensures Named(SmallStart().pkg)
    ensures OpenQuestions(SmallStart().pkg) == Some(false)
  {
    hide Lookup, SmallBody;
    SmallLookups();
  }

  lemma SmallPrintable()
    ensures Printable(Map(AsDict(SmallStart().pkg))) && NoEmptyKeys(Map(AsDict(SmallStart().pkg)))
  {
    var q := [Member(StrKey("open_questions"), List([]))];
    assert |"open_questions"| > 0 && |"scope"| > 0 && |"package_id"| > 0 && |"revision"| > 0 && |"status"| > 0;
    assert Printable(List([])) && NoEmptyKeys(List([]));
    assert PrintableMember(q[0]) && NoEmptyKey(q[0]);
    assert Printable(QUESTIONS) && NoEmptyKeys(QUESTIONS);
    var ms := AsDict(SmallStart().pkg);
    assert ms == [Member(StrKey("package_id"), Str("p")), Member(StrKey("scope"), QUESTIONS),
                  Member(StrKey("revision"), Int(1)), Member(StrKey("status"), Str(StateName(Draft)))];
    forall i | 0 <= i < |ms| ensures PrintableMember(ms[i]) && NoEmptyKey(ms[i]) {
    }
  }

  lemma SmallLookups()
    ensures Get(SmallBody(), "package_id") == Some(Str("p"))
    ensures Get(SmallBody(), "scope") == Some(QUESTIONS)
    ensures Get(QUESTIONS.members, "open_questions") == Some(List([]))
  {
    var b := SmallBody();
    LookupOf(b, 0);
    LookupOf(b, 1);
    LookupOf(QUESTIONS.members, 0);
  }

  /** A digest that repeats nothing: every byte spelled as a character, after a mark. */
  function Spelled(bytes: seq<Utf8.Byte>): (r: string)
    ensures |r| == |bytes| + 1
    ensures forall i :: 0 <= i < |bytes| ==> r[i] == bytes[i] as int as char
  {
    if |bytes| == 0 then "." else [bytes[0] as int as char] + Spelled(bytes[1..])
  }

  lemma SpelledIsGoodHash()
    ensures GoodHash(Spelled)
  {
    forall a, b | Spelled(a) == Spelled(b) ensures a == b {
      forall i | 0 <= i < |a| ensures a[i] == b[i] {
        assert Spelled(a)[i] as int == a[i] as int && Spelled(b)[i] as int == b[i] as int;
      }
    }
  }

  /** A run of that directory that ends with the ledger outside the chain. */
  lemma SomeRunLeavesChain()
    ensures exists sha, start, run ::
              GoodHash(sha) && Scaffolded(start) && Orderly(run) && !LedgerInChain(After(sha, start, run))
  {
    hide After, Presentable, GoodHash, LedgerInChain;
    var env, start := Everyone(), SmallStart();
    SpelledIsGoodHash();
    SmallPresentable();
    MutedPathLeavesChain(Spelled, env, start, "author", "devon", "commit", Muted, "now");
    ScaffoldedIfPresentable(env, start);
    var run := Path(env, "author", "devon", "commit", Muted, Muted, "now");
    var sha: Digest := Spelled;
    assert GoodHash(sha) && Orderly(run) && !LedgerInChain(After(sha, start, run));
  }

  /** None of the hypotheses of the results about runs exclude the run they are about. */
  lemma SomeRunVerifies()
    ensures exists sha, human, start, run ::
              && GoodHash(sha) && Scaffolded(start) && Orderly(run) && Spoken(run)
              && NoApprovals(start.chain)
              && VerifyAnswer(sha, human, After(sha, start, run), true, false) == Verified
  {
    hide After, VerifyAnswer, Presentable, GoodHash;
    var env, start := Everyone(), SmallStart();
    var sha: Digest := Spelled;
    SpelledIsGoodHash();
    SmallPresentable();
    var heard := Recorded(None);
    ReviewThenApproveVerifies(sha, env, start, "author", "devon", "commit", heard, heard, "now");
    ScaffoldedIfPresentable(env, start);
    var run := Path(env, "author", "devon", "commit", heard, heard, "now");
    assert Orderly(run) && Spoken(run) && NoApprovals(start.chain);
    assert GoodHash(sha);
  }
}
