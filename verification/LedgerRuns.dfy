/** Whole runs of a package directory: operations stopped at any point, hand edits, repairs, other
directories sharing the event chain, and outright tampering with the two files. */
module LedgerRuns {
  import opened Values
  import opened Lifecycle
  import opened LineageLedger
  import opened Packages
  import opened Checks
  import opened Operations
  import opened LedgerInvariant
  import AP = ApprovalPolicy
  import PD = PolicyDocument

  // ----- runs -----

  /** One thing that happens. `cut` is how many durable changes an operation gets to make. */
  datatype Label =
    | Here(env: Env, op: Op, m: Emission, now: string, cut: nat)
    | Elsewhere(env: Env, pkg: Package, lin: Ledger, op: Op, m: Emission, now: string, cut: nat)
    | Edit(body: Body)
    | Repair
    | Noise(event: Event)
    | Tamper(pkg: Package, lin: Ledger)

  /** An operation here or in another directory; a hand edit that leaves the revision and status lines
  alone; the status line set back to the ledger's state; an event that approves nothing; or both files
  replaced by anything at all. The chain is only ever appended to. */
  function Next(sha: Digest, d: Disk, a: Label): Disk {
    match a
    case Here(env, op, m, now, cut) => Left(Trace(sha, env, d, op, m, now), cut)
    case Elsewhere(env, pkg, lin, op, m, now, cut) =>
      d.(chain := Left(Trace(sha, env, Disk(pkg, lin, d.chain), op, m, now), cut).chain)
    case Edit(body) => d.(pkg := d.pkg.(body := body))
    case Repair => d.(pkg := d.pkg.(status := d.lin.current))
    case Noise(e) => if e.action == APPROVED then d else d.(chain := d.chain + [e])
    case Tamper(pkg, lin) => Disk(pkg, lin, d.chain)
  }

  function After(sha: Digest, start: Disk, run: seq<Label>): Disk {
    if |run| == 0 then start
    else Next(sha, After(sha, start, run[..|run| - 1]), run[|run| - 1])
  }

  /** Nobody edits the ledger, or the revision and status lines, behind the operations' backs. */
  ghost predicate Orderly(run: seq<Label>) {
    forall i :: 0 <= i < |run| ==> !run[i].Tamper?
  }

  /** A directory as `create` leaves it. */
  ghost predicate Scaffolded(d: Disk) {
    d.pkg.revision == 1 && exists at, author :: d.lin == Initial(at, author)
  }

  lemma LeftIsElement(trace: seq<Disk>, cut: nat) returns (k: nat)
    requires |trace| > 0
    ensures k < |trace| && Left(trace, cut) == trace[k]
  {
    k := if cut < |trace| then cut else |trace| - 1;
  }

  // ----- the invariant in every reachable state -----

  lemma NextKeeps(sha: Digest, d: Disk, a: Label)
    requires GoodHash(sha) && Inv(sha, d.pkg, d.lin) && !a.Tamper?
    ensures var e := Next(sha, d, a);
            Inv(sha, e.pkg, e.lin) && Preserves(d.lin, e.lin)
  {
    hide Inv, Trace, Preserves;
    PreservesItself(d.lin);
    match a
    case Here(env, op, m, now, cut) =>
      var k := LeftIsElement(Trace(sha, env, d, op, m, now), cut);
      TraceKeeps(sha, env, d, op, m, now, k);
    case Edit(body) => SameRevision(sha, d.pkg, d.pkg.(body := body), d.lin);
    case Repair => SameRevision(sha, d.pkg, d.pkg.(status := d.lin.current), d.lin);
    case _ =>
  }

  lemma {:induction false} ReachableInv(sha: Digest, start: Disk, run: seq<Label>)
    requires GoodHash(sha) && Scaffolded(start) && Orderly(run)
    ensures Inv(sha, After(sha, start, run).pkg, After(sha, start, run).lin)
  {
    hide Inv, Next;
    if |run| == 0 {
      var at, author :| start.lin == Initial(at, author);
      InitialInv(sha, start.pkg, at, author);
    } else {
      var n := |run| - 1;
      ReachableInv(sha, start, run[..n]);
      NextKeeps(sha, After(sha, start, run[..n]), run[n]);
    }
  }

  /** Crash states included: revisions strictly increase, every recorded hash is one of content that
  carries the number it is recorded under, every approval names a recorded revision with the same
  hash, and the package file never falls behind its ledger. */
  lemma ReachableLedger(sha: Digest, start: Disk, run: seq<Label>)
    requires GoodHash(sha) && Scaffolded(start) && Orderly(run)
    ensures var d := After(sha, start, run);
            && Increasing(d.lin.revisions)
            && (forall i :: 0 <= i < |d.lin.revisions| ==> EntryGenuine(sha, d.lin.revisions[i]))
            && (forall i :: 0 <= i < |d.lin.approvals| ==>
                  ApprovalOk(d.lin.revisions, d.lin.approvals[i]))
            && |d.lin.revisions| > 0 && Last(d.lin.revisions).revision <= d.pkg.revision
            && LineageConsistent(d.lin)
  {
    hide After, EntryGenuine, ApprovalOk, Replayed;
    ReachableInv(sha, start, run);
    var l := After(sha, start, run).lin;
    forall i | 0 <= i < |l.revisions| ensures l.revisions[i].revision > 0 {
      if i > 0 { assert l.revisions[0].revision < l.revisions[i].revision; }
    }
  }

  /** The ledger replays: from `draft`, entry by entry, to its current state, with exactly one gap from
  review to approved for each approval. */
  lemma ReachableReplay(sha: Digest, start: Disk, run: seq<Label>)
    requires GoodHash(sha) && Scaffolded(start) && Orderly(run)
    ensures ReplaysToCurrent(After(sha, start, run).lin)
  {
    hide After, ReplaysToCurrent;
    ReachableInv(sha, start, run);
  }

  lemma PreservesTransitive(a: Ledger, b: Ledger, c: Ledger)
    requires Preserves(a, b) && Preserves(b, c)
    ensures Preserves(a, c)
  {
    forall i | 0 <= i < |a.revisions| && HasApproval(a, a.revisions[i].revision)
      ensures i < |c.revisions| && c.revisions[i] == a.revisions[i]
    {
      var k :| 0 <= k < |a.approvals| && a.approvals[k].revision == a.revisions[i].revision;
      assert b.approvals[k] == a.approvals[k];
      assert HasApproval(b, b.revisions[i].revision);
    }
  }

  /** From the moment a revision is approved its entry never changes again, and no approval is lost. */
  lemma {:induction false} ApprovedRevisionFrozen(
      sha: Digest, start: Disk, run: seq<Label>, n: nat)
    requires GoodHash(sha) && Scaffolded(start) && Orderly(run) && n <= |run|
    ensures Preserves(After(sha, start, run[..n]).lin, After(sha, start, run).lin)
    decreases |run|
  {
    hide Inv, Next, Preserves;
    if n == |run| {
      assert run[..n] == run;
      PreservesItself(After(sha, start, run).lin);
    } else {
      var p := run[..|run| - 1];
      assert p[..n] == run[..n];
      ApprovedRevisionFrozen(sha, start, p, n);
      ReachableInv(sha, start, p);
      NextKeeps(sha, After(sha, start, p), run[|run| - 1]);
      PreservesTransitive(After(sha, start, run[..n]).lin, After(sha, start, p).lin,
                          After(sha, start, run).lin);
    }
  }

  // ----- who put an approval on the chain -----

  /** A completed guard of `do_approve`, about to emit. */
  ghost predicate FreshApproval(sha: Digest, env: Env, d: Disk, approver: string) {
    ApproveRefusal(sha, env, d, approver).None? && d.lin.current == ReadyForReview
  }

  /** The directory a label works on. */
  function Subject(sha: Digest, start: Disk, run: seq<Label>, i: nat): Disk
    requires i < |run|
  {
    if run[i].Elsewhere? then Disk(run[i].pkg, run[i].lin, After(sha, start, run[..i]).chain)
    else After(sha, start, run[..i])
  }

  /** Step `i` is a `do_approve` that got past every check. */
  ghost predicate ApprovalAct(sha: Digest, start: Disk, run: seq<Label>, i: nat) {
    && i < |run| && (run[i].Here? || run[i].Elsewhere?) && run[i].op.Approve?
    && FreshApproval(sha, run[i].env, Subject(sha, start, run, i), run[i].op.approver)
  }

  /** Step `i` approved content of this hash and revision. */
  ghost predicate Approves(
      sha: Digest, start: Disk, run: seq<Label>, i: nat, hash: string, revision: int)
  {
    && ApprovalAct(sha, start, run, i)
    && PackageHash(sha, Subject(sha, start, run, i).pkg) == Some(hash)
    && Subject(sha, start, run, i).pkg.revision == revision
  }

  /** Step `i` did, and the event at place `j` of the chain is the one it put there. */
  ghost predicate EmitsAt(
      sha: Digest, start: Disk, run: seq<Label>, i: nat, j: nat, hash: string, revision: int)
  {
    && Approves(sha, start, run, i, hash, revision)
    && |After(sha, start, run[..i]).chain| == j
    && After(sha, start, run[..i + 1]).chain
       == After(sha, start, run[..i]).chain
          + [ApprovalEvent(Subject(sha, start, run, i), hash, run[i].op.approver, run[i].op.commit)]
  }

  lemma ApprovesInPrefix(
      sha: Digest, start: Disk, run: seq<Label>, i: nat, hash: string, revision: int)
    requires |run| > 0 && Approves(sha, start, run[..|run| - 1], i, hash, revision)
    ensures Approves(sha, start, run, i, hash, revision)
  {
    hide PackageHash, FreshApproval;
    assert run[..|run| - 1][..i] == run[..i];
  }

  lemma EmitsInPrefix(
      sha: Digest, start: Disk, run: seq<Label>, i: nat, j: nat, hash: string, revision: int)
    requires |run| > 0 && EmitsAt(sha, start, run[..|run| - 1], i, j, hash, revision)
    ensures EmitsAt(sha, start, run, i, j, hash, revision)
  {
    hide Approves, After, ApprovalEvent;
    ApprovesInPrefix(sha, start, run, i, hash, revision);
    assert i < |run| - 1 by { ActInRun(sha, start, run[..|run| - 1], i, hash, revision); }
    assert run[..|run| - 1][..i] == run[..i] && run[..|run| - 1][..i + 1] == run[..i + 1];
  }

  lemma ActInRun(sha: Digest, start: Disk, run: seq<Label>, i: nat, hash: string, revision: int)
    requires Approves(sha, start, run, i, hash, revision)
    ensures i < |run| && (run[i].Here? || run[i].Elsewhere?) && run[i].op.Approve?
  {
    hide PackageHash, FreshApproval;
  }

  /** What an operation can add to the chain: nothing, an event that approves nothing, or the approval
  `do_approve` has just found in order. */
  ghost predicate ChainStep(
      sha: Digest, env: Env, d: Disk, op: Op, chain: seq<Event>)
  {
    || chain == d.chain
    || exists e :: chain == d.chain + [e]
                   && (e.action == APPROVED ==>
                         op.Approve? && FreshApproval(sha, env, d, op.approver)
                         && e == ApprovalEvent(d, PackageHash(sha, d.pkg).value, op.approver, op.commit))
  }

  lemma OtherActions()
    ensures "package.transitioned" != APPROVED
    ensures "package.revised" != APPROVED
    ensures "package.superseded" != APPROVED
  {
    assert |APPROVED| == 16;
  }

  lemma EmissionStep(m: Emission, chain: seq<Event>, e: Event)
    ensures m.Chain(chain, e) == chain || m.Chain(chain, e) == chain + [e]
  {
  }

  lemma TraceChain(
      sha: Digest, env: Env, d: Disk, op: Op, m: Emission, now: string, k: nat)
    requires k < |Trace(sha, env, d, op, m, now)|
    ensures ChainStep(sha, env, d, op, Trace(sha, env, d, op, m, now)[k].chain)
  {
    hide TransitionRefusal, ApproveRefusal, SupersedeRefusal, PackageHash, Snapshotted,
         TransitionLedger, ApprovedLedger, HasMatchingApproval, IsLegalTransition, ReviseLegalFrom,
         ApproveTrace;
    OtherActions();
    match op
    case Transition(_, _) => EmissionStep(m, d.chain, Event("package.transitioned", []));
    case Revise(_) => EmissionStep(m, d.chain, Event("package.revised", []));
    case Supersede(_, _, _) => EmissionStep(m, d.chain, Event("package.superseded", []));
    case Approve(approver, commit) => ApproveTraceChain(sha, env, d, approver, commit, m, now, k);
  }

  lemma ApproveTraceChain(
      sha: Digest, env: Env, d: Disk, approver: string, commit: string, m: Emission,
      now: string, k: nat)
    requires k < |ApproveTrace(sha, env, d, approver, commit, m, now)|
    ensures ChainStep(sha, env, d, Approve(approver, commit),
                      ApproveTrace(sha, env, d, approver, commit, m, now)[k].chain)
  {
    hide ApproveRefusal, PackageHash, ApprovedLedger, HasMatchingApproval;
    if ApproveRefusal(sha, env, d, approver).None? {
      HashForApproval(sha, env, d, approver);
      EmissionStep(m, d.chain, ApprovalEvent(d, PackageHash(sha, d.pkg).value, approver, commit));
    }
  }

  /** Every approval on the chain was put there, at its place, by a step that approved just that. */
  ghost predicate ChainExplained(sha: Digest, start: Disk, run: seq<Label>) {
    forall j: nat, hash, revision ::
      j < |After(sha, start, run).chain|
      && CarriesApproval(After(sha, start, run).chain[j], hash, revision) ==>
        exists i: nat :: EmitsAt(sha, start, run, i, j, hash, revision)
  }

  ghost predicate NoApprovals(chain: seq<Event>) {
    forall j :: 0 <= j < |chain| ==> chain[j].action != APPROVED
  }

  lemma ExplainedSame(sha: Digest, start: Disk, run: seq<Label>)
    requires |run| > 0 && ChainExplained(sha, start, run[..|run| - 1])
    requires After(sha, start, run).chain == After(sha, start, run[..|run| - 1]).chain
    ensures ChainExplained(sha, start, run)
  {
    hide CarriesApproval, EmitsAt, Next;
    var p := run[..|run| - 1];
    forall j: nat, hash, revision |
      j < |After(sha, start, run).chain|
      && CarriesApproval(After(sha, start, run).chain[j], hash, revision)
      ensures exists i: nat :: EmitsAt(sha, start, run, i, j, hash, revision)
    {
      var i: nat :| EmitsAt(sha, start, p, i, j, hash, revision);
      EmitsInPrefix(sha, start, run, i, j, hash, revision);
    }
  }

  lemma ExplainedMore(sha: Digest, start: Disk, run: seq<Label>, e: Event)
    requires |run| > 0 && ChainExplained(sha, start, run[..|run| - 1])
    requires After(sha, start, run).chain == After(sha, start, run[..|run| - 1]).chain + [e]
    requires forall hash, revision :: CarriesApproval(e, hash, revision) ==>
               EmitsAt(sha, start, run, |run| - 1, |After(sha, start, run).chain| - 1, hash, revision)
    ensures ChainExplained(sha, start, run)
  {
    hide CarriesApproval, EmitsAt, Next;
    var p := run[..|run| - 1];
    var before, chain := After(sha, start, p).chain, After(sha, start, run).chain;
    forall j: nat, hash, revision | j < |chain| && CarriesApproval(chain[j], hash, revision)
      ensures exists i: nat :: EmitsAt(sha, start, run, i, j, hash, revision)
    {
      if j < |before| {
        assert chain[j] == before[j];
        var i: nat :| EmitsAt(sha, start, p, i, j, hash, revision);
        EmitsInPrefix(sha, start, run, i, j, hash, revision);
      }
    }
  }

  lemma ExplainedStep(
      sha: Digest, start: Disk, run: seq<Label>, d: Disk)
    requires |run| > 0 && ChainExplained(sha, start, run[..|run| - 1])
    requires var a := run[|run| - 1];
             && (a.Here? || a.Elsewhere?) && d == Subject(sha, start, run, |run| - 1)
             && ChainStep(sha, a.env, d, a.op, After(sha, start, run).chain)
    ensures ChainExplained(sha, start, run)
  {
    hide ChainExplained, PackageHash, FreshApproval, After;
    var a := run[|run| - 1];
    var chain := After(sha, start, run).chain;
    if chain == d.chain {
      ExplainedSame(sha, start, run);
    } else {
      if a.op.Approve? && FreshApproval(sha, a.env, d, a.op.approver) {
        FreshHasHash(sha, a.env, d, a.op.approver);
      }
      var e :| chain == d.chain + [e]
               && (e.action == APPROVED ==>
                     a.op.Approve? && FreshApproval(sha, a.env, d, a.op.approver)
                     && e == ApprovalEvent(d, PackageHash(sha, d.pkg).value, a.op.approver, a.op.commit));
      assert run[..|run|] == run;
      forall hash, revision | CarriesApproval(e, hash, revision)
        ensures EmitsAt(sha, start, run, |run| - 1, |chain| - 1, hash, revision)
      {
        FreshHasHash(sha, a.env, d, a.op.approver);
      }
      ExplainedMore(sha, start, run, e);
    }
  }

  lemma FreshHasHash(sha: Digest, env: Env, d: Disk, approver: string)
    requires FreshApproval(sha, env, d, approver)
    ensures PackageHash(sha, d.pkg).Some?
  {
    HashForApproval(sha, env, d, approver);
  }

  lemma {:induction false} ChainAlwaysExplained(sha: Digest, start: Disk, run: seq<Label>)
    requires NoApprovals(start.chain)
    ensures ChainExplained(sha, start, run)
  {
    hide ChainExplained, ChainStep, Trace;
    if |run| == 0 {
      ExplainedAtStart(sha, start);
      assert run == [];
    } else {
      var p, a := run[..|run| - 1], run[|run| - 1];
      ChainAlwaysExplained(sha, start, p);
      var d := Subject(sha, start, run, |run| - 1);
      match a
      case Here(env, op, m, now, cut) =>
        var k := LeftIsElement(Trace(sha, env, d, op, m, now), cut);
        TraceChain(sha, env, d, op, m, now, k);
        ExplainedStep(sha, start, run, d);
      case Elsewhere(env, pkg, lin, op, m, now, cut) =>
        var k := LeftIsElement(Trace(sha, env, d, op, m, now), cut);
        TraceChain(sha, env, d, op, m, now, k);
        ExplainedStep(sha, start, run, d);
      case Noise(e) =>
        if e.action == APPROVED {
          ExplainedSame(sha, start, run);
        } else {
          ExplainedMore(sha, start, run, e);
        }
      case _ => ExplainedSame(sha, start, run);
    }
  }

  lemma ExplainedAtStart(sha: Digest, start: Disk)
    requires NoApprovals(start.chain)
    ensures ChainExplained(sha, start, [])
  {
  }

  // ----- what a true answer of verify_approval means -----

  /** The approver is a person, or the signature of the policy in force for a package of this profile
  whose shape that policy describes. */
  ghost predicate Authorised(env: Env, p: Package, approver: string) {
    || env.human(approver)
    || (&& env.policy.Some?
        && (exists profile :: Get(AsDict(p), "profile") == Some(Str(profile))
                              && approver == PD.Approver(profile, env.policy.value.version))
        && AP.PolicyConforms(env.oracle, env.policy.value, AsDict(p)))
  }

  /** Everything an approval is supposed to have been given on. */
  ghost predicate InOrder(sha: Digest, env: Env, p: Package, l: Ledger, approver: string) {
    && Clean(sha, env.ok, p, l)
    && l.current == ReadyForReview
    && OpenQuestions(p) == Some(false)
    && Authorised(env, p, approver)
  }

  lemma AuthoriseMeans(env: Env, p: Package, approver: string)
    requires AuthoriseRefusal(env, p, approver).None?
    ensures Authorised(env, p, approver)
  {
    hide AP.RefusalsFor, AP.PolicyConforms, PD.IsPolicyApprover, PD.Approver, AsDict;
    if !env.human(approver) {
      AP.NoRefusalIffConforms(env.oracle, env.policy.value, AsDict(p));
    }
  }

  lemma FreshInOrder(sha: Digest, env: Env, d: Disk, approver: string)
    requires FreshApproval(sha, env, d, approver)
    ensures InOrder(sha, env, d.pkg, d.lin, approver)
  {
    hide PackageProblems, Clean, OpenQuestions, AuthoriseRefusal, Authorised, PackageHash;
    ValidIffClean(sha, env.ok, d.pkg, d.lin);
    AuthoriseMeans(env, d.pkg, approver);
  }

  /** Step `i` approved, in good order, content with the intent and revision number of `p`. */
  ghost predicate ApprovedAs(
      sha: Digest, start: Disk, run: seq<Label>, i: nat, p: Package)
  {
    && ApprovalAct(sha, start, run, i)
    && var s := Subject(sha, start, run, i);
       && Intent(s.pkg) == Intent(p)
       && s.pkg.revision == p.revision
       && InOrder(sha, run[i].env, s.pkg, s.lin, run[i].op.approver)
  }

  lemma EmitsApproves(
      sha: Digest, start: Disk, run: seq<Label>, i: nat, j: nat, hash: string, revision: int)
    requires EmitsAt(sha, start, run, i, j, hash, revision)
    ensures Approves(sha, start, run, i, hash, revision)
  {
    hide Approves, After;
  }

  lemma VerifiedOnChain(
      sha: Digest, human: string -> bool, d: Disk, intact: bool)
    requires VerifyAnswer(sha, human, d, intact, false) == Verified
    ensures PackageHash(sha, d.pkg).Some? && intact
    ensures HasMatchingApproval(human, d.lin.approvals, PackageHash(sha, d.pkg).value)
    ensures ChainHas(d.chain, PackageHash(sha, d.pkg).value, d.pkg.revision)
  {
    hide PackageHash, HasMatchingApproval, ChainHas;
  }

  lemma ApprovesMeans(
      sha: Digest, start: Disk, run: seq<Label>, i: nat, hash: string, p: Package)
    requires Injective(sha) && PackageHash(sha, p) == Some(hash)
    requires Approves(sha, start, run, i, hash, p.revision)
    ensures ApprovedAs(sha, start, run, i, p)
  {
    hide PackageHash, InOrder, FreshApproval, Intent, After;
    var s := Subject(sha, start, run, i);
    HashBindsIntent(sha, s.pkg, p);
    FreshInOrder(sha, run[i].env, s, run[i].op.approver);
  }

  /** Whatever was done to the two files, a true answer of `verify_approval` means this: some earlier
  `do_approve`, run by an authorised approver on a clean package in review with no open questions,
  approved content with exactly the intent and the revision number that is in the file now, and put
  the event on the chain that bears its hash. */
  lemma VerifiedMeansApproved(
      sha: Digest, start: Disk, run: seq<Label>, human: string -> bool, intact: bool)
    requires Injective(sha) && NoApprovals(start.chain)
    requires VerifyAnswer(sha, human, After(sha, start, run), intact, false) == Verified
    ensures PackageHash(sha, After(sha, start, run).pkg).Some?
    ensures var p := After(sha, start, run).pkg;
            exists i: nat, j: nat ::
              && EmitsAt(sha, start, run, i, j, PackageHash(sha, p).value, p.revision)
              && ApprovedAs(sha, start, run, i, p)
  {
    hide PackageHash, CarriesApproval, ApprovedAs, EmitsAt, VerifyAnswer, HasMatchingApproval, Next,
         Injective;
    var d := After(sha, start, run);
    VerifiedOnChain(sha, human, d, intact);
    var hash := PackageHash(sha, d.pkg).value;
    ChainAlwaysExplained(sha, start, run);
    var j: nat :| j < |d.chain| && CarriesApproval(d.chain[j], hash, d.pkg.revision);
    var i: nat :| EmitsAt(sha, start, run, i, j, hash, d.pkg.revision);
    EmitsApproves(sha, start, run, i, j, hash, d.pkg.revision);
    ApprovesMeans(sha, start, run, i, hash, d.pkg);
  }
}
