/** Consequences for whole runs: content frozen from review on, follow-ups honoured, terminal states
final, crashes refused rather than half-repeated, and where every ledger approval came from. */
module LedgerOutcomes {
  import opened Values
  import opened Lifecycle
  import opened LineageLedger
  import opened Packages
  import opened Checks
  import opened Operations
  import opened LedgerInvariant
  import opened LedgerRuns

  // ----- content is frozen from review on -----

  predicate EntersReview(d: Disk, e: Disk) {
    d.lin.current != ReadyForReview && e.lin.current == ReadyForReview
  }

  /** Entering review records the content of the moment; staying in a drift-locked state records
  nothing; and no drift-locked state is reached but through review. */
  ghost predicate ReviewStep(sha: Digest, d: Disk, e: Disk) {
    && (EntersReview(d, e) ==>
          |e.lin.revisions| > 0 && PackageHash(sha, d.pkg) == Some(Last(e.lin.revisions).hash))
    && (DriftLocked(e.lin.current) && !EntersReview(d, e) ==>
          DriftLocked(d.lin.current) && e.lin.revisions == d.lin.revisions)
  }

  lemma TransitionReview(
      sha: Digest, env: Env, d: Disk, to: State, m: Emission, now: string, actor: string,
      e: Disk)
    requires Inv(sha, d.pkg, d.lin) && TransitionRefusal(sha, env, d, to).None?
    requires e.lin == TransitionLedger(sha, d, to, m, now, actor)
    ensures ReviewStep(sha, d, e)
  {
    hide PackageHash, Validates, Snapshotted, FollowUpRequired, Replayed, RevisionsGenuine,
         ApprovalsRecorded, TransitionsLegal;
    EdgesRespectReview(d.lin.current, to);
    if to == ReadyForReview {
      SnapshotAtEnd(d.lin.revisions, d.pkg.revision, PackageHash(sha, d.pkg).value, now, actor);
    }
  }

  lemma TraceReview(
      sha: Digest, env: Env, d: Disk, op: Op, m: Emission, now: string, k: nat)
    requires Inv(sha, d.pkg, d.lin) && k < |Trace(sha, env, d, op, m, now)|
    ensures ReviewStep(sha, d, Trace(sha, env, d, op, m, now)[k])
  {
    hide Inv, TransitionRefusal, ApproveRefusal, SupersedeRefusal, PackageHash, Snapshotted,
         TransitionLedger, HasMatchingApproval, IsLegalTransition, ReviseLegalFrom;
    var e := Trace(sha, env, d, op, m, now)[k];
    match op
    case Transition(to, actor) =>
      if TransitionRefusal(sha, env, d, to).None? && k >= 2 {
        HashForTransition(sha, env, d, to);
        TransitionReview(sha, env, d, to, m, now, actor, e);
      }
    case Approve(approver, commit) => ApproveLeaves(sha, env, d, approver, commit, m, now, k);
    case _ =>
  }

  lemma ApproveLeaves(
      sha: Digest, env: Env, d: Disk, approver: string, commit: string, m: Emission,
      now: string, k: nat)
    requires k < |ApproveTrace(sha, env, d, approver, commit, m, now)|
    ensures var e := ApproveTrace(sha, env, d, approver, commit, m, now)[k];
            && e.lin.revisions == d.lin.revisions
            && (e.lin.current == d.lin.current
                || (e.lin.current == Approved && d.lin.current == ReadyForReview))
  {
    hide PackageHash, HasMatchingApproval, Validates, OpenQuestions, AuthoriseRefusal;
  }

  lemma NextReview(sha: Digest, d: Disk, a: Label)
    requires Inv(sha, d.pkg, d.lin) && !a.Tamper?
    ensures ReviewStep(sha, d, Next(sha, d, a))
  {
    hide Inv, Trace, PackageHash;
    match a
    case Here(env, op, m, now, cut) =>
      var k := LeftIsElement(Trace(sha, env, d, op, m, now), cut);
      TraceReview(sha, env, d, op, m, now, k);
    case _ =>
  }

  /** The package as it was at the last entry into review. */
  function Reviewed(sha: Digest, start: Disk, run: seq<Label>): Option<Package> {
    if |run| == 0 then None
    else
      var p := run[..|run| - 1];
      if EntersReview(After(sha, start, p), After(sha, start, run)) then
        Some(After(sha, start, p).pkg)
      else Reviewed(sha, start, p)
  }

  lemma {:induction false} LockedContentReviewed(sha: Digest, start: Disk, run: seq<Label>)
    requires GoodHash(sha) && Scaffolded(start) && Orderly(run)
    requires DriftLocked(After(sha, start, run).lin.current)
    ensures Reviewed(sha, start, run).Some?
    ensures |After(sha, start, run).lin.revisions| > 0
    ensures PackageHash(sha, Reviewed(sha, start, run).value)
            == Some(Last(After(sha, start, run).lin.revisions).hash)
  {
    hide Inv, Next, PackageHash, GoodHash;
    if |run| > 0 {
      var p := run[..|run| - 1];
      ReachableInv(sha, start, p);
      NextReview(sha, After(sha, start, p), run[|run| - 1]);
      if !EntersReview(After(sha, start, p), After(sha, start, run)) {
        LockedContentReviewed(sha, start, p);
      }
    }
  }

  /** Whenever validation passes in a drift-locked state -- so whenever `do_transition` succeeds there
  -- the file holds exactly the intent that was snapshotted at the last entry into review. */
  lemma ContentFrozenSinceReview(
      sha: Digest, start: Disk, run: seq<Label>, env: Env)
    requires GoodHash(sha) && Scaffolded(start) && Orderly(run)
    requires DriftLocked(After(sha, start, run).lin.current)
    requires Validates(sha, env, After(sha, start, run))
    ensures Reviewed(sha, start, run).Some?
    ensures Intent(After(sha, start, run).pkg) == Intent(Reviewed(sha, start, run).value)
    ensures PackageHash(sha, After(sha, start, run).pkg).Some?
    ensures PackageHash(sha, Reviewed(sha, start, run).value).Some?
  {
    hide Inv, PackageHash, Validates, Reviewed, After, Intent;
    var d := After(sha, start, run);
    ReachableInv(sha, start, run);
    LockedContentReviewed(sha, start, run);
    CleanAtLast(sha, env, d);
    HashBindsIntent(sha, d.pkg, Reviewed(sha, start, run).value);
  }

  // ----- follow-ups -----

  /** How a package comes to be closed. */
  lemma ClosingStep(
      sha: Digest, env: Env, d: Disk, op: Op, m: Emission, now: string, k: nat)
    requires k < |Trace(sha, env, d, op, m, now)| && d.lin.current != Closed
    requires Trace(sha, env, d, op, m, now)[k].lin.current == Closed
    ensures op.Transition? && TransitionRefusal(sha, env, d, Closed).None?
    ensures d.lin.current == Completed || d.lin.current == FollowUpDue
  {
    hide ApproveRefusal, SupersedeRefusal, PackageHash, Snapshotted, HasMatchingApproval, Validates,
         FollowUpRequired, IsLegalTransition;
    match op
    case Transition(to, actor) => EdgesIntoClosed(sha, env, d, to);
    case Approve(approver, commit) => ApproveLeaves(sha, env, d, approver, commit, m, now, k);
    case _ =>
  }

  lemma EdgesIntoClosed(sha: Digest, env: Env, d: Disk, to: State)
    ensures TransitionRefusal(sha, env, d, to).None? && to == Closed ==>
              d.lin.current == Completed || d.lin.current == FollowUpDue
  {
    hide Validates, FollowUpRequired, PackageHash;
  }

  lemma UnlessFollowUp(sha: Digest, env: Env, d: Disk)
    requires TransitionRefusal(sha, env, d, Closed).None? && d.lin.current == Completed
    ensures Validates(sha, env, d) && FollowUpRequired(d.pkg) == Some(false)
  {
    hide Validates, FollowUpRequired, PackageHash;
  }

  /** Every run that closes a package has been through review; and if the content last reviewed requires
  a follow-up, it has been through `follow_up_due`. */
  lemma {:induction false} FollowUpHonoured(sha: Digest, start: Disk, run: seq<Label>)
    requires GoodHash(sha) && Scaffolded(start) && Orderly(run)
    requires After(sha, start, run).lin.current == Closed
    ensures Reviewed(sha, start, run).Some?
    ensures FollowUpRequired(Reviewed(sha, start, run).value) == Some(true) ==>
              exists n: nat :: n <= |run| && After(sha, start, run[..n]).lin.current == FollowUpDue
  {
    hide Inv, Trace, PackageHash, FollowUpRequired, GoodHash, TransitionRefusal;
    if |run| > 0 {
      var p, a := run[..|run| - 1], run[|run| - 1];
      var d := After(sha, start, p);
      if d.lin.current == Closed {
        FollowUpHonoured(sha, start, p);
        if FollowUpRequired(Reviewed(sha, start, p).value) == Some(true) {
          var n: nat :| n <= |p| && After(sha, start, p[..n]).lin.current == FollowUpDue;
          assert p[..n] == run[..n];
        }
      } else {
        var k := LeftIsElement(Trace(sha, a.env, d, a.op, a.m, a.now), a.cut);
        ClosingStep(sha, a.env, d, a.op, a.m, a.now, k);
        LockedContentReviewed(sha, start, p);
        if d.lin.current == Completed {
          UnlessFollowUp(sha, a.env, d);
          ContentFrozenSinceReview(sha, start, p, a.env);
          SameFollowUp(sha, d.pkg, Reviewed(sha, start, p).value);
        } else {
          assert run[..|run| - 1] == p;
        }
      }
    }
  }

  lemma SameFollowUp(sha: Digest, p: Package, q: Package)
    requires Intent(p) == Intent(q)
    requires PackageHash(sha, p).Some? && PackageHash(sha, q).Some?
    requires FollowUpRequired(p).Some?
    ensures FollowUpRequired(p) == FollowUpRequired(q)
  {
    hide PackageHash, Intent;
    IntentBindsFlag(sha, p, q, "follow_up", "required");
  }

  // ----- terminal states -----

  /** No operation changes anything in a terminal state, wherever it is stopped. */
  lemma TerminalIsFinal(sha: Digest, env: Env, d: Disk, op: Op, m: Emission, now: string)
    requires Terminal(d.lin.current)
    ensures Trace(sha, env, d, op, m, now) == [d]
  {
    hide Validates, PackageHash, OpenQuestions, AuthoriseRefusal, FollowUpRequired, Named;
    match op
    case Approve(_, _) => TerminalNotReviewable(d.lin.current);
    case _ => TerminalIffNoExit(d.lin.current);
  }

  lemma TerminalNotReviewable(s: State)
    requires Terminal(s)
    ensures s != ReadyForReview && s != Approved
  {
  }

  // ----- crashes -----

  /** While the status line and the ledger disagree, transitions and approvals do nothing. */
  lemma MismatchRefused(
      sha: Digest, env: Env, d: Disk, to: State, actor: string, approver: string,
      commit: string, m: Emission, now: string)
    requires d.pkg.status != d.lin.current
    ensures TransitionRefusal(sha, env, d, to) == Some(InvalidPackage)
    ensures ApproveRefusal(sha, env, d, approver) == Some(InvalidPackage)
    ensures Trace(sha, env, d, Transition(to, actor), m, now) == [d]
    ensures Trace(sha, env, d, Approve(approver, commit), m, now) == [d]
  {
    hide PackageHash, IsLegalTransition, FollowUpRequired, OpenQuestions, AuthoriseRefusal, Clean;
    assert !Clean(sha, env.ok, d.pkg, d.lin) by { NotClean(sha, env, d); }
    ValidIffClean(sha, env.ok, d.pkg, d.lin);
  }

  lemma NotClean(sha: Digest, env: Env, d: Disk)
    requires d.pkg.status != d.lin.current
    ensures !Clean(sha, env.ok, d.pkg, d.lin)
  {
  }

  lemma FreshTrace(
      sha: Digest, env: Env, d: Disk, approver: string, commit: string, m: Emission,
      now: string)
    requires GoodHash(sha) && Inv(sha, d.pkg, d.lin) && FreshApproval(sha, env, d, approver)
    requires Named(d.pkg) && !m.Failed?
    ensures PackageHash(sha, d.pkg).Some? && d.pkg.status == ReadyForReview
    ensures var hash := PackageHash(sha, d.pkg).value;
            ApproveTrace(sha, env, d, approver, commit, m, now)
            == Written(d, m.Chain(d.chain, ApprovalEvent(d, hash, approver, commit)),
                       ApprovedLedger(d, hash, approver, commit, m, now), Approved)
  {
    hide PackageHash, HasMatchingApproval, Inv, ApproveRefusal, Validates;
    HashForApproval(sha, env, d, approver);
    if HasMatchingApproval(env.human, d.lin.approvals, PackageHash(sha, d.pkg).value) {
      ReplayWritesNothing(sha, env, d, approver);
    }
    ValidatesForApproval(sha, env, d, approver);
    CleanAtLast(sha, env, d);
  }

  lemma ValidatesForApproval(sha: Digest, env: Env, d: Disk, approver: string)
    requires ApproveRefusal(sha, env, d, approver).None?
    ensures Validates(sha, env, d)
  {
    hide Validates, OpenQuestions, AuthoriseRefusal, PackageHash;
  }

  /** `do_approve` killed between its two file writes leaves an approval that a retry does not complete:
  validation refuses the mismatch first, whoever retries. Setting the status line by hand completes it,
  and leaves exactly what the uninterrupted call would have left. */
  lemma CrashedApproval(
      sha: Digest, env: Env, d: Disk, approver: string, commit: string, m: Emission,
      now: string, again: Env, who: string, n: Emission)
    requires GoodHash(sha) && Inv(sha, d.pkg, d.lin) && FreshApproval(sha, env, d, approver)
    requires Named(d.pkg) && !m.Failed?
    ensures var trace := ApproveTrace(sha, env, d, approver, commit, m, now);
            && |trace| == 4
            && ApproveTrace(sha, again, trace[2], who, commit, n, now) == [trace[2]]
            && ApproveRefusal(sha, again, trace[2], who) == Some(InvalidPackage)
            && Next(sha, trace[2], Repair) == trace[3]
  {
    hide PackageHash, Inv, ApproveRefusal, FreshApproval;
    FreshTrace(sha, env, d, approver, commit, m, now);
    var crashed := ApproveTrace(sha, env, d, approver, commit, m, now)[2];
    MismatchRefused(sha, again, crashed, Draft, "", who, commit, n, now);
  }

  lemma ChainDoesNotMatter(sha: Digest, env: Env, d: Disk, chain: seq<Event>, approver: string)
    ensures FreshApproval(sha, env, d.(chain := chain), approver) == FreshApproval(sha, env, d, approver)
  {
    hide PackageProblems, PackageHash, OpenQuestions, AuthoriseRefusal;
  }

  /** `do_approve` killed after the emit and before the ledger is written leaves the approval on the
  chain alone. A retry goes through and emits it again: two equal events for one ledger entry. */
  lemma CrashedEmitRepeats(
      sha: Digest, env: Env, d: Disk, approver: string, commit: string, m: Emission,
      now: string, n: Emission, later: string)
    requires GoodHash(sha) && Inv(sha, d.pkg, d.lin) && FreshApproval(sha, env, d, approver)
    requires Named(d.pkg) && m.Recorded? && n.Recorded?
    ensures PackageHash(sha, d.pkg).Some?
    ensures var crashed := Next(sha, d, Here(env, Approve(approver, commit), m, now, 1));
            var done := Next(sha, crashed, Here(env, Approve(approver, commit), n, later, 3));
            var e := ApprovalEvent(d, PackageHash(sha, d.pkg).value, approver, commit);
            && crashed == d.(chain := d.chain + [e])
            && done.chain == d.chain + [e, e]
            && |done.lin.approvals| == |d.lin.approvals| + 1
            && done.lin.current == Approved == done.pkg.status
  {
    hide PackageHash, Inv, ApproveRefusal, FreshApproval, ApproveTrace, Written;
    FreshTrace(sha, env, d, approver, commit, m, now);
    var hash := PackageHash(sha, d.pkg).value;
    var e := ApprovalEvent(d, hash, approver, commit);
    LeftOfWritten(d, d.chain + [e], ApprovedLedger(d, hash, approver, commit, m, now), Approved, 1);
    var crashed := d.(chain := d.chain + [e]);
    ChainDoesNotMatter(sha, env, d, crashed.chain, approver);
    FreshTrace(sha, env, crashed, approver, commit, n, later);
    LeftOfWritten(crashed, crashed.chain + [e],
                  ApprovedLedger(crashed, hash, approver, commit, n, later), Approved, 3);
    assert d.chain + [e] + [e] == d.chain + [e, e];
  }

  /** Repeating `do_approve` on an approved package emits nothing and writes nothing, whoever asks and
  whatever became of the file in between. */
  lemma ApprovedStaysPut(
      sha: Digest, env: Env, d: Disk, approver: string, commit: string, m: Emission,
      now: string)
    requires d.lin.current == Approved
    ensures ApproveTrace(sha, env, d, approver, commit, m, now) == [d]
  {
    hide PackageHash, ApproveRefusal, HasMatchingApproval, Validates, Clean;
    if ApproveRefusal(sha, env, d, approver).None? {
      HashForApproval(sha, env, d, approver);
      ValidatesForApproval(sha, env, d, approver);
      MirrorsIfValid(sha, env, d);
    }
  }

  lemma MirrorsIfValid(sha: Digest, env: Env, d: Disk)
    requires Validates(sha, env, d)
    ensures d.pkg.status == d.lin.current
  {
    hide PackageProblems, PackageHash, LineageConsistent;
    ValidIffClean(sha, env.ok, d.pkg, d.lin);
  }

  /** A completed, recorded approval satisfies the read gate at once. */
  lemma ApprovedThenVerified(
      sha: Digest, env: Env, d: Disk, approver: string, commit: string, m: Emission,
      now: string, human: string -> bool)
    requires GoodHash(sha) && Inv(sha, d.pkg, d.lin) && FreshApproval(sha, env, d, approver)
    requires Named(d.pkg) && m.Recorded? && Recognised(human, approver)
    ensures var trace := ApproveTrace(sha, env, d, approver, commit, m, now);
            VerifyAnswer(sha, human, trace[|trace| - 1], true, false) == Verified
  {
    hide PackageHash, Inv, ApproveRefusal, FreshApproval, Recognised;
    FreshTrace(sha, env, d, approver, commit, m, now);
    var trace := ApproveTrace(sha, env, d, approver, commit, m, now);
    var done := trace[3];
    var hash := PackageHash(sha, d.pkg).value;
    StatusNotHashed(sha, d.pkg, done.pkg);
    var k := |d.lin.approvals|;
    assert done.lin.approvals[k].approvedHash == hash;
    var e := ApprovalEvent(d, hash, approver, commit);
    assert e.evidence[0].approvedHash == hash;
    assert CarriesApproval(e, hash, d.pkg.revision);
    assert done.chain[|d.chain|] == e;
  }

  /** The status line is no part of what is hashed. */
  lemma StatusNotHashed(sha: Digest, p: Package, q: Package)
    requires p.body == q.body && p.revision == q.revision
    ensures PackageHash(sha, p) == PackageHash(sha, q)
  {
    hide Without;
    CoreIsIntentCore(p);
    CoreIsIntentCore(q);
  }

  /** Revising takes an approval away at once: from the moment the revision line has moved, wherever the
  operation stops and whatever became of it, `verify_approval` is not true, with or without the chain. */
  lemma RevisingUnverifies(
      sha: Digest, d: Disk, m: Emission, now: string, actor: string, k: nat, human: string -> bool,
      intact: bool, ledgerOnly: bool)
    requires GoodHash(sha) && Inv(sha, d.pkg, d.lin)
    requires 0 < k < |ReviseTrace(sha, d, m, now, actor)|
    ensures VerifyAnswer(sha, human, ReviseTrace(sha, d, m, now, actor)[k], intact, ledgerOnly)
            == if PackageHash(sha, Bumped(d.pkg)).Some? then NotVerified else RaisedError
  {
    hide PackageHash, Inv, Snapshotted, HasMatchingApproval, ChainHas, Named;
    var e := ReviseTrace(sha, d, m, now, actor)[k];
    StatusNotHashed(sha, Bumped(d.pkg), e.pkg);
    NewNumberUnapproved(sha, d, human);
  }

  lemma NewNumberUnapproved(sha: Digest, d: Disk, human: string -> bool)
    requires GoodHash(sha) && Inv(sha, d.pkg, d.lin)
    ensures PackageHash(sha, Bumped(d.pkg)).Some? ==>
              !HasMatchingApproval(human, d.lin.approvals, PackageHash(sha, Bumped(d.pkg)).value)
  {
    hide PackageHash, ReplaysToCurrent, Recognised, HashOfRevision;
    var h := PackageHash(sha, Bumped(d.pkg));
    if h.Some? && HasMatchingApproval(human, d.lin.approvals, h.value) {
      var k :| 0 <= k < |d.lin.approvals| && d.lin.approvals[k].approvedHash == h.value;
      var a := d.lin.approvals[k];
      assert ApprovalOk(d.lin.revisions, a);
      var i :| 0 <= i < |d.lin.revisions| && d.lin.revisions[i].revision == a.revision
               && d.lin.revisions[i].hash == h.value;
      assert EntryGenuine(sha, d.lin.revisions[i]);
      HashNamesRevision(sha, Bumped(d.pkg), a.revision, h.value);
      AtMostLast(d.lin.revisions, i);
    }
  }

  /** `e` is `d` with another status, another position in the lifecycle, and perhaps one more event,
  which approves nothing. */
  ghost predicate MovedOnly(d: Disk, e: Disk) {
    && e.pkg.body == d.pkg.body && e.pkg.revision == d.pkg.revision
    && e.lin.approvals == d.lin.approvals
    && (e.chain == d.chain || exists v: Event :: e.chain == d.chain + [v] && v.action != APPROVED)
  }

  lemma MovedAnswersTheSame(
      sha: Digest, human: string -> bool, d: Disk, e: Disk, intact: bool, ledgerOnly: bool)
    requires MovedOnly(d, e)
    ensures VerifyAnswer(sha, human, e, intact, ledgerOnly) == VerifyAnswer(sha, human, d, intact, ledgerOnly)
  {
    hide PackageHash, HasMatchingApproval, CarriesApproval;
    StatusNotHashed(sha, d.pkg, e.pkg);
    forall hash ensures ChainHas(e.chain, hash, d.pkg.revision) <==> ChainHas(d.chain, hash, d.pkg.revision) {
      if e.chain != d.chain {
        var v :| e.chain == d.chain + [v] && v.action != APPROVED;
        NotAnApproval(d.chain, v, hash, d.pkg.revision);
      }
    }
  }

  lemma NotAnApproval(chain: seq<Event>, v: Event, hash: string, revision: int)
    requires v.action != APPROVED
    ensures ChainHas(chain + [v], hash, revision) <==> ChainHas(chain, hash, revision)
  {
    if ChainHas(chain, hash, revision) {
      ChainHasMore(chain, chain + [v], hash, revision);
    }
  }

  lemma TransitionMoves(
      sha: Digest, env: Env, d: Disk, to: State, m: Emission, now: string, actor: string,
      k: nat)
    requires k < |TransitionTrace(sha, env, d, to, m, now, actor)|
    ensures MovedOnly(d, TransitionTrace(sha, env, d, to, m, now, actor)[k])
  {
    hide TransitionRefusal, PackageHash, Snapshotted;
    OtherActions();
    EmissionStep(m, d.chain, Event("package.transitioned", []));
    if TransitionRefusal(sha, env, d, to).None? {
      HashForTransition(sha, env, d, to);
    }
  }

  lemma SupersedeMoves(
      d: Disk, newId: string, replacement: Option<Replacement>, m: Emission, now: string,
      actor: string, k: nat)
    requires k < |SupersedeTrace(d, newId, replacement, m, now, actor)|
    ensures MovedOnly(d, SupersedeTrace(d, newId, replacement, m, now, actor)[k])
  {
    hide SupersedeRefusal;
    OtherActions();
    EmissionStep(m, d.chain, Event("package.superseded", []));
  }

  /** The lifecycle decides nothing about approval: no transition -- the ordinary edge from review to
  approved included -- and no supersession changes what `verify_approval` answers, wherever it stops. */
  lemma MovingNeverVerifies(
      sha: Digest, env: Env, d: Disk, op: Op, m: Emission, now: string, k: nat,
      human: string -> bool, intact: bool, ledgerOnly: bool)
    requires op.Transition? || op.Supersede?
    requires k < |Trace(sha, env, d, op, m, now)|
    ensures VerifyAnswer(sha, human, Trace(sha, env, d, op, m, now)[k], intact, ledgerOnly)
            == VerifyAnswer(sha, human, d, intact, ledgerOnly)
  {
    hide TransitionTrace, SupersedeTrace, MovedOnly, VerifyAnswer;
    match op {
      case Transition(to, actor) => TransitionMoves(sha, env, d, to, m, now, actor, k);
      case Supersede(newId, replacement, actor) => SupersedeMoves(d, newId, replacement, m, now, actor, k);
    }
    MovedAnswersTheSame(sha, human, d, Trace(sha, env, d, op, m, now)[k], intact, ledgerOnly);
  }

  /** A ledger entry written by hand satisfies the ledger-only check and nothing more: with no event of
  that hash and revision on the chain the full check says no. */
  lemma ForgedEntryCaught(
      sha: Digest, start: Disk, p: Package, l: Ledger, human: string -> bool, intact: bool)
    requires PackageHash(sha, p).Some?
    requires !ChainHas(start.chain, PackageHash(sha, p).value, p.revision)
    requires HasMatchingApproval(human, l.approvals, PackageHash(sha, p).value)
    ensures var d := Next(sha, start, Tamper(p, l));
            && VerifyAnswer(sha, human, d, intact, true) == Verified
            && VerifyAnswer(sha, human, d, intact, false) == NotVerified
  {
    hide PackageHash, HasMatchingApproval;
  }

  // ----- where ledger approvals come from -----

  /** What an operation does to the ledger's approvals. */
  ghost predicate ApprovalsStep(
      sha: Digest, env: Env, d: Disk, op: Op, m: Emission, e: Disk)
  {
    || (e.lin.approvals == d.lin.approvals && d.chain <= e.chain)
    || (&& op.Approve? && FreshApproval(sha, env, d, op.approver) && !m.Failed?
        && PackageHash(sha, d.pkg).Some?
        && (exists now :: e.lin.approvals == d.lin.approvals +
              [ApprovalEntry(d.pkg.revision, PackageHash(sha, d.pkg).value, op.approver, now, op.commit,
                             m.Id())])
        && e.chain == m.Chain(d.chain,
             ApprovalEvent(d, PackageHash(sha, d.pkg).value, op.approver, op.commit)))
  }

  lemma TraceApprovals(
      sha: Digest, env: Env, d: Disk, op: Op, m: Emission, now: string, k: nat)
    requires k < |Trace(sha, env, d, op, m, now)|
    ensures ApprovalsStep(sha, env, d, op, m, Trace(sha, env, d, op, m, now)[k])
  {
    hide TransitionRefusal, SupersedeRefusal, PackageHash, Snapshotted, IsLegalTransition,
         ReviseLegalFrom, ApproveTrace, FreshApproval;
    match op
    case Approve(approver, commit) => ApproveTraceApprovals(sha, env, d, approver, commit, m, now, k);
    case Transition(to, actor) =>
      if TransitionRefusal(sha, env, d, to).None? {
        HashForTransition(sha, env, d, to);
      }
    case _ =>
  }

  lemma ApproveTraceApprovals(
      sha: Digest, env: Env, d: Disk, approver: string, commit: string, m: Emission, now: string, k: nat)
    requires k < |ApproveTrace(sha, env, d, approver, commit, m, now)|
    ensures ApprovalsStep(sha, env, d, Approve(approver, commit), m,
                          ApproveTrace(sha, env, d, approver, commit, m, now)[k])
  {
    hide ApproveRefusal, PackageHash, HasMatchingApproval;
    if ApproveRefusal(sha, env, d, approver).None? {
      HashForApproval(sha, env, d, approver);
    }
  }

  /** Some step here approved, in good order, content of this entry's hash and revision, and the entry,
  which carries the approver who did, is the one that step added to the ledger. */
  ghost predicate EntryExplained(
      sha: Digest, start: Disk, run: seq<Label>, a: ApprovalEntry)
  {
    exists i: nat :: ExplainsEntry(sha, start, run, i, a)
  }

  ghost predicate ExplainsEntry(
      sha: Digest, start: Disk, run: seq<Label>, i: nat, a: ApprovalEntry)
  {
    && i < |run| && run[i].Here?
    && Approves(sha, start, run, i, a.approvedHash, a.revision)
    && run[i].op.approver == a.approver
    && InOrder(sha, run[i].env, After(sha, start, run[..i]).pkg, After(sha, start, run[..i]).lin,
               a.approver)
    && After(sha, start, run[..i + 1]).lin.approvals == After(sha, start, run[..i]).lin.approvals + [a]
  }

  lemma EntryStillExplained(sha: Digest, start: Disk, run: seq<Label>, a: ApprovalEntry)
    requires |run| > 0 && EntryExplained(sha, start, run[..|run| - 1], a)
    ensures EntryExplained(sha, start, run, a)
  {
    hide Approves, InOrder, After;
    var p := run[..|run| - 1];
    var i: nat :| ExplainsEntry(sha, start, p, i, a);
    ApprovesInPrefix(sha, start, run, i, a.approvedHash, a.revision);
    assert p[..i] == run[..i] && p[..i + 1] == run[..i + 1];
    assert ExplainsEntry(sha, start, run, i, a);
  }

  /** In an orderly run every approval in the ledger was given here, in good order. If the approver was
  not a person then the policy in force described the content approved. */
  lemma {:induction false} EveryApprovalExplained(
      sha: Digest, start: Disk, run: seq<Label>, a: ApprovalEntry)
    requires Scaffolded(start) && Orderly(run) && a in After(sha, start, run).lin.approvals
    ensures EntryExplained(sha, start, run, a)
  {
    hide EntryExplained, Trace, PackageHash, InOrder, FreshApproval;
    if |run| > 0 {
      var p, s := run[..|run| - 1], run[|run| - 1];
      var d, e := After(sha, start, p), After(sha, start, run);
      if a in d.lin.approvals {
        EveryApprovalExplained(sha, start, p, a);
        EntryStillExplained(sha, start, run, a);
      } else {
        var k := LeftIsElement(Trace(sha, s.env, d, s.op, s.m, s.now), s.cut);
        TraceApprovals(sha, s.env, d, s.op, s.m, s.now, k);
        NewestEntry(sha, s.env, d, s.op, s.m, e, a);
        FreshInOrder(sha, s.env, d, s.op.approver);
        ExplainsNow(sha, start, run, a);
      }
    }
  }

  /** In an orderly run even the ledger half of the gate, which is all that is asked when the chain cannot
  be reached, means an approval in this directory: of the intent and the revision number that are in the
  file now, in good order, and the ledger's entry for it is the one that approval wrote. */
  lemma VerifiedMeansApprovedHere(
      sha: Digest, start: Disk, run: seq<Label>, human: string -> bool, intact: bool, ledgerOnly: bool)
    requires Injective(sha) && Scaffolded(start) && Orderly(run)
    requires VerifyAnswer(sha, human, After(sha, start, run), intact, ledgerOnly) == Verified
    ensures var p := After(sha, start, run).pkg;
            exists i: nat, a :: ExplainsEntry(sha, start, run, i, a)
                                && Some(a.approvedHash) == PackageHash(sha, p)
                                && ApprovedAs(sha, start, run, i, p)
  {
    hide PackageHash, After, ExplainsEntry, ApprovedAs, Scaffolded, Orderly, Injective;
    var d := After(sha, start, run);
    var k := MatchInLedger(sha, human, d, intact, ledgerOnly);
    var a := d.lin.approvals[k];
    EveryApprovalExplained(sha, start, run, a);
    var i: nat :| ExplainsEntry(sha, start, run, i, a);
    ExplainedMeans(sha, start, run, i, a, d.pkg);
  }

  /** ... and nothing else stands in the way: in an orderly run the gate is open exactly when an approval in
  this directory, by an approver recognised now, wrote an entry with the hash of the content there now,
  and, unless only the ledger is asked, the chain can be consulted and has its event. */
  lemma VerifiedHereIff(
      sha: Digest, start: Disk, run: seq<Label>, human: string -> bool, intact: bool, ledgerOnly: bool)
    requires Scaffolded(start) && Orderly(run)
    requires PackageHash(sha, After(sha, start, run).pkg).Some?
    ensures var d := After(sha, start, run);
            var hash := PackageHash(sha, d.pkg).value;
            VerifyAnswer(sha, human, d, intact, ledgerOnly) == Verified <==>
              && (exists i: nat, a :: ExplainsEntry(sha, start, run, i, a)
                                      && a.approvedHash == hash && Recognised(human, a.approver))
              && (ledgerOnly || (intact && ChainHas(d.chain, hash, d.pkg.revision)))
  {
    hide PackageHash, After, ExplainsEntry, ChainHas, Recognised, Scaffolded, Orderly;
    var d := After(sha, start, run);
    var hash := PackageHash(sha, d.pkg).value;
    if HasMatchingApproval(human, d.lin.approvals, hash) {
      var k :| 0 <= k < |d.lin.approvals| && d.lin.approvals[k].approvedHash == hash
               && Recognised(human, d.lin.approvals[k].approver);
      EveryApprovalExplained(sha, start, run, d.lin.approvals[k]);
    }
    forall i: nat, a | ExplainsEntry(sha, start, run, i, a) && a.approvedHash == hash
                       && Recognised(human, a.approver)
      ensures HasMatchingApproval(human, d.lin.approvals, hash)
    {
      EntryStays(sha, start, run, i, a);
    }
  }

  lemma EntryStays(sha: Digest, start: Disk, run: seq<Label>, i: nat, a: ApprovalEntry)
    requires Orderly(run) && ExplainsEntry(sha, start, run, i, a)
    ensures a in After(sha, start, run).lin.approvals
  {
    hide After, PackageHash, Approves, InOrder;
    var before := After(sha, start, run[..i]).lin.approvals;
    HistoryGrows(sha, start, run, i + 1);
    assert After(sha, start, run[..i + 1]).lin.approvals[|before|] == a;
    assert After(sha, start, run).lin.approvals[|before|] == a;
  }

  lemma MatchInLedger(sha: Digest, human: string -> bool, d: Disk, intact: bool, ledgerOnly: bool)
    returns (k: nat)
    requires VerifyAnswer(sha, human, d, intact, ledgerOnly) == Verified
    ensures k < |d.lin.approvals| && PackageHash(sha, d.pkg) == Some(d.lin.approvals[k].approvedHash)
  {
    hide PackageHash, Recognised, ChainHas;
    var hash := PackageHash(sha, d.pkg).value;
    k :| 0 <= k < |d.lin.approvals| && d.lin.approvals[k].approvedHash == hash;
  }

  lemma ExplainedMeans(
      sha: Digest, start: Disk, run: seq<Label>, i: nat, a: ApprovalEntry, p: Package)
    requires Injective(sha) && ExplainsEntry(sha, start, run, i, a)
    requires PackageHash(sha, p) == Some(a.approvedHash)
    ensures ApprovedAs(sha, start, run, i, p)
  {
    hide PackageHash, After, InOrder, FreshApproval, Intent;
    var s := Subject(sha, start, run, i).pkg;
    HashBindsIntent(sha, s, p);
    IntentBindsFields(s, p, "");
    ApprovesMeans(sha, start, run, i, a.approvedHash, p);
  }

  lemma NewestEntry(
      sha: Digest, env: Env, d: Disk, op: Op, m: Emission, e: Disk, a: ApprovalEntry)
    requires ApprovalsStep(sha, env, d, op, m, e) && a in e.lin.approvals && a !in d.lin.approvals
    ensures op.Approve? && FreshApproval(sha, env, d, op.approver)
    ensures PackageHash(sha, d.pkg) == Some(a.approvedHash)
    ensures a.revision == d.pkg.revision && a.approver == op.approver
    ensures e.lin.approvals == d.lin.approvals + [a]
  {
    hide PackageHash, FreshApproval;
  }

  lemma ExplainsNow(sha: Digest, start: Disk, run: seq<Label>, a: ApprovalEntry)
    requires |run| > 0 && run[|run| - 1].Here? && run[|run| - 1].op.Approve?
    requires var d, s := After(sha, start, run[..|run| - 1]), run[|run| - 1];
             && FreshApproval(sha, s.env, d, s.op.approver)
             && PackageHash(sha, d.pkg) == Some(a.approvedHash)
             && a.revision == d.pkg.revision && a.approver == s.op.approver
             && InOrder(sha, s.env, d.pkg, d.lin, a.approver)
             && After(sha, start, run).lin.approvals == d.lin.approvals + [a]
    ensures EntryExplained(sha, start, run, a)
  {
    hide PackageHash, FreshApproval, InOrder, After;
    assert run[..|run|] == run;
    assert ExplainsEntry(sha, start, run, |run| - 1, a);
  }

  // ----- the ledger is contained in the chain -----

  ghost predicate LedgerInChain(d: Disk) {
    forall i :: 0 <= i < |d.lin.approvals| ==>
      ChainHas(d.chain, d.lin.approvals[i].approvedHash, d.lin.approvals[i].revision)
  }

  lemma ChainHasMore(chain: seq<Event>, more: seq<Event>, hash: string, revision: int)
    requires ChainHas(chain, hash, revision) && chain <= more
    ensures ChainHas(more, hash, revision)
  {
    var j :| 0 <= j < |chain| && CarriesApproval(chain[j], hash, revision);
    assert more[j] == chain[j];
  }

  /** One approval: the ledger stays inside the chain exactly when the event was really recorded, or an
  earlier event of the same hash and revision stands in for it. */
  lemma ApprovalInChainIff(
      d: Disk, m: Emission, hash: string, approver: string, commit: string, now: string, e: Disk)
    requires LedgerInChain(d) && !m.Failed?
    requires e.lin == ApprovedLedger(d, hash, approver, commit, m, now)
    requires e.chain == m.Chain(d.chain, ApprovalEvent(d, hash, approver, commit))
    ensures LedgerInChain(e) <==> m.Recorded? || ChainHas(d.chain, hash, d.pkg.revision)
  {
    hide ChainHas;
    var n := |d.lin.approvals|;
    var event := ApprovalEvent(d, hash, approver, commit);
    assert e.lin.approvals[n].approvedHash == hash && e.lin.approvals[n].revision == d.pkg.revision;
    if m.Recorded? {
      EventInChain(d.chain, event, hash, d.pkg.revision);
    }
    if ChainHas(e.chain, hash, d.pkg.revision) {
      forall i | 0 <= i < |e.lin.approvals|
        ensures ChainHas(e.chain, e.lin.approvals[i].approvedHash, e.lin.approvals[i].revision)
      {
        if i < n {
          assert e.lin.approvals[i] == d.lin.approvals[i];
          ChainHasMore(d.chain, e.chain, d.lin.approvals[i].approvedHash, d.lin.approvals[i].revision);
        }
      }
    }
  }

  lemma EventInChain(chain: seq<Event>, e: Event, hash: string, revision: int)
    requires e.action == APPROVED && |e.evidence| == 1
    requires e.evidence[0].approvedHash == hash && e.evidence[0].revision == revision
    ensures ChainHas(chain + [e], hash, revision)
  {
    assert CarriesApproval(e, hash, revision);
    assert (chain + [e])[|chain|] == e;
  }

  /** No event and no approval is ever lost. */
  lemma StepGrows(sha: Digest, d: Disk, a: Label)
    requires !a.Tamper?
    ensures d.chain <= Next(sha, d, a).chain && d.lin.approvals <= Next(sha, d, a).lin.approvals
  {
    hide Trace, PackageHash, FreshApproval;
    match a
    case Here(env, op, m, now, cut) =>
      var k := LeftIsElement(Trace(sha, env, d, op, m, now), cut);
      TraceApprovals(sha, env, d, op, m, now, k);
    case Elsewhere(env, pkg, lin, op, m, now, cut) =>
      var there := Disk(pkg, lin, d.chain);
      var k := LeftIsElement(Trace(sha, env, there, op, m, now), cut);
      TraceChain(sha, env, there, op, m, now, k);
    case _ =>
  }

  lemma {:induction false} HistoryGrows(sha: Digest, start: Disk, run: seq<Label>, n: nat)
    requires Orderly(run) && n <= |run|
    ensures After(sha, start, run[..n]).chain <= After(sha, start, run).chain
    ensures After(sha, start, run[..n]).lin.approvals <= After(sha, start, run).lin.approvals
    decreases |run|
  {
    hide Next;
    if n == |run| {
      assert run[..n] == run;
    } else {
      var p := run[..|run| - 1];
      assert p[..n] == run[..n];
      HistoryGrows(sha, start, p, n);
      StepGrows(sha, After(sha, start, p), run[|run| - 1]);
    }
  }

  /** Step `i` is an approval here through the null emitter, and added `a` to the ledger. */
  ghost predicate MutedAppend(sha: Digest, start: Disk, run: seq<Label>, i: nat, a: ApprovalEntry) {
    && i < |run| && run[i].Here? && run[i].op.Approve? && run[i].m.Muted?
    && After(sha, start, run[..i + 1]).lin.approvals == After(sha, start, run[..i]).lin.approvals + [a]
  }

  /** An entry whose event was not muted has it on the chain. */
  lemma HeardInChain(sha: Digest, start: Disk, run: seq<Label>, i: nat, a: ApprovalEntry)
    requires Orderly(run) && ExplainsEntry(sha, start, run, i, a) && !run[i].m.Muted?
    ensures ChainHas(After(sha, start, run).chain, a.approvedHash, a.revision)
  {
    hide Trace, PackageHash, FreshApproval, ChainHas, InOrder, ApprovalEvent;
    var q, s := run[..i + 1], run[i];
    var d := After(sha, start, run[..i]);
    assert q[..i] == run[..i];
    var k := LeftIsElement(Trace(sha, s.env, d, s.op, s.m, s.now), s.cut);
    TraceApprovals(sha, s.env, d, s.op, s.m, s.now, k);
    var event := ApprovalEvent(d, a.approvedHash, s.op.approver, s.op.commit);
    assert After(sha, start, q).chain == d.chain + [event];
    EventOfHash(d, a.approvedHash, s.op.approver, s.op.commit);
    EventInChain(d.chain, event, a.approvedHash, a.revision);
    HistoryGrows(sha, start, run, i + 1);
    ChainHasMore(After(sha, start, q).chain, After(sha, start, run).chain, a.approvedHash, a.revision);
  }

  lemma EventOfHash(d: Disk, hash: string, approver: string, commit: string)
    ensures var e := ApprovalEvent(d, hash, approver, commit);
            && e.action == APPROVED && |e.evidence| == 1
            && e.evidence[0].approvedHash == hash && e.evidence[0].revision == d.pkg.revision
  {
  }

  /** At every crash point of every orderly run, the ledger is inside the chain exactly when each approval
  made here through the null emitter has an equal event on the chain from somewhere. */
  lemma LedgerInChainIff(sha: Digest, start: Disk, run: seq<Label>)
    requires Scaffolded(start) && Orderly(run)
    ensures LedgerInChain(After(sha, start, run)) <==>
              forall i: nat, a :: MutedAppend(sha, start, run, i, a) ==>
                ChainHas(After(sha, start, run).chain, a.approvedHash, a.revision)
  {
    hide After, ExplainsEntry, ChainHas, Scaffolded;
    var e := After(sha, start, run);
    forall i: nat, a | MutedAppend(sha, start, run, i, a)
      ensures a in e.lin.approvals
    {
      var before, after := After(sha, start, run[..i]).lin.approvals, After(sha, start, run[..i + 1]).lin.approvals;
      HistoryGrows(sha, start, run, i + 1);
      assert after[|before|] == a && e.lin.approvals[|before|] == a;
    }
    forall k | 0 <= k < |e.lin.approvals|
      ensures ChainHas(e.chain, e.lin.approvals[k].approvedHash, e.lin.approvals[k].revision)
              || exists i: nat :: MutedAppend(sha, start, run, i, e.lin.approvals[k])
    {
      var a := e.lin.approvals[k];
      EveryApprovalExplained(sha, start, run, a);
      var i: nat :| ExplainsEntry(sha, start, run, i, a);
      HeardOrMuted(sha, start, run, i, a);
    }
  }

  lemma HeardOrMuted(sha: Digest, start: Disk, run: seq<Label>, i: nat, a: ApprovalEntry)
    requires Orderly(run) && ExplainsEntry(sha, start, run, i, a)
    ensures ChainHas(After(sha, start, run).chain, a.approvedHash, a.revision)
            || MutedAppend(sha, start, run, i, a)
  {
    hide After, PackageHash, FreshApproval, InOrder, ChainHas;
    if !run[i].m.Muted? { HeardInChain(sha, start, run, i, a); }
  }

  /** No approval here is made through the null emitter. */
  ghost predicate Spoken(run: seq<Label>) {
    forall i :: 0 <= i < |run| && run[i].Here? && run[i].op.Approve? ==> !run[i].m.Muted?
  }

  /** In particular: without the null emitter, each approval in the ledger has its event on the chain. */
  lemma LedgerAlwaysInChain(sha: Digest, start: Disk, run: seq<Label>)
    requires Scaffolded(start) && Orderly(run) && Spoken(run)
    ensures LedgerInChain(After(sha, start, run))
  {
    hide After, ChainHas, LedgerInChain, Scaffolded, Orderly;
    LedgerInChainIff(sha, start, run);
  }
}
