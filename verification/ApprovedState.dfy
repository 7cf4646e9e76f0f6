/** What `approved` says about an approval: by itself nothing, together with the last transition everything. */
module ApprovedState {
  import opened Values
  import opened Lifecycle
  import opened LineageLedger
  import opened Packages
  import opened Checks
  import opened Operations
  import opened LedgerInvariant
  import opened LedgerRuns
  import opened LedgerOutcomes

  /** Where the last recorded transition led; `draft` before there is one. */
  function LastInto(ts: seq<TransitionEntry>): State {
    if ts == [] then Draft else ts[|ts| - 1].dst
  }

  lemma ReplayEndsThere(ts: seq<TransitionEntry>)
    ensures Replayed(ts).Some? ==> Replayed(ts).value.0 == LastInto(ts)
  {
  }

  /** An approved package has an approval of its revision exactly when no transition led to `approved`. */
  ghost predicate ApprovedTells(l: Ledger) {
    l.current == Approved && |l.revisions| > 0 ==>
      (HasApproval(l, Last(l.revisions).revision) <==> LastInto(l.transitions) == ReadyForReview)
  }

  lemma NotYetApproved(sha: Digest, p: Package, l: Ledger)
    requires Inv(sha, p, l) && l.current == ReadyForReview
    ensures !HasApproval(l, Last(l.revisions).revision)
    ensures LastInto(l.transitions) == ReadyForReview
  {
    hide RevisionsGenuine, ApprovalsRecorded, TransitionsLegal, HasApproval;
    ReplayEndsThere(l.transitions);
  }

  lemma TransitionTells(
      sha: Digest, env: Env, d: Disk, to: State, m: Emission, now: string, actor: string)
    requires Inv(sha, d.pkg, d.lin) && TransitionRefusal(sha, env, d, to).None?
    ensures to == ReadyForReview ==> PackageHash(sha, d.pkg).Some?
    ensures ApprovedTells(TransitionLedger(sha, d, to, m, now, actor))
  {
    hide PackageHash, Snapshotted, Validates, Named, FollowUpRequired, Inv;
    HashForTransition(sha, env, d, to);
    if to == Approved {
      assert d.lin.current == ReadyForReview;
      NotYetApproved(sha, d.pkg, d.lin);
    }
  }

  lemma ApprovalTells(
      sha: Digest, env: Env, d: Disk, approver: string, commit: string, m: Emission, now: string)
    requires GoodHash(sha) && Inv(sha, d.pkg, d.lin) && FreshApproval(sha, env, d, approver)
    ensures PackageHash(sha, d.pkg).Some?
    ensures ApprovedTells(
              ApprovedLedger(d, PackageHash(sha, d.pkg).value, approver, commit, m, now))
  {
    hide PackageHash, Validates, Inv, ApproveRefusal;
    HashForApproval(sha, env, d, approver);
    ValidatesForApproval(sha, env, d, approver);
    CleanAtLast(sha, env, d);
    SomeRevision(sha, d.pkg, d.lin);
    NotYetApproved(sha, d.pkg, d.lin);
    var l := ApprovedLedger(d, PackageHash(sha, d.pkg).value, approver, commit, m, now);
    assert l.approvals[|d.lin.approvals|].revision == Last(l.revisions).revision;
  }

  lemma ApproveTraceTells(
      sha: Digest, env: Env, d: Disk, approver: string, commit: string, m: Emission, now: string, k: nat)
    requires GoodHash(sha) && Inv(sha, d.pkg, d.lin) && ApprovedTells(d.lin)
    requires k < |ApproveTrace(sha, env, d, approver, commit, m, now)|
    ensures ApprovedTells(ApproveTrace(sha, env, d, approver, commit, m, now)[k].lin)
  {
    hide PackageHash, Inv, ApproveRefusal, HasMatchingApproval, ApprovedTells, ApprovedLedger;
    if ApproveRefusal(sha, env, d, approver).None? {
      HashForApproval(sha, env, d, approver);
      if HasMatchingApproval(env.human, d.lin.approvals, PackageHash(sha, d.pkg).value) {
        ReplayWritesNothing(sha, env, d, approver);
      } else if d.lin.current == ReadyForReview {
        ApprovalTells(sha, env, d, approver, commit, m, now);
      }
    }
  }

  lemma TransitionTraceTells(
      sha: Digest, env: Env, d: Disk, to: State, m: Emission, now: string, actor: string, k: nat)
    requires Inv(sha, d.pkg, d.lin) && ApprovedTells(d.lin)
    requires k < |TransitionTrace(sha, env, d, to, m, now, actor)|
    ensures ApprovedTells(TransitionTrace(sha, env, d, to, m, now, actor)[k].lin)
  {
    hide PackageHash, Inv, TransitionRefusal, ApprovedTells, TransitionLedger;
    if TransitionRefusal(sha, env, d, to).None? {
      TransitionTells(sha, env, d, to, m, now, actor);
    }
  }

  lemma TraceTells(sha: Digest, env: Env, d: Disk, op: Op, m: Emission, now: string, k: nat)
    requires GoodHash(sha) && Inv(sha, d.pkg, d.lin) && ApprovedTells(d.lin)
    requires k < |Trace(sha, env, d, op, m, now)|
    ensures ApprovedTells(Trace(sha, env, d, op, m, now)[k].lin)
  {
    hide PackageHash, Inv, GoodHash, ApproveTrace, TransitionTrace, HasApproval, Snapshotted;
    match op
    case Transition(to, actor) => TransitionTraceTells(sha, env, d, to, m, now, actor, k);
    case Approve(approver, commit) => ApproveTraceTells(sha, env, d, approver, commit, m, now, k);
    case _ =>
  }

  /** After any orderly run, crashes included: an approved package has an approval of its last revision
  exactly when its last recorded transition led into review, that is, when it was not a transition that
  made it approved. */
  lemma ApprovedWithApprovalIff(sha: Digest, start: Disk, run: seq<Label>)
    requires GoodHash(sha) && Scaffolded(start) && Orderly(run)
    ensures var l := After(sha, start, run).lin;
            && |l.revisions| > 0
            && (l.current == Approved ==>
                  (HasApproval(l, Last(l.revisions).revision)
                   <==> LastInto(l.transitions) == ReadyForReview))
  {
    hide Inv, After, GoodHash, HasApproval;
    ReachableInv(sha, start, run);
    SomeRevision(sha, After(sha, start, run).pkg, After(sha, start, run).lin);
    RunTells(sha, start, run);
  }

  lemma SomeRevision(sha: Digest, p: Package, l: Ledger)
    requires Inv(sha, p, l)
    ensures |l.revisions| > 0
  {
  }

  lemma {:induction false} RunTells(sha: Digest, start: Disk, run: seq<Label>)
    requires GoodHash(sha) && Scaffolded(start) && Orderly(run)
    ensures ApprovedTells(After(sha, start, run).lin)
  {
    hide Inv, Trace, PackageHash, GoodHash, HasApproval;
    if |run| > 0 {
      var p, a := run[..|run| - 1], run[|run| - 1];
      var d := After(sha, start, p);
      RunTells(sha, start, p);
      ReachableInv(sha, start, p);
      match a
      case Here(env, op, m, now, cut) =>
        var k := LeftIsElement(Trace(sha, env, d, op, m, now), cut);
        TraceTells(sha, env, d, op, m, now, k);
      case _ =>
    }
  }
}
