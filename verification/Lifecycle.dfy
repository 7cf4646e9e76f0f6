/** `lifecycle.py`: the states of an intent package and the edges between them. */
module Lifecycle {

  datatype State =
    | Draft
    | NeedsClarification
    | ReadyForReview
    | Approved
    | Executable
    | InExecution
    | Verification
    | Completed
    | FollowUpDue
    | Blocked
    | Rejected
    | Closed
    | Cancelled
    | Failed
    | Superseded

  function StateName(s: State): string {
    match s
    case Draft => "draft"
    case NeedsClarification => "needs_clarification"
    case ReadyForReview => "ready_for_review"
    case Approved => "approved"
    case Executable => "executable"
    case InExecution => "in_execution"
    case Verification => "verification"
    case Completed => "completed"
    case FollowUpDue => "follow_up_due"
    case Blocked => "blocked"
    case Rejected => "rejected"
    case Closed => "closed"
    case Cancelled => "cancelled"
    case Failed => "failed"
    case Superseded => "superseded"
  }

  function LegalTransitions(src: State): set<State> {
    match src
    case Draft => {NeedsClarification, ReadyForReview, Cancelled}
    case NeedsClarification => {Draft, ReadyForReview, Cancelled}
    case ReadyForReview => {Approved, Rejected, NeedsClarification, Cancelled}
    case Approved => {Executable, Superseded, Cancelled}
    case Executable => {InExecution, Blocked, Superseded, Cancelled}
    case InExecution => {Verification, Blocked, Failed, Superseded, Cancelled}
    case Verification => {Completed, InExecution, Failed, Blocked, Superseded}
    case Completed => {FollowUpDue, Closed}
    case FollowUpDue => {Closed}
    case Blocked => {Executable, InExecution, Cancelled}
    case Rejected => {Draft}
    case Closed => {}
    case Cancelled => {}
    case Failed => {}
    case Superseded => {}
  }

  predicate IsLegalTransition(src: State, dst: State) {
    dst in LegalTransitions(src)
  }

  predicate Terminal(s: State) {
    s in {Closed, Cancelled, Failed, Superseded}
  }

  predicate DriftLocked(s: State) {
    s in {ReadyForReview, Approved, Executable, InExecution, Verification, Completed, FollowUpDue,
          Blocked, Rejected}
  }

  predicate ReviseLegalFrom(s: State) {
    s in {Draft, NeedsClarification, ReadyForReview, Rejected, Approved}
  }

  /** The states a package is in once its revision has been approved, or has been taken past
  review by hand. No edge leads from here back to a state where the revision is snapshotted. */
  predicate PastReview(s: State) {
    s in {Approved, Executable, InExecution, Verification, Completed, FollowUpDue, Blocked, Closed,
          Cancelled, Failed, Superseded}
  }

  /** Terminal states are the ones no edge leaves, and none of them can be revised. */
  lemma TerminalIffNoExit(s: State)
    ensures Terminal(s) <==> forall dst :: !IsLegalTransition(s, dst)
    ensures Terminal(s) ==> !ReviseLegalFrom(s)
  {
    if !Terminal(s) {
      assert match s
        case Rejected => IsLegalTransition(s, Draft)
        case Completed => IsLegalTransition(s, Closed)
        case FollowUpDue => IsLegalTransition(s, Closed)
        case Verification => IsLegalTransition(s, Completed)
        case _ => IsLegalTransition(s, Cancelled);
    }
  }

  /** Review is entered only from the two states where intent may still be edited, and a package
  past review never leaves that region by an edge. */
  lemma EdgesRespectReview(src: State, dst: State)
    requires IsLegalTransition(src, dst)
    ensures dst == ReadyForReview ==> src == Draft || src == NeedsClarification
    ensures PastReview(src) ==> PastReview(dst)
    ensures dst == Closed ==> src == Completed || src == FollowUpDue
    ensures DriftLocked(dst) && dst != ReadyForReview ==> DriftLocked(src)
    ensures dst == Superseded ==> src in {Approved, Executable, InExecution, Verification}
  {
  }

  // ----- the map, read backwards and along its paths -----

  /** The states from which each state is entered. */
  function EnteredFrom(dst: State): set<State> {
    match dst
    case Draft => {NeedsClarification, Rejected}
    case NeedsClarification => {Draft, ReadyForReview}
    case ReadyForReview => {Draft, NeedsClarification}
    case Approved => {ReadyForReview}
    case Rejected => {ReadyForReview}
    case Executable => {Approved, Blocked}
    case InExecution => {Executable, Verification, Blocked}
    case Verification => {InExecution}
    case Completed => {Verification}
    case FollowUpDue => {Completed}
    case Closed => {Completed, FollowUpDue}
    case Blocked => {Executable, InExecution, Verification}
    case Failed => {InExecution, Verification}
    case Superseded => {Approved, Executable, InExecution, Verification}
    case Cancelled => {Draft, NeedsClarification, ReadyForReview, Approved, Executable, InExecution, Blocked}
  }

  /** There are these edges and no others. */
  lemma EdgesInto(src: State, dst: State)
    ensures IsLegalTransition(src, dst) <==> src in EnteredFrom(dst)
  {
  }

  ghost predicate IsPath(p: seq<State>) {
    |p| > 0 && forall i :: 0 <= i < |p| - 1 ==> IsLegalTransition(p[i], p[i + 1])
  }

  /** Some path of edges leads from here into review. */
  ghost predicate LeadsToReview(s: State) {
    exists p :: IsPath(p) && p[0] == s && p[|p| - 1] == ReadyForReview
  }

  /** `work` is being done or has been done: these states come after approval only. */
  predicate AfterApproval(s: State) {
    s in {Executable, InExecution, Verification, Completed, FollowUpDue, Blocked, Closed, Failed,
          Superseded}
  }

  /** No path of edges gets from a draft to any of the states of work without passing review and then
  approval. */
  lemma {:induction false} WorkPassesApproval(p: seq<State>)
    requires IsPath(p) && p[0] == Draft && AfterApproval(p[|p| - 1])
    ensures exists i, j :: 0 <= i < j < |p| && p[i] == ReadyForReview && p[j] == Approved
  {
    hide IsLegalTransition, EnteredFrom;
    var n := |p| - 1;
    var q := p[..n];
    assert n > 0 && IsLegalTransition(p[n - 1], p[n]);
    IntoWork(p[n - 1], p[n]);
    assert IsPath(q) && q[|q| - 1] == p[n - 1];
    if p[n - 1] == Approved {
      assert n - 1 > 0 && IsLegalTransition(p[n - 2], p[n - 1]);
      IntoWork(p[n - 2], p[n - 1]);
      assert p[n - 2] == ReadyForReview;
    } else {
      WorkPassesApproval(q);
      var i, j :| 0 <= i < j < |q| && q[i] == ReadyForReview && q[j] == Approved;
      assert p[i] == ReadyForReview && p[j] == Approved;
    }
  }

  lemma IntoWork(src: State, dst: State)
    requires IsLegalTransition(src, dst)
    ensures AfterApproval(dst) ==> src == Approved || AfterApproval(src)
    ensures dst == Approved ==> src == ReadyForReview
  {
    EdgesInto(src, dst);
  }

  lemma {:induction false} PastReviewStays(p: seq<State>)
    requires IsPath(p) && PastReview(p[0])
    ensures PastReview(p[|p| - 1])
  {
    hide IsLegalTransition, PastReview;
    if |p| > 1 {
      EdgesRespectReview(p[0], p[1]);
      assert IsPath(p[1..]);
      PastReviewStays(p[1..]);
    }
  }

  lemma ReviewAhead(s: State)
    ensures LeadsToReview(s) <==> s in {Draft, NeedsClarification, ReadyForReview, Rejected}
  {
    if LeadsToReview(s) {
      var p :| IsPath(p) && p[0] == s && p[|p| - 1] == ReadyForReview;
      if PastReview(s) { PastReviewStays(p); }
    }
    if s == ReadyForReview {
      assert IsPath([s]);
    } else if s == Draft || s == NeedsClarification {
      var p := [s, ReadyForReview];
      assert IsPath(p) && p[|p| - 1] == ReadyForReview;
    } else if s == Rejected {
      var p := [s, Draft, ReadyForReview];
      assert IsPath(p) && p[|p| - 1] == ReadyForReview;
    }
  }

  /** A package may be revised while it can still come to review, and when it is approved but not yet at
  work; its content is locked from review until it is over. */
  lemma WhenRevisedWhenLocked(s: State)
    ensures ReviseLegalFrom(s) <==> s == Approved || LeadsToReview(s)
    ensures DriftLocked(s) <==> s != Draft && s != NeedsClarification && exists dst :: IsLegalTransition(s, dst)
  {
    ReviewAhead(s);
    TerminalIffNoExit(s);
    hide IsLegalTransition, LeadsToReview;
  }
}
