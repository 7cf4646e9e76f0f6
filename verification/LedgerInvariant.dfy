/** What every durable change to a package directory keeps, at whatever point an operation stops. */
module LedgerInvariant {
  import opened Values
  import opened Lifecycle
  import opened LineageLedger
  import opened Packages
  import opened Checks
  import opened Operations

  /** SHA-256 as this model takes it: no two inputs share a digest, and a digest is not empty. */
  ghost predicate GoodHash(sha: Digest) {
    Injective(sha) && forall t :: sha(t) != ""
  }

  /** `hash` is the hash of some content that carries that revision number. */
  ghost predicate HashOfRevision(sha: Digest, revision: int, hash: string) {
    exists p: Package :: p.revision == revision && PackageHash(sha, p) == Some(hash)
  }

  /** The scaffold's first entry has no hash yet; every other hash is one of content of that number. */
  ghost predicate EntryGenuine(sha: Digest, e: RevisionEntry) {
    e.hash == "" || HashOfRevision(sha, e.revision, e.hash)
  }

  ghost predicate RevisionsGenuine(sha: Digest, revisions: seq<RevisionEntry>) {
    forall i :: 0 <= i < |revisions| ==> EntryGenuine(sha, revisions[i])
  }

  ghost predicate RevisionsOrdered(revisions: seq<RevisionEntry>) {
    |revisions| > 0 && Increasing(revisions) && revisions[0].revision >= 1
  }

  ghost predicate ApprovalsRecorded(l: Ledger) {
    forall i :: 0 <= i < |l.approvals| ==> ApprovalOk(l.revisions, l.approvals[i])
  }

  ghost predicate HasApproval(l: Ledger, revision: int) {
    exists i :: 0 <= i < |l.approvals| && l.approvals[i].revision == revision
  }

  ghost predicate TransitionsLegal(l: Ledger) {
    forall i :: 0 <= i < |l.transitions| ==> TransitionOk(l.transitions[i])
  }

  /** Where the recorded transitions lead from `draft`, and how often an approval had to step in:
  `do_approve` moves a package from review to approved without recording a transition. */
  function Replayed(ts: seq<TransitionEntry>): Option<(State, nat)> {
    if |ts| == 0 then Some((Draft, 0))
    else
      var t := ts[|ts| - 1];
      match Replayed(ts[..|ts| - 1])
      case None => None
      case Some((s, gaps)) =>
        if t.src == s then Some((t.dst, gaps))
        else if s == ReadyForReview && t.src == Approved then Some((t.dst, gaps + 1))
        else None
  }

  /** The ledger replays to its current state, with one gap for each approval. */
  ghost predicate ReplaysToCurrent(l: Ledger) {
    match Replayed(l.transitions)
    case None => false
    case Some((s, gaps)) =>
      || (s == l.current && gaps == |l.approvals|)
      || (s == ReadyForReview && l.current == Approved && gaps + 1 == |l.approvals|)
  }

  ghost predicate Inv(sha: Digest, p: Package, l: Ledger) {
    && RevisionsOrdered(l.revisions)
    && Last(l.revisions).revision <= p.revision
    && RevisionsGenuine(sha, l.revisions)
    && ApprovalsRecorded(l)
    && TransitionsLegal(l)
    && (HasApproval(l, Last(l.revisions).revision) ==> PastReview(l.current))
    && ReplaysToCurrent(l)
  }

  /** Approvals are only added, and the entry of an approved revision is never touched again. */
  ghost predicate Preserves(l: Ledger, after: Ledger) {
    && l.approvals <= after.approvals
    && forall i :: 0 <= i < |l.revisions| && HasApproval(l, l.revisions[i].revision) ==>
         i < |after.revisions| && after.revisions[i] == l.revisions[i]
  }

  // ----- the start -----

  lemma InitialInv(sha: Digest, p: Package, at: string, author: string)
    requires p.revision >= 1
    ensures Inv(sha, p, Initial(at, author))
  {
  }

  // ----- the hash of a clean package names its revision -----

  lemma HashNamesRevision(sha: Digest, p: Package, revision: int, hash: string)
    requires GoodHash(sha) && PackageHash(sha, p) == Some(hash)
    requires hash == "" || HashOfRevision(sha, revision, hash)
    ensures p.revision == revision && hash != ""
  {
    hide PackageHash, Intent;
    HashNotEmpty(sha, p);
    var q: Package :| q.revision == revision && PackageHash(sha, q) == Some(hash);
    HashBindsIntent(sha, p, q);
    IntentBindsFields(p, q, "");
  }

  lemma HashNotEmpty(sha: Digest, p: Package)
    requires GoodHash(sha) && PackageHash(sha, p).Some?
    ensures PackageHash(sha, p).value != ""
  {
  }

  /** A clean package in review or beyond is the content of its ledger's last revision. */
  lemma CleanAtLast(sha: Digest, env: Env, d: Disk)
    requires GoodHash(sha) && Inv(sha, d.pkg, d.lin)
    requires Validates(sha, env, d) && DriftLocked(d.lin.current)
    ensures PackageHash(sha, d.pkg) == Some(Last(d.lin.revisions).hash)
    ensures d.pkg.revision == Last(d.lin.revisions).revision
    ensures d.pkg.status == d.lin.current
  {
    hide PackageHash, HashOfRevision, ReplaysToCurrent, PackageProblems, LineageConsistent;
    ValidIffClean(sha, env.ok, d.pkg, d.lin);
    LatestIsLast(d.lin.revisions);
    var top := Last(d.lin.revisions);
    assert EntryGenuine(sha, top);
    HashNamesRevision(sha, d.pkg, top.revision, top.hash);
  }

  // ----- pieces of a ledger that change -----

  lemma RecordsKept(before: seq<RevisionEntry>, after: seq<RevisionEntry>, r: int, h: string)
    requires Records(before, r, h)
    requires forall i :: 0 <= i < |before| && before[i].revision == r ==>
               i < |after| && after[i] == before[i]
    ensures Records(after, r, h)
  {
    var i :| 0 <= i < |before| && before[i].revision == r && before[i].hash == h;
    assert after[i] == before[i];
  }

  lemma AtMostLast(revisions: seq<RevisionEntry>, i: nat)
    requires Increasing(revisions) && i < |revisions|
    ensures revisions[i].revision <= Last(revisions).revision
    ensures i < |revisions| - 1 ==> revisions[i].revision < Last(revisions).revision
  {
  }

  /** Snapshotting at or above the last number keeps everything, when the last number has no approval
  or the snapshot is of a higher one. */
  lemma SnapshotKeeps(
      sha: Digest, l: Ledger, p: Package, at: string, author: string, after: Ledger)
    requires RevisionsOrdered(l.revisions) && RevisionsGenuine(sha, l.revisions)
    requires ApprovalsRecorded(l) && PackageHash(sha, p).Some?
    requires Last(l.revisions).revision <= p.revision
    requires HasApproval(l, Last(l.revisions).revision) ==> Last(l.revisions).revision < p.revision
    requires after.approvals == l.approvals
    requires after.revisions
          == Snapshotted(l.revisions, p.revision, PackageHash(sha, p).value, at, author)
    ensures RevisionsOrdered(after.revisions) && RevisionsGenuine(sha, after.revisions)
    ensures Last(after.revisions).revision == p.revision
    ensures Last(after.revisions).hash == PackageHash(sha, p).value
    ensures ApprovalsRecorded(after) && Preserves(l, after)
    ensures !HasApproval(after, p.revision)
  {
    hide PackageHash, Snapshotted;
    var before, r := l.revisions, after.revisions;
    SnapshotAtEnd(before, p.revision, PackageHash(sha, p).value, at, author);
    assert HashOfRevision(sha, p.revision, Last(r).hash);
    forall i | 0 <= i < |r| ensures EntryGenuine(sha, r[i]) {
      if i < |r| - 1 { assert r[i] == r[..|r| - 1][i] && r[i] == before[i]; }
    }
    assert r[0].revision >= 1 by {
      if |r| > 1 { assert r[0] == r[..|r| - 1][0] == before[0]; }
    }
    forall i | 0 <= i < |before| && HasApproval(l, before[i].revision)
      ensures i < |r| && r[i] == before[i]
    {
      AtMostLast(before, i);
      assert i < |r| - 1;
      assert r[i] == r[..|r| - 1][i];
    }
    forall k | 0 <= k < |l.approvals|
      ensures ApprovalOk(r, l.approvals[k])
      ensures l.approvals[k].revision != p.revision
    {
      var a := l.approvals[k];
      assert ApprovalOk(before, a) && HasApproval(l, a.revision);
      RecordsKept(before, r, a.revision, a.approvedHash);
      var i :| 0 <= i < |before| && before[i].revision == a.revision;
      AtMostLast(before, i);
    }
  }

  lemma ReplayAppend(ts: seq<TransitionEntry>, t: TransitionEntry)
    ensures Replayed(ts + [t]) ==
              match Replayed(ts)
              case None => None
              case Some((s, gaps)) =>
                if t.src == s then Some((t.dst, gaps))
                else if s == ReadyForReview && t.src == Approved then Some((t.dst, gaps + 1))
                else None
  {
    assert (ts + [t])[..|ts|] == ts;
  }

  /** Recording a transition out of the current state keeps the replay. */
  lemma ReplayStep(l: Ledger, t: TransitionEntry, after: Ledger)
    requires ReplaysToCurrent(l) && t.src == l.current && after.current == t.dst
    requires after.transitions == l.transitions + [t] && after.approvals == l.approvals
    ensures ReplaysToCurrent(after)
  {
    ReplayAppend(l.transitions, t);
  }

  lemma LegalAppend(l: Ledger, t: TransitionEntry, after: Ledger)
    requires TransitionsLegal(l) && TransitionOk(t) && after.transitions == l.transitions + [t]
    ensures TransitionsLegal(after)
  {
    hide TransitionOk;
    forall i | 0 <= i < |after.transitions| ensures TransitionOk(after.transitions[i]) {
      if i < |l.transitions| { assert after.transitions[i] == l.transitions[i]; }
    }
  }

  // ----- each ledger an operation writes -----

  lemma TransitionKeeps(
      sha: Digest, env: Env, d: Disk, to: State, m: Emission, now: string, actor: string)
    requires Inv(sha, d.pkg, d.lin) && TransitionRefusal(sha, env, d, to).None?
    ensures var l := TransitionLedger(sha, d, to, m, now, actor);
            Inv(sha, d.pkg, l) && Preserves(d.lin, l)
  {
    hide PackageHash, Snapshotted, Validates, Named, FollowUpRequired, Replayed, HashOfRevision;
    var l := TransitionLedger(sha, d, to, m, now, actor);
    var t := TransitionEntry(Ordinary, d.lin.current, to, now, actor, m.Id(), None);
    EdgesRespectReview(d.lin.current, to);
    ReplayStep(d.lin, t, l);
    LegalAppend(d.lin, t, l);
    if to == ReadyForReview {
      SnapshotKeeps(sha, d.lin, d.pkg, now, actor, l);
    }
  }

  lemma ApproveKeeps(
      sha: Digest, env: Env, d: Disk, approver: string, commit: string, m: Emission,
      now: string)
    requires GoodHash(sha) && Inv(sha, d.pkg, d.lin)
    requires ApproveRefusal(sha, env, d, approver).None? && d.lin.current == ReadyForReview
    ensures var l := ApprovedLedger(d, PackageHash(sha, d.pkg).value, approver, commit, m, now);
            Inv(sha, d.pkg, l) && Preserves(d.lin, l)
  {
    hide PackageHash, Validates, Replayed, RevisionsGenuine, OpenQuestions, AuthoriseRefusal, HashOfRevision;
    var hash := PackageHash(sha, d.pkg).value;
    var l := ApprovedLedger(d, hash, approver, commit, m, now);
    CleanAtLast(sha, env, d);
    var revs := d.lin.revisions;
    assert Records(revs, d.pkg.revision, hash) by {
      assert revs[|revs| - 1].revision == d.pkg.revision;
    }
    forall i | 0 <= i < |l.approvals| ensures ApprovalOk(l.revisions, l.approvals[i]) {
      if i < |d.lin.approvals| { assert l.approvals[i] == d.lin.approvals[i]; }
    }
  }

  lemma ReviseKeeps(
      sha: Digest, d: Disk, m: Emission, now: string, actor: string, l: Ledger)
    requires Inv(sha, d.pkg, d.lin) && PackageHash(sha, Bumped(d.pkg)).Some?
    requires l == Ledger(
               Draft,
               Snapshotted(d.lin.revisions, Bumped(d.pkg).revision,
                           PackageHash(sha, Bumped(d.pkg)).value, now, actor),
               d.lin.transitions
               + [TransitionEntry(Revision, d.lin.current, Draft, now, actor, m.Id(), None)],
               d.lin.approvals)
    ensures Inv(sha, Bumped(d.pkg), l) && Preserves(d.lin, l)
  {
    hide PackageHash, Snapshotted, Replayed, HashOfRevision;
    var t := TransitionEntry(Revision, d.lin.current, Draft, now, actor, m.Id(), None);
    ReplayStep(d.lin, t, l);
    LegalAppend(d.lin, t, l);
    SnapshotKeeps(sha, d.lin, Bumped(d.pkg), now, actor, l);
  }

  lemma SupersedeKeeps(sha: Digest, d: Disk, t: TransitionEntry, l: Ledger)
    requires Inv(sha, d.pkg, d.lin) && IsLegalTransition(d.lin.current, Superseded)
    requires t.kind == Supersession && t.src == d.lin.current && t.dst == Superseded
    requires l == d.lin.(current := Superseded, transitions := d.lin.transitions + [t])
    ensures Inv(sha, d.pkg, l) && Preserves(d.lin, l)
  {
    hide Replayed, HashOfRevision;
    ReplayStep(d.lin, t, l);
    LegalAppend(d.lin, t, l);
  }

  // ----- the replay branch of do_approve -----

  /** In every reachable state, a repeat of `do_approve` that finds its approval in the ledger has
  nothing left to write: the branch that would finish a crashed approval is never taken. */
  lemma ReplayWritesNothing(sha: Digest, env: Env, d: Disk, approver: string)
    requires GoodHash(sha) && Inv(sha, d.pkg, d.lin)
    requires ApproveRefusal(sha, env, d, approver).None?
    requires HasMatchingApproval(env.human, d.lin.approvals, PackageHash(sha, d.pkg).value)
    ensures d.lin.current == Approved && d.pkg.status == Approved
    ensures ReplayTrace(d) == [d]
  {
    hide PackageHash, Validates, Replayed, OpenQuestions, AuthoriseRefusal, Recognised, HashOfRevision;
    var hash := PackageHash(sha, d.pkg).value;
    CleanAtLast(sha, env, d);
    if d.lin.current == ReadyForReview {
      var k :| 0 <= k < |d.lin.approvals| && d.lin.approvals[k].approvedHash == hash;
      var a := d.lin.approvals[k];
      assert ApprovalOk(d.lin.revisions, a);
      var i :| 0 <= i < |d.lin.revisions| && d.lin.revisions[i].revision == a.revision
               && d.lin.revisions[i].hash == hash;
      assert EntryGenuine(sha, d.lin.revisions[i]);
      HashNamesRevision(sha, d.pkg, a.revision, hash);
    }
  }

  // ----- every element of every trace -----

  lemma SameRevision(sha: Digest, p: Package, q: Package, l: Ledger)
    requires Inv(sha, p, l) && p.revision <= q.revision
    ensures Inv(sha, q, l)
  {
    hide ReplaysToCurrent, ApprovalsRecorded, RevisionsGenuine, TransitionsLegal;
  }

  lemma PreservesItself(l: Ledger)
    ensures Preserves(l, l)
  {
  }

  /** Whatever point an operation stops at, the directory it leaves satisfies the invariant. */
  lemma TraceKeeps(
      sha: Digest, env: Env, d: Disk, op: Op, m: Emission, now: string, k: nat)
    requires GoodHash(sha) && Inv(sha, d.pkg, d.lin) && k < |Trace(sha, env, d, op, m, now)|
    ensures var e := Trace(sha, env, d, op, m, now)[k];
            Inv(sha, e.pkg, e.lin) && Preserves(d.lin, e.lin)
  {
    hide Inv, Preserves, TransitionRefusal, ApproveRefusal, SupersedeRefusal, PackageHash, Snapshotted,
         TransitionLedger, ApprovedLedger, HasMatchingApproval, IsLegalTransition;
    PreservesItself(d.lin);
    var e := Trace(sha, env, d, op, m, now)[k];
    match op
    case Transition(to, actor) =>
      if TransitionRefusal(sha, env, d, to).None? {
        HashForTransition(sha, env, d, to);
        var l := TransitionLedger(sha, d, to, m, now, actor);
        TransitionKeeps(sha, env, d, to, m, now, actor);
        SameRevision(sha, d.pkg, d.pkg.(status := to), l);
      }
    case Approve(approver, commit) =>
      if ApproveRefusal(sha, env, d, approver).None? {
        HashForApproval(sha, env, d, approver);
        var hash := PackageHash(sha, d.pkg).value;
        if HasMatchingApproval(env.human, d.lin.approvals, hash) {
          ReplayWritesNothing(sha, env, d, approver);
        } else if d.lin.current == ReadyForReview {
          var l := ApprovedLedger(d, hash, approver, commit, m, now);
          ApproveKeeps(sha, env, d, approver, commit, m, now);
          SameRevision(sha, d.pkg, d.pkg.(status := Approved), l);
        }
      }
    case Revise(actor) =>
      SameRevision(sha, d.pkg, Bumped(d.pkg), d.lin);
      if ReviseLegalFrom(d.lin.current) && PackageHash(sha, Bumped(d.pkg)).Some? {
        var l := Ledger(
          Draft,
          Snapshotted(d.lin.revisions, Bumped(d.pkg).revision,
                      PackageHash(sha, Bumped(d.pkg)).value, now, actor),
          d.lin.transitions + [TransitionEntry(Revision, d.lin.current, Draft, now, actor, m.Id(), None)],
          d.lin.approvals);
        ReviseKeeps(sha, d, m, now, actor, l);
        SameRevision(sha, Bumped(d.pkg), Bumped(d.pkg).(status := Draft), l);
      }
    case Supersede(newId, replacement, actor) =>
      if SupersedeRefusal(d, newId, replacement).None? {
        var t := TransitionEntry(Supersession, d.lin.current, Superseded, now, actor, m.Id(), Some(newId));
        var l := d.lin.(current := Superseded, transitions := d.lin.transitions + [t]);
        SupersedeLegal(d, newId, replacement);
        SupersedeKeeps(sha, d, t, l);
        SameRevision(sha, d.pkg, d.pkg.(status := Superseded), l);
      }
  }

  lemma SupersedeLegal(d: Disk, newId: string, replacement: Option<Replacement>)
    requires SupersedeRefusal(d, newId, replacement).None?
    ensures IsLegalTransition(d.lin.current, Superseded)
  {
  }
}
