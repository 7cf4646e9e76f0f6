/** `lineage.py`: the ledger beside a package, as stored in a file and as the dict an operation changes
in place before writing it back. */
module LineageLedger {
  import opened Values
  import opened Lifecycle

  datatype RevisionEntry = RevisionEntry(
    revision: int,
    hash: string,
    createdAt: string,
    snapshottedAt: Option<string>,
    author: string)

  datatype TransitionKind = Ordinary | Revision | Supersession

  datatype TransitionEntry = TransitionEntry(
    kind: TransitionKind,
    src: State,
    dst: State,
    at: string,
    actor: string,
    eventId: Option<string>,
    supersededBy: Option<string>)

  datatype ApprovalEntry = ApprovalEntry(
    revision: int,
    approvedHash: string,
    approver: string,
    approvedAt: string,
    commit: string,
    eventId: Option<string>)

  /** The content of `lineage.yaml`. */
  datatype Ledger = Ledger(
    current: State,
    revisions: seq<RevisionEntry>,
    transitions: seq<TransitionEntry>,
    approvals: seq<ApprovalEntry>)

  /** `render_lineage`: what a fresh scaffold starts with (scaffolds.py:335-352). */
  function Initial(createdAt: string, author: string): Ledger {
    Ledger(Draft, [RevisionEntry(1, "", createdAt, None, author)], [], [])
  }

  /** Where a revision is recorded; the length when it is not. */
  function IndexOf(revisions: seq<RevisionEntry>, revision: int): (n: nat)
    ensures n <= |revisions|
    ensures n < |revisions| ==> revisions[n].revision == revision
    ensures forall i :: 0 <= i < n ==> revisions[i].revision != revision
  {
    if |revisions| == 0 || revisions[0].revision == revision then 0
    else 1 + IndexOf(revisions[1..], revision)
  }

  /** `snapshot_revision`: overwrite the first entry of that number, keeping when it was created, or
  append one. */
  function Snapshotted(
      revisions: seq<RevisionEntry>, revision: int, hash: string, at: string, author: string)
    : seq<RevisionEntry>
  {
    var n := IndexOf(revisions, revision);
    if n < |revisions| then
      revisions[n := RevisionEntry(revision, hash, revisions[n].createdAt, Some(at), author)]
    else revisions + [RevisionEntry(revision, hash, at, None, author)]
  }

  /** `max(revisions, key=revision)`: the first entry of the highest number. */
  function Latest(revisions: seq<RevisionEntry>): (top: RevisionEntry)
    requires |revisions| > 0
    ensures top in revisions
    ensures forall i :: 0 <= i < |revisions| ==> revisions[i].revision <= top.revision
  {
    if |revisions| == 1 then revisions[0]
    else
      var rest := Latest(revisions[1..]);
      assert forall i :: 0 < i < |revisions| ==> revisions[i] == revisions[1..][i - 1];
      if revisions[0].revision >= rest.revision then revisions[0] else rest
  }

  /** `current_revision_hash`; `None` where `max` of nothing raises. */
  function CurrentRevisionHash(ledger: Ledger): Option<string> {
    if ledger.revisions == [] then None else Some(Latest(ledger.revisions).hash)
  }

  /** The dict `lineage.read` returns, changed in place. */
  class LineageDict {
    var current: State
    var revisions: seq<RevisionEntry>
    var transitions: seq<TransitionEntry>
    var approvals: seq<ApprovalEntry>

    function View(): Ledger
      reads this
    {
      Ledger(current, revisions, transitions, approvals)
    }

    constructor Read(file: Ledger)
      ensures View() == file
    {
      current := file.current;
      revisions := file.revisions;
      transitions := file.transitions;
      approvals := file.approvals;
    }

    method SetCurrent(s: State)
      modifies this`current
      ensures View() == old(View()).(current := s)
    {
      current := s;
    }

    method AppendTransition(kind: TransitionKind, src: State, dst: State, at: string, actor: string,
                            eventId: Option<string>)
      modifies this`transitions
      ensures View() == old(View()).(transitions := old(transitions) +
                          [TransitionEntry(kind, src, dst, at, actor, eventId, None)])
    {
      transitions := transitions + [TransitionEntry(kind, src, dst, at, actor, eventId, None)];
    }

    /** `lin["transitions"][-1]["superseded_by"] = ...` */
    method MarkSupersededBy(id: string)
      requires transitions != []
      modifies this`transitions
      ensures View() == old(View()).(transitions := old(transitions)[..|old(transitions)| - 1] +
                          [old(transitions)[|old(transitions)| - 1].(supersededBy := Some(id))])
    {
      var n := |transitions| - 1;
      transitions := transitions[..n] + [transitions[n].(supersededBy := Some(id))];
    }

    method AppendApproval(revision: int, hash: string, approver: string, at: string, commit: string,
                          eventId: Option<string>)
      modifies this`approvals
      ensures View() == old(View()).(approvals := old(approvals) +
                          [ApprovalEntry(revision, hash, approver, at, commit, eventId)])
    {
      approvals := approvals + [ApprovalEntry(revision, hash, approver, at, commit, eventId)];
    }

    /** The loop looks for an entry of that number, replaces it and returns; else it appends. */
    method SnapshotRevision(revision: int, hash: string, at: string, author: string)
      modifies this`revisions
      ensures View() == old(View()).(revisions :=
                          Snapshotted(old(revisions), revision, hash, at, author))
    {
      var entry := RevisionEntry(revision, hash, at, None, author);
      for i := 0 to |revisions|
        invariant revisions == old(revisions)
        invariant forall k :: 0 <= k < i ==> revisions[k].revision != revision
      {
        if revisions[i].revision == revision {
          entry := entry.(createdAt := revisions[i].createdAt, snapshottedAt := Some(at));
          assert IndexOf(old(revisions), revision) == i;
          revisions := revisions[i := entry];
          return;
        }
      }
      assert IndexOf(old(revisions), revision) == |revisions|;
      revisions := revisions + [entry];
    }
  }

  /** What a snapshot does to each entry: the first of that number gets the hash and the author and keeps
  when it was created, the others stay, and only without one is an entry added. */
  lemma SnapshotMeans(
      revisions: seq<RevisionEntry>, revision: int, hash: string, at: string, author: string, n: nat)
    requires n <= |revisions|
    requires forall i :: 0 <= i < n ==> revisions[i].revision != revision
    requires n < |revisions| ==> revisions[n].revision == revision
    ensures var r := Snapshotted(revisions, revision, hash, at, author);
            && r[..n] == revisions[..n]
            && (n < |revisions| ==>
                  && |r| == |revisions| && r[n + 1..] == revisions[n + 1..]
                  && r[n].revision == revision && r[n].hash == hash && r[n].author == author
                  && r[n].createdAt == revisions[n].createdAt && r[n].snapshottedAt == Some(at))
            && (n == |revisions| ==>
                  && |r| == n + 1
                  && r[n].revision == revision && r[n].hash == hash && r[n].author == author
                  && r[n].createdAt == at && r[n].snapshottedAt == None)
  {
    var k := IndexOf(revisions, revision);
    assert k == n;
  }

  // ----- revisions in increasing order -----

  ghost predicate Increasing(revisions: seq<RevisionEntry>) {
    forall i, j :: 0 <= i < j < |revisions| ==> revisions[i].revision < revisions[j].revision
  }

  function Last(revisions: seq<RevisionEntry>): RevisionEntry
    requires |revisions| > 0
  {
    revisions[|revisions| - 1]
  }

  lemma LatestIsLast(revisions: seq<RevisionEntry>)
    requires |revisions| > 0 && Increasing(revisions)
    ensures Latest(revisions) == Last(revisions)
  {
    var top := Latest(revisions);
    var i :| 0 <= i < |revisions| && revisions[i] == top;
    assert revisions[i].revision <= Last(revisions).revision;
  }

  /** Snapshotting at or above the highest number touches the end of the list and nothing else. */
  lemma SnapshotAtEnd(
      revisions: seq<RevisionEntry>, revision: int, hash: string, at: string, author: string)
    requires |revisions| > 0 && Increasing(revisions) && Last(revisions).revision <= revision
    ensures var r := Snapshotted(revisions, revision, hash, at, author);
            && Increasing(r) && |r| > 0
            && Last(r).revision == revision && Last(r).hash == hash
            && (if revision == Last(revisions).revision
                then |r| == |revisions| && r[..|r| - 1] == revisions[..|revisions| - 1]
                else |r| == |revisions| + 1 && r[..|r| - 1] == revisions)
  {
    assert IndexOf(revisions, revision) >= |revisions| - 1;
  }
}
