/** Check L entry by entry: every problem it reports is there, and it reports every one. */
module LineageProblemsExact {
  import opened Values
  import opened Lifecycle
  import opened LineageLedger
  import opened Checks

  /** A number the check accepts and remembers occurs before place `i`. */
  ghost predicate SeenBefore(revisions: seq<RevisionEntry>, i: nat, number: int) {
    exists k :: 0 <= k < i && k < |revisions| && revisions[k].revision == number
  }

  ghost predicate IsRevisionProblem(revisions: seq<RevisionEntry>, p: Problem) {
    match p
    case RevisionNotPositive(i) => i < |revisions| && revisions[i].revision <= 0
    case RevisionRepeated(i) =>
      i < |revisions| && revisions[i].revision > 0 && SeenBefore(revisions, i, revisions[i].revision)
    case _ => false
  }

  function At(p: Problem): int {
    match p
    case RevisionNotPositive(i) => i
    case RevisionRepeated(i) => i
    case TransitionIllegal(i) => i
    case ApprovalOfNothing(i) => i
    case ApprovalHashMismatch(i) => i
    case _ => -1
  }

  lemma {:induction false} RevisionProblemsExact(
      revisions: seq<RevisionEntry>, i: nat, seen: set<int>, p: Problem)
    requires i <= |revisions|
    requires forall n :: n in seen <==> n > 0 && SeenBefore(revisions, i, n)
    ensures p in RevisionProblems(revisions, i, seen) <==> IsRevisionProblem(revisions, p) && At(p) >= i
    decreases |revisions| - i
  {
    if i < |revisions| {
      var n := revisions[i].revision;
      var next := if n <= 0 || n in seen then seen else seen + {n};
      forall x ensures x in next <==> x > 0 && SeenBefore(revisions, i + 1, x) {
        SeenNext(revisions, i, x);
      }
      RevisionProblemsExact(revisions, i + 1, next, p);
    }
  }

  lemma SeenNext(revisions: seq<RevisionEntry>, i: nat, x: int)
    requires i < |revisions|
    ensures SeenBefore(revisions, i + 1, x) <==> SeenBefore(revisions, i, x) || x == revisions[i].revision
  {
  }

  lemma {:induction false} TransitionProblemsExact(ts: seq<TransitionEntry>, i: nat, p: Problem)
    requires i <= |ts|
    ensures p in TransitionProblems(ts, i) <==>
              exists k :: i <= k < |ts| && p == TransitionIllegal(k)
                          && ts[k].kind == Ordinary && ts[k].src !in EnteredFrom(ts[k].dst)
    decreases |ts| - i
  {
    hide IsLegalTransition, EnteredFrom;
    if i < |ts| {
      EdgesInto(ts[i].src, ts[i].dst);
      TransitionProblemsExact(ts, i + 1, p);
    }
  }

  /** The entry an approval is compared with: the first of its number, if that is positive. */
  ghost predicate FirstOf(revisions: seq<RevisionEntry>, k: nat, number: int) {
    k < |revisions| && number > 0 && revisions[k].revision == number && !SeenBefore(revisions, k, number)
  }

  lemma {:induction false} HashesExact(revisions: seq<RevisionEntry>, number: int, hash: string)
    ensures number in RevisionHashes(revisions) <==> number > 0 && SeenBefore(revisions, |revisions|, number)
    ensures number in RevisionHashes(revisions) && RevisionHashes(revisions)[number] == hash <==>
              exists k: nat :: FirstOf(revisions, k, number) && revisions[k].hash == hash
    decreases |revisions|
  {
    if |revisions| > 0 {
      var n := |revisions| - 1;
      var before := revisions[..n];
      HashesExact(before, number, hash);
      SeenNext(revisions, n, number);
      forall k: nat | k <= n ensures SeenBefore(before, k, number) <==> SeenBefore(revisions, k, number) {
        assert forall j :: 0 <= j < n ==> before[j] == revisions[j];
      }
      forall k: nat | k < n ensures FirstOf(before, k, number) <==> FirstOf(revisions, k, number) {
      }
      assert FirstOf(revisions, n, number) <==>
             number > 0 && revisions[n].revision == number && number !in RevisionHashes(before);
      if exists k: nat :: FirstOf(before, k, number) && before[k].hash == hash {
        var k: nat :| FirstOf(before, k, number) && before[k].hash == hash;
        assert FirstOf(revisions, k, number) && revisions[k].hash == hash;
      }
    }
  }

  ghost predicate IsApprovalProblem(l: Ledger, p: Problem) {
    match p
    case ApprovalOfNothing(i) =>
      && i < |l.approvals|
      && !(l.approvals[i].revision > 0
           && SeenBefore(l.revisions, |l.revisions|, l.approvals[i].revision))
    case ApprovalHashMismatch(i) =>
      && i < |l.approvals|
      && exists k: nat :: FirstOf(l.revisions, k, l.approvals[i].revision)
                          && l.revisions[k].hash != l.approvals[i].approvedHash
    case _ => false
  }

  lemma {:induction false} ApprovalProblemsExact(l: Ledger, i: nat, p: Problem)
    requires i <= |l.approvals|
    ensures p in ApprovalProblems(l.approvals, RevisionHashes(l.revisions), i) <==>
              IsApprovalProblem(l, p) && At(p) >= i
    decreases |l.approvals| - i
  {
    hide RevisionHashes, FirstOf, SeenBefore;
    if i < |l.approvals| {
      OneApproval(l, i);
      ApprovalProblemsExact(l, i + 1, p);
    }
  }

  lemma FirstInRange(revisions: seq<RevisionEntry>, number: int)
    ensures forall k: nat :: FirstOf(revisions, k, number) ==> k < |revisions|
  {
  }

  lemma OneApproval(l: Ledger, i: nat)
    requires i < |l.approvals|
    ensures var a, hashes := l.approvals[i], RevisionHashes(l.revisions);
            && (a.revision !in hashes <==> IsApprovalProblem(l, ApprovalOfNothing(i)))
            && (a.revision in hashes && a.approvedHash != hashes[a.revision]
                <==> IsApprovalProblem(l, ApprovalHashMismatch(i)))
  {
    hide RevisionHashes, FirstOf, SeenBefore;
    var a, hashes := l.approvals[i], RevisionHashes(l.revisions);
    HashesExact(l.revisions, a.revision, a.approvedHash);
    if a.revision in hashes { HashesExact(l.revisions, a.revision, hashes[a.revision]); }
    forall k: nat | k < |l.revisions| && FirstOf(l.revisions, k, a.revision)
      ensures a.revision in hashes && l.revisions[k].hash == hashes[a.revision]
    {
      HashesExact(l.revisions, a.revision, l.revisions[k].hash);
    }
    FirstInRange(l.revisions, a.revision);
  }

  /** A problem is reported exactly when it is one: at its entry, of its kind. */
  lemma LineageProblemsAreExact(l: Ledger, p: Problem)
    ensures p in LineageProblems(l) <==>
              || (p == NoRevisions && l.revisions == [])
              || IsRevisionProblem(l.revisions, p)
              || (exists k :: 0 <= k < |l.transitions| && p == TransitionIllegal(k)
                              && l.transitions[k].kind == Ordinary
                              && l.transitions[k].src !in EnteredFrom(l.transitions[k].dst))
              || IsApprovalProblem(l, p)
  {
    hide RevisionHashes, RevisionProblems, TransitionProblems, ApprovalProblems, EnteredFrom,
         IsApprovalProblem;
    if l.revisions != [] { RevisionProblemsExact(l.revisions, 0, {}, p); }
    TransitionProblemsExact(l.transitions, 0, p);
    ApprovalProblemsExact(l, 0, p);
    ApprovalPlace(l, p);
  }

  lemma ApprovalPlace(l: Ledger, p: Problem)
    ensures IsApprovalProblem(l, p) ==> At(p) >= 0
  {
  }
}
