/** `checks_semantic.py`: check S (status mirror), check H (hash drift) and check L (lineage
consistency), and the guard `validate_package` makes of them. */
module Checks {
  import opened Values
  import opened Lifecycle
  import opened LineageLedger
  import opened Packages
  import opened Schema
  import opened TypeScan
  import opened Canonical

  datatype Problem =
    | FileProblem
    | ForbiddenValue(error: Error)
    | StatusMirror
    | Unhashable
    | DriftBeforeExecution
    | DriftAfterExecution
    | NoRevisions
    | RevisionNotPositive(index: nat)
    | RevisionRepeated(index: nat)
    | TransitionIllegal(index: nat)
    | ApprovalOfNothing(index: nat)
    | ApprovalHashMismatch(index: nat)

  /** The `errors` list the checks append to. */
  class ProblemList {
    var entries: seq<Problem>

    constructor ()
      ensures entries == []
    {
      entries := [];
    }

    method Append(p: Problem)
      modifies this
      ensures entries == old(entries) + [p]
    {
      entries := entries + [p];
    }

    method Extend(ps: seq<Problem>)
      modifies this
      ensures entries == old(entries) + ps
    {
      entries := entries + ps;
    }
  }

  // ----- S and H -----

  function StatusMirrorErrors(p: Package, l: Ledger): seq<Problem> {
    if p.status == l.current then [] else [StatusMirror]
  }

  /** `hash_drift_errors`; `None` where `max` of an empty revision list raises. */
  function HashDriftErrors(sha: Digest, p: Package, l: Ledger): Option<seq<Problem>> {
    if !DriftLocked(p.status) then Some([])
    else if PackageHash(sha, p).None? then Some([Unhashable])
    else if CurrentRevisionHash(l).None? then None
    else if PackageHash(sha, p) == CurrentRevisionHash(l) then Some([])
    else if ReviseLegalFrom(p.status) then Some([DriftBeforeExecution])
    else Some([DriftAfterExecution])
  }

  // ----- L -----

  /** What `_check_revisions` appends from entry `i` on, having seen the numbers in `seen`. */
  function RevisionProblems(revisions: seq<RevisionEntry>, i: nat, seen: set<int>): seq<Problem>
    requires i <= |revisions|
    decreases |revisions| - i
  {
    if i == |revisions| then []
    else
      var n := revisions[i].revision;
      if n <= 0 then [RevisionNotPositive(i)] + RevisionProblems(revisions, i + 1, seen)
      else if n in seen then [RevisionRepeated(i)] + RevisionProblems(revisions, i + 1, seen)
      else RevisionProblems(revisions, i + 1, seen + {n})
  }

  /** The first recorded hash of every positive number. */
  function RevisionHashes(revisions: seq<RevisionEntry>): map<int, string> {
    if |revisions| == 0 then map[]
    else
      var last := revisions[|revisions| - 1];
      var before := RevisionHashes(revisions[..|revisions| - 1]);
      if last.revision <= 0 || last.revision in before then before
      else before[last.revision := last.hash]
  }

  function TransitionProblems(ts: seq<TransitionEntry>, i: nat): seq<Problem>
    requires i <= |ts|
    decreases |ts| - i
  {
    if i == |ts| then []
    else
      (if ts[i].kind.Ordinary? && !IsLegalTransition(ts[i].src, ts[i].dst) then [TransitionIllegal(i)]
       else []) + TransitionProblems(ts, i + 1)
  }

  function ApprovalProblems(approvals: seq<ApprovalEntry>, hashes: map<int, string>, i: nat)
    : seq<Problem>
    requires i <= |approvals|
    decreases |approvals| - i
  {
    if i == |approvals| then []
    else
      var a := approvals[i];
      (if a.revision !in hashes then [ApprovalOfNothing(i)]
       else if a.approvedHash != hashes[a.revision] then [ApprovalHashMismatch(i)]
       else []) + ApprovalProblems(approvals, hashes, i + 1)
  }

  function LineageProblems(l: Ledger): seq<Problem> {
    (if l.revisions == [] then [NoRevisions] else RevisionProblems(l.revisions, 0, {}))
    + TransitionProblems(l.transitions, 0)
    + ApprovalProblems(l.approvals, RevisionHashes(l.revisions), 0)
  }

  /** `_check_revisions`. */
  method CheckRevisions(l: Ledger, errors: ProblemList) returns (hashes: map<int, string>)
    modifies errors
    ensures errors.entries == old(errors.entries) +
              if l.revisions == [] then [NoRevisions] else RevisionProblems(l.revisions, 0, {})
    ensures hashes == RevisionHashes(l.revisions)
  {
    hashes := map[];
    if l.revisions == [] {
      errors.Append(NoRevisions);
      return;
    }
    var seen: set<int> := {};
    for i := 0 to |l.revisions|
      invariant errors.entries + RevisionProblems(l.revisions, i, seen)
             == old(errors.entries) + RevisionProblems(l.revisions, 0, {})
      invariant hashes == RevisionHashes(l.revisions[..i]) && seen == hashes.Keys
    {
      assert l.revisions[..i + 1][..i] == l.revisions[..i];
      var rev := l.revisions[i];
      if rev.revision <= 0 {
        errors.Append(RevisionNotPositive(i));
        continue;
      }
      if rev.revision in seen {
        errors.Append(RevisionRepeated(i));
        continue;
      }
      seen := seen + {rev.revision};
      hashes := hashes[rev.revision := rev.hash];
    }
    assert l.revisions[..|l.revisions|] == l.revisions;
  }

  /** `_check_transitions`. */
  method CheckTransitions(l: Ledger, errors: ProblemList)
    modifies errors
    ensures errors.entries == old(errors.entries) + TransitionProblems(l.transitions, 0)
  {
    for i := 0 to |l.transitions|
      invariant errors.entries + TransitionProblems(l.transitions, i)
             == old(errors.entries) + TransitionProblems(l.transitions, 0)
    {
      var t := l.transitions[i];
      if t.kind.Revision? || t.kind.Supersession? {
        continue;
      }
      if !IsLegalTransition(t.src, t.dst) {
        errors.Append(TransitionIllegal(i));
      }
    }
  }

  /** `_check_approvals`. */
  method CheckApprovals(l: Ledger, hashes: map<int, string>, errors: ProblemList)
    modifies errors
    ensures errors.entries == old(errors.entries) + ApprovalProblems(l.approvals, hashes, 0)
  {
    for i := 0 to |l.approvals|
      invariant errors.entries + ApprovalProblems(l.approvals, hashes, i)
             == old(errors.entries) + ApprovalProblems(l.approvals, hashes, 0)
    {
      var a := l.approvals[i];
      if a.revision !in hashes {
        errors.Append(ApprovalOfNothing(i));
        continue;
      }
      if a.approvedHash != hashes[a.revision] {
        errors.Append(ApprovalHashMismatch(i));
      }
    }
  }

  /** `lineage_consistency_errors`. States and `grants` are typed, so those checks cannot fail. */
  method LineageConsistencyErrors(l: Ledger) returns (problems: seq<Problem>)
    ensures problems == LineageProblems(l)
  {
    var errors := new ProblemList();
    var hashes := CheckRevisions(l, errors);
    CheckTransitions(l, errors);
    CheckApprovals(l, hashes, errors);
    problems := errors.entries;
  }

  // ----- what check L means -----

  /** Every number is positive and recorded once. */
  ghost predicate RevisionsOk(revisions: seq<RevisionEntry>) {
    && |revisions| > 0
    && (forall i :: 0 <= i < |revisions| ==> revisions[i].revision > 0)
    && (forall i, j :: 0 <= i < j < |revisions| ==> revisions[i].revision != revisions[j].revision)
  }

  ghost predicate TransitionOk(t: TransitionEntry) {
    t.kind.Ordinary? ==> IsLegalTransition(t.src, t.dst)
  }

  /** The ledger records `hash` for `revision`. */
  ghost predicate Records(revisions: seq<RevisionEntry>, revision: int, hash: string) {
    exists i :: 0 <= i < |revisions| && revisions[i].revision == revision && revisions[i].hash == hash
  }

  ghost predicate ApprovalOk(revisions: seq<RevisionEntry>, a: ApprovalEntry) {
    Records(revisions, a.revision, a.approvedHash)
  }

  ghost predicate LineageConsistent(l: Ledger) {
    && RevisionsOk(l.revisions)
    && (forall i :: 0 <= i < |l.transitions| ==> TransitionOk(l.transitions[i]))
    && (forall i :: 0 <= i < |l.approvals| ==> ApprovalOk(l.revisions, l.approvals[i]))
  }

  lemma {:induction false} NoRevisionProblems(revisions: seq<RevisionEntry>, i: nat, seen: set<int>)
    requires i <= |revisions|
    ensures RevisionProblems(revisions, i, seen) == [] <==>
              && (forall k :: i <= k < |revisions| ==>
                    revisions[k].revision > 0 && revisions[k].revision !in seen)
              && (forall j, k :: i <= j < k < |revisions| ==>
                    revisions[j].revision != revisions[k].revision)
    decreases |revisions| - i
  {
    if i < |revisions| {
      NoRevisionProblems(revisions, i + 1, seen + {revisions[i].revision});
    }
  }

  lemma {:induction false} NoTransitionProblems(ts: seq<TransitionEntry>, i: nat)
    requires i <= |ts|
    ensures TransitionProblems(ts, i) == [] <==> forall k :: i <= k < |ts| ==> TransitionOk(ts[k])
    decreases |ts| - i
  {
    hide IsLegalTransition;
    if i < |ts| { NoTransitionProblems(ts, i + 1); }
  }

  /** With distinct positive numbers, the hash table is the ledger read by number. */
  lemma {:induction false} HashesRecord(revisions: seq<RevisionEntry>, r: int, h: string)
    requires forall i :: 0 <= i < |revisions| ==> revisions[i].revision > 0
    requires forall i, j :: 0 <= i < j < |revisions| ==> revisions[i].revision != revisions[j].revision
    ensures Records(revisions, r, h) <==>
              r in RevisionHashes(revisions) && RevisionHashes(revisions)[r] == h
    ensures r in RevisionHashes(revisions) ==>
              exists i :: 0 <= i < |revisions| && revisions[i].revision == r
  {
    if |revisions| > 0 {
      var n := |revisions| - 1;
      HashesRecord(revisions[..n], r, h);
      HashesRecord(revisions[..n], revisions[n].revision, revisions[n].hash);
      if Records(revisions, r, h) {
        var i :| 0 <= i < |revisions| && revisions[i].revision == r && revisions[i].hash == h;
        if i < n { assert revisions[..n][i].revision == r; }
      }
      if Records(revisions[..n], r, h) {
        var i :| 0 <= i < n && revisions[..n][i].revision == r && revisions[..n][i].hash == h;
        assert revisions[i].revision == r;
      }
    }
  }

  lemma {:induction false} NoApprovalProblems(
      revisions: seq<RevisionEntry>, approvals: seq<ApprovalEntry>, i: nat)
    requires i <= |approvals| && RevisionsOk(revisions)
    ensures ApprovalProblems(approvals, RevisionHashes(revisions), i) == [] <==>
              forall k :: i <= k < |approvals| ==> ApprovalOk(revisions, approvals[k])
    decreases |approvals| - i
  {
    hide RevisionHashes, Records;
    if i < |approvals| {
      HashesRecord(revisions, approvals[i].revision, approvals[i].approvedHash);
      NoApprovalProblems(revisions, approvals, i + 1);
    }
  }

  /** Check L is silent exactly on a consistent ledger. */
  lemma LineageSilentIffConsistent(l: Ledger)
    ensures LineageProblems(l) == [] <==> LineageConsistent(l)
  {
    hide TransitionOk, ApprovalOk, RevisionProblems, TransitionProblems, ApprovalProblems;
    if l.revisions != [] { NoRevisionProblems(l.revisions, 0, {}); }
    NoTransitionProblems(l.transitions, 0);
    if RevisionsOk(l.revisions) { NoApprovalProblems(l.revisions, l.approvals, 0); }
  }

  /** Numbers that go down pass: check L asks that they differ, not that they increase. */
  lemma DescendingRevisionsPass()
    ensures var l := Ledger(Draft, [RevisionEntry(2, "b", "then", None, "author"),
                                    RevisionEntry(1, "a", "then", None, "author")], [], []);
            LineageProblems(l) == [] && !Increasing(l.revisions)
  {
    var l := Ledger(Draft, [RevisionEntry(2, "b", "then", None, "author"),
                            RevisionEntry(1, "a", "then", None, "author")], [], []);
    LineageSilentIffConsistent(l);
    assert l.revisions[0].revision > l.revisions[1].revision;
  }

  // ----- validate_package -----

  /** What validation asks of the package file alone, beyond the scan for forbidden types: checks K, J,
  ID, RE, TR, A, P and T, whose tables and registries are outside this model. */
  type FileChecks = Package -> bool

  function Forbiddens(errors: seq<Error>): (r: seq<Problem>)
    ensures |r| == |errors|
  {
    if |errors| == 0 then [] else [ForbiddenValue(errors[0])] + Forbiddens(errors[1..])
  }

  /** `validate_package`; `None` where check H raises. */
  function PackageProblems(sha: Digest, ok: FileChecks, p: Package, l: Ledger)
    : Option<seq<Problem>>
  {
    var drift := HashDriftErrors(sha, p, l);
    if drift.None? then None
    else Some((if ok(p) then [] else [FileProblem])
              + Forbiddens(ScanErrors(Map(AsDict(p)), []))
              + StatusMirrorErrors(p, l)
              + drift.value
              + LineageProblems(l))
  }

  method ValidatePackage(sha: Digest, ok: FileChecks, p: Package, l: Ledger)
    returns (problems: Option<seq<Problem>>)
    ensures problems == PackageProblems(sha, ok, p, l)
  {
    hide LineageProblems, ScanErrors, PackageHash, CurrentRevisionHash;
    var errors := new ProblemList();
    if !ok(p) {
      errors.Append(FileProblem);
    }
    var scan := new ErrorList();
    ScanForbiddenTypes(Map(AsDict(p)), [], scan);
    var found := scan.entries;
    ghost var file := errors.entries;
    assert found == ScanErrors(Map(AsDict(p)), []);
    assert file == if ok(p) then [] else [FileProblem];
    for i := 0 to |found|
      invariant errors.entries + Forbiddens(found[i..]) == file + Forbiddens(found)
    {
      assert found[i..][0] == found[i] && found[i..][1..] == found[i + 1..];
      errors.Append(ForbiddenValue(found[i]));
    }
    assert Forbiddens(found[|found|..]) == [];
    assert errors.entries == file + Forbiddens(found);
    errors.Extend(StatusMirrorErrors(p, l));
    var drift := HashDriftErrors(sha, p, l);
    if drift.None? {
      return None;
    }
    errors.Extend(drift.value);
    var lineage := LineageConsistencyErrors(l);
    errors.Extend(lineage);
    return Some(errors.entries);
  }

  /** The package file is well formed, mirrors its ledger, has not drifted from it, and the ledger is
  consistent. */
  ghost predicate Clean(sha: Digest, ok: FileChecks, p: Package, l: Ledger) {
    && ok(p)
    && ScanErrors(Map(AsDict(p)), []) == []
    && p.status == l.current
    && (DriftLocked(l.current) ==>
          l.revisions != [] && PackageHash(sha, p) == Some(Latest(l.revisions).hash))
    && LineageConsistent(l)
  }

  /** Validation finds nothing exactly on a clean package. */
  lemma ValidIffClean(sha: Digest, ok: FileChecks, p: Package, l: Ledger)
    ensures PackageProblems(sha, ok, p, l) == Some([]) <==> Clean(sha, ok, p, l)
  {
    hide LineageProblems, ScanErrors, PackageHash, LineageConsistent, Latest;
    LineageSilentIffConsistent(l);
    NoForbiddens(ScanErrors(Map(AsDict(p)), []));
  }

  lemma NoForbiddens(errors: seq<Error>)
    ensures Forbiddens(errors) == [] <==> errors == []
  {
  }

  // ----- what a clean validation gives -----

  lemma CleanHashable(sha: Digest, ok: FileChecks, p: Package, l: Ledger)
    requires Clean(sha, ok, p, l)
    ensures PackageHash(sha, p).Some?
  {
    ScannedHasCanon(Map(AsDict(p)), []);
    CanonDefined(Map(AsDict(p)));
    CoreIsIntentCore(p);
    CoreOfPrintable(p);
    CanonDefined(Map(Core(p)));
  }

  lemma CoreOfPrintable(p: Package)
    requires Printable(Map(AsDict(p)))
    ensures Printable(Map(Core(p)))
  {
    forall i | 0 <= i < |Core(p)| ensures PrintableMember(Core(p)[i]) {
      assert AsDict(p)[i] == Core(p)[i];
      assert PrintableMember(AsDict(p)[i]);
    }
  }
}
