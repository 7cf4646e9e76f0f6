/** What each operation asks and does, in terms of the values stored in the two files. */
module Guards {
  import opened Values
  import opened Lifecycle
  import opened LineageLedger
  import opened Packages
  import opened Checks
  import opened Operations
  import opened LedgerInvariant
  import opened LedgerRuns
  import opened LedgerOutcomes
  import AP = ApprovalPolicy
  import PD = PolicyDocument

  // ----- open questions -----

  /** `scope.open_questions` of the package is there and holds `v`. */
  ghost predicate Asks(p: Package, v: Value) {
    AP.Leads(p.body, ["scope", "open_questions"], v)
  }

  /** `follow_up.required` of the package is there and holds `v`. */
  ghost predicate WantsFollowUp(p: Package, v: Value) {
    AP.Leads(p.body, ["follow_up", "required"], v)
  }

  lemma QuestionsStored(p: Package, v: Value)
    requires Asks(p, v)
    ensures SubField(Get(p.body, "scope"), "open_questions") == Some(v)
    ensures OpenQuestions(p) == Some(!Falsy(v))
  {
    AP.LeadsTwo(p.body, "scope", "open_questions", v);
    FalsyIff(v);
  }

  lemma FollowUpStored(p: Package, v: Value)
    requires WantsFollowUp(p, v)
    ensures SubField(Get(p.body, "follow_up"), "required") == Some(v)
    ensures FollowUpRequired(p) == Some(!Falsy(v))
  {
    AP.LeadsTwo(p.body, "follow_up", "required", v);
    FalsyIff(v);
  }

  lemma NoneOpen(p: Package)
    ensures OpenQuestions(p) == Some(false) <==> exists v :: Asks(p, v) && Falsy(v)
  {
    if OpenQuestions(p) == Some(false) {
      var v := SubField(Get(p.body, "scope"), "open_questions").value;
      AP.LeadsTwo(p.body, "scope", "open_questions", v);
      FalsyIff(v);
    }
    forall v | Asks(p, v) && Falsy(v) ensures OpenQuestions(p) == Some(false) {
      QuestionsStored(p, v);
    }
  }

  lemma NoneWanted(p: Package)
    ensures FollowUpRequired(p) == Some(false) <==> exists v :: WantsFollowUp(p, v) && Falsy(v)
  {
    if FollowUpRequired(p) == Some(false) {
      var v := SubField(Get(p.body, "follow_up"), "required").value;
      AP.LeadsTwo(p.body, "follow_up", "required", v);
      FalsyIff(v);
    }
    forall v | WantsFollowUp(p, v) && Falsy(v) ensures FollowUpRequired(p) == Some(false) {
      FollowUpStored(p, v);
    }
  }

  /** A package that validates in review is refused for its open questions exactly when it lists one. */
  lemma QuestionsRefused(
      sha: Digest, env: Env, d: Disk, approver: string, commit: string, m: Emission, now: string,
      items: seq<Value>)
    requires Validates(sha, env, d) && d.lin.current == ReadyForReview && Asks(d.pkg, List(items))
    ensures items != [] ==>
              && ApproveRefusal(sha, env, d, approver) == Some(HasOpenQuestions)
              && ApproveTrace(sha, env, d, approver, commit, m, now) == [d]
    ensures items == [] ==> ApproveRefusal(sha, env, d, approver) != Some(HasOpenQuestions)
  {
    hide PackageProblems, PackageHash, OpenQuestions, AuthoriseRefusal, Asks;
    QuestionsStored(d.pkg, List(items));
    AuthoriseReasons(env, d.pkg, approver);
  }

  lemma AuthoriseReasons(env: Env, p: Package, approver: string)
    ensures AuthoriseRefusal(env, p, approver) in {None, Some(NotAuthorised), Some(Raised)}
  {
    hide AP.RefusalsFor, PD.IsPolicyApprover, PD.Approver;
  }

  /** Content of the same hash as content approved in good order has no open question either. */
  lemma NoQuestionsIfSame(sha: Digest, s: Package, p: Package)
    requires Injective(sha) && PackageHash(sha, s).Some? && PackageHash(sha, p) == PackageHash(sha, s)
    requires OpenQuestions(s) == Some(false)
    ensures exists v :: Asks(p, v) && Falsy(v)
  {
    hide PackageHash, Intent, Injective;
    HashBindsIntent(sha, s, p);
    IntentBindsFlag(sha, s, p, "scope", "open_questions");
    NoneOpen(p);
  }

  /** No approval in the ledger of an orderly run is of content with an open question. */
  lemma NoQuestionsInLedger(sha: Digest, start: Disk, run: seq<Label>, a: ApprovalEntry, p: Package)
    requires Injective(sha) && Scaffolded(start) && Orderly(run)
    requires a in After(sha, start, run).lin.approvals && PackageHash(sha, p) == Some(a.approvedHash)
    ensures exists v :: Asks(p, v) && Falsy(v)
  {
    hide After, PackageHash, Injective, Asks, FreshApproval, OpenQuestions, Clean, Authorised;
    EveryApprovalExplained(sha, start, run, a);
    var i: nat :| ExplainsEntry(sha, start, run, i, a);
    NoQuestionsIfSame(sha, After(sha, start, run[..i]).pkg, p);
  }

  /** No approval on the chain is, after any run, of content with an open question. */
  lemma NoQuestionsOnChain(
      sha: Digest, start: Disk, run: seq<Label>, j: nat, hash: string, revision: int, p: Package)
    requires Injective(sha) && NoApprovals(start.chain)
    requires j < |After(sha, start, run).chain|
    requires CarriesApproval(After(sha, start, run).chain[j], hash, revision)
    requires PackageHash(sha, p) == Some(hash)
    ensures exists v :: Asks(p, v) && Falsy(v)
  {
    hide After, PackageHash, Injective, Asks, CarriesApproval, FreshApproval, OpenQuestions, Clean,
         Authorised;
    ChainAlwaysExplained(sha, start, run);
    var i: nat :| EmitsAt(sha, start, run, i, j, hash, revision);
    var s := Subject(sha, start, run, i);
    FreshInOrder(sha, run[i].env, s, run[i].op.approver);
    NoQuestionsIfSame(sha, s.pkg, p);
  }

  // ----- who may approve -----

  /** A person; or a string that is a policy's signature, namely that of the policy in force for this
  package's profile, when the policy describes the package. */
  lemma AuthoriseIff(env: Env, p: Package, approver: string)
    ensures AuthoriseRefusal(env, p, approver).None? <==>
              env.human(approver) || (PD.PolicySignature(approver) && Authorised(env, p, approver))
  {
    hide AP.RefusalsFor, AP.PolicyConforms, PD.IsPolicyApprover, PD.PolicySignature, PD.Approver, AsDict;
    PD.PolicyApproverIff(approver);
    if env.policy.Some? { AP.NoRefusalIffConforms(env.oracle, env.policy.value, AsDict(p)); }
  }

  /** What `do_approve` asks, all of it, before it looks at the ledger's approvals. */
  lemma ApproveAllowedIff(sha: Digest, env: Env, d: Disk, approver: string)
    ensures ApproveRefusal(sha, env, d, approver).None? <==>
              && Clean(sha, env.ok, d.pkg, d.lin)
              && (d.lin.current == ReadyForReview || d.lin.current == Approved)
              && (exists v :: Asks(d.pkg, v) && Falsy(v))
              && (env.human(approver)
                  || (PD.PolicySignature(approver) && Authorised(env, d.pkg, approver)))
  {
    hide PackageProblems, PackageHash, Clean, OpenQuestions, AuthoriseRefusal, Asks, Authorised,
         PD.PolicySignature;
    ValidIffClean(sha, env.ok, d.pkg, d.lin);
    NoneOpen(d.pkg);
    AuthoriseIff(env, d.pkg, approver);
    if Clean(sha, env.ok, d.pkg, d.lin) { CleanHashable(sha, env.ok, d.pkg, d.lin); }
  }

  /** Why `do_approve` refuses, in the order it asks: each reason is given exactly when nothing before it
  applies and its own condition does. */
  lemma ApproveReasons(sha: Digest, env: Env, d: Disk, approver: string)
    ensures ApproveRefusal(sha, env, d, approver) == Some(InvalidPackage) <==>
              !Clean(sha, env.ok, d.pkg, d.lin)
    ensures ApproveRefusal(sha, env, d, approver) == Some(IllegalTransition) <==>
              Clean(sha, env.ok, d.pkg, d.lin)
              && d.lin.current != ReadyForReview && d.lin.current != Approved
    ensures ApproveRefusal(sha, env, d, approver) == Some(HasOpenQuestions) <==>
              Clean(sha, env.ok, d.pkg, d.lin)
              && (d.lin.current == ReadyForReview || d.lin.current == Approved)
              && exists v :: Asks(d.pkg, v) && !Falsy(v)
  {
    hide PackageProblems, PackageHash, Clean, OpenQuestions, AuthoriseRefusal, Asks;
    ValidIffClean(sha, env.ok, d.pkg, d.lin);
    SomeOpen(d.pkg);
    ThreeWays(OpenQuestions(d.pkg));
    AuthoriseReasons(env, d.pkg, approver);
  }

  lemma ThreeWays(q: Option<bool>)
    ensures q == None || q == Some(true) || q == Some(false)
  {
    match q
    case None =>
    case Some(b) => if b { assert q == Some(true); } else { assert q == Some(false); }
  }

  lemma SomeOpen(p: Package)
    ensures OpenQuestions(p) == Some(true) <==> exists v :: Asks(p, v) && !Falsy(v)
  {
    if OpenQuestions(p) == Some(true) {
      var v := SubField(Get(p.body, "scope"), "open_questions").value;
      AP.LeadsTwo(p.body, "scope", "open_questions", v);
      FalsyIff(v);
    }
    forall v | Asks(p, v) && !Falsy(v) ensures OpenQuestions(p) == Some(true) {
      QuestionsStored(p, v);
    }
  }

  /** How `do_approve` ends tells what it left: died, if a change it was to make did not happen; done, only
  with both files approved and an approval of the content in the ledger; refused, only with both files as
  they were, and the chain too unless the emit itself failed. */
  lemma ApproveOutcomeMeans(
      sha: Digest, env: Env, d: Disk, approver: string, commit: string, m: Emission, now: string,
      credit: nat)
    ensures var trace := ApproveTrace(sha, env, d, approver, commit, m, now);
            var e := Left(trace, credit);
            match ApproveOutcome(sha, env, d, approver, commit, m, now, credit)
            case Died => credit < |trace| - 1
            case Done =>
              && credit >= |trace| - 1
              && e.lin.current == Approved && e.pkg.status == Approved
              && exists a :: a in e.lin.approvals && PackageHash(sha, d.pkg) == Some(a.approvedHash)
            case Refused(reason) =>
              && credit >= |trace| - 1
              && e.pkg == d.pkg && e.lin == d.lin && (e.chain == d.chain || reason == EmitFailed)
  {
    hide PackageHash, ApproveRefusal, Named, Recognised;
    if ApproveRefusal(sha, env, d, approver).None? {
      HashForApproval(sha, env, d, approver);
      var hash := PackageHash(sha, d.pkg).value;
      if HasMatchingApproval(env.human, d.lin.approvals, hash) {
        var i :| 0 <= i < |d.lin.approvals| && d.lin.approvals[i].approvedHash == hash;
        assert d.lin.approvals[i] in d.lin.approvals;
      } else if d.lin.current == ReadyForReview && Named(d.pkg) && !m.Failed? {
        var chain := m.Chain(d.chain, ApprovalEvent(d, hash, approver, commit));
        var l := ApprovedLedger(d, hash, approver, commit, m, now);
        LeftOfWritten(d, chain, l, Approved, credit);
        assert l.approvals[|d.lin.approvals|].approvedHash == hash;
      }
    }
  }

  /** What a completed approval leaves: one entry and, unless muted, one event, of the same hash, number,
  approver and commit. */
  lemma ApprovalDoes(
      sha: Digest, env: Env, d: Disk, approver: string, commit: string, m: Emission, now: string,
      hash: string)
    requires ApproveRefusal(sha, env, d, approver).None? && d.lin.current == ReadyForReview
    requires HasId(d.pkg) && !m.Failed? && PackageHash(sha, d.pkg) == Some(hash)
    requires !HasMatchingApproval(env.human, d.lin.approvals, hash)
    ensures var trace := ApproveTrace(sha, env, d, approver, commit, m, now);
            var e := trace[|trace| - 1];
            var event := Event("package.approved", [Evidence(hash, d.pkg.revision, approver, commit)]);
            && |trace| == 4
            && e.pkg.body == d.pkg.body && e.pkg.revision == d.pkg.revision
            && e.pkg.status == Approved && e.lin.current == Approved
            && e.lin.revisions == d.lin.revisions && e.lin.transitions == d.lin.transitions
            && e.lin.approvals == d.lin.approvals
                 + [ApprovalEntry(d.pkg.revision, hash, approver, now, commit, m.Id())]
            && e.chain == if m.Recorded? then d.chain + [event] else d.chain
  {
    hide ApproveRefusal, PackageHash, HasMatchingApproval, HasId, Named;
    NamedIff(d.pkg);
  }

  /** Repeating an approval finishes what is missing: the ledger's state first, then the status line, one
  change each, and never the chain, the content or an entry. */
  lemma ReplayDoes(
      sha: Digest, env: Env, d: Disk, approver: string, commit: string, m: Emission, now: string, k: nat)
    requires ApproveRefusal(sha, env, d, approver).None?
    requires exists hash :: PackageHash(sha, d.pkg) == Some(hash)
                            && HasMatchingApproval(env.human, d.lin.approvals, hash)
    requires k < |ApproveTrace(sha, env, d, approver, commit, m, now)|
    ensures var trace := ApproveTrace(sha, env, d, approver, commit, m, now);
            var e, first := trace[k], d.lin.current != Approved;
            && |trace| == 1 + (if first then 1 else 0) + (if d.pkg.status != Approved then 1 else 0)
            && e.chain == d.chain
            && e.pkg == (if k == (if first then 2 else 1) then d.pkg.(status := Approved) else d.pkg)
            && e.lin == (if k > 0 then d.lin.(current := Approved) else d.lin)
  {
    hide ApproveRefusal, PackageHash, HasMatchingApproval;
  }

  // ----- transitions -----

  /** The chain after an emit: one event more, without evidence, if it was recorded, even by an emit that
  failed. */
  ghost predicate Told(before: seq<Event>, m: Emission, action: string, after: seq<Event>) {
    after == if m == Muted || m == Emission.Failed(false) then before else before + [Event(action, [])]
  }

  ghost predicate HasId(p: Package) {
    exists id :: AP.Leads(p.body, ["package_id"], id)
  }

  lemma NamedIff(p: Package)
    ensures Named(p) <==> HasId(p)
  {
    hide AP.Leads;
    forall id ensures AP.Leads(p.body, ["package_id"], id) <==> Get(p.body, "package_id") == Some(id) {
      AP.LeadsOne(p.body, "package_id", id);
    }
    if Named(p) { assert Get(p.body, "package_id") == Some(Get(p.body, "package_id").value); }
  }

  /** What `do_transition` asks, all of it. */
  lemma TransitionAllowedIff(sha: Digest, env: Env, d: Disk, to: State)
    ensures TransitionRefusal(sha, env, d, to).None? <==>
              && Clean(sha, env.ok, d.pkg, d.lin)
              && d.lin.current in EnteredFrom(to)
              && (d.lin.current == Completed && to == Closed ==>
                    exists v :: WantsFollowUp(d.pkg, v) && Falsy(v))
              && HasId(d.pkg)
  {
    hide PackageProblems, PackageHash, Clean, FollowUpRequired, WantsFollowUp, IsLegalTransition,
         EnteredFrom, Named, HasId;
    ValidIffClean(sha, env.ok, d.pkg, d.lin);
    NoneWanted(d.pkg);
    NamedIff(d.pkg);
    EdgesInto(d.lin.current, to);
    if Clean(sha, env.ok, d.pkg, d.lin) { CleanHashable(sha, env.ok, d.pkg, d.lin); }
  }

  /** A completed package that validates may be closed at once if no follow-up is wanted, and must go by
  way of `follow_up_due` if one is. */
  lemma ClosingAsks(sha: Digest, env: Env, d: Disk, wanted: bool)
    requires Validates(sha, env, d) && d.lin.current == Completed && HasId(d.pkg)
    requires WantsFollowUp(d.pkg, Bool(wanted))
    ensures TransitionRefusal(sha, env, d, Closed) == if wanted then Some(FollowUpFirst) else None
    ensures TransitionRefusal(sha, env, d, FollowUpDue) == None
  {
    hide PackageProblems, PackageHash, FollowUpRequired, WantsFollowUp, HasId, Named;
    FollowUpStored(d.pkg, Bool(wanted));
    NamedIff(d.pkg);
  }

  /** If the content last taken into review wants a follow-up, every orderly run that closes the package
  has been in `follow_up_due`. */
  lemma FollowUpSeen(sha: Digest, start: Disk, run: seq<Label>, v: Value)
    requires GoodHash(sha) && Scaffolded(start) && Orderly(run)
    requires After(sha, start, run).lin.current == Closed
    requires Reviewed(sha, start, run).Some? ==>
               WantsFollowUp(Reviewed(sha, start, run).value, v) && !Falsy(v)
    ensures exists n: nat :: n <= |run| && After(sha, start, run[..n]).lin.current == FollowUpDue
  {
    hide After, Reviewed, WantsFollowUp, FollowUpRequired, GoodHash, Scaffolded, Orderly;
    FollowUpHonoured(sha, start, run);
    FollowUpStored(Reviewed(sha, start, run).value, v);
  }

  /** What a completed transition leaves. */
  lemma TransitionDoes(
      sha: Digest, env: Env, d: Disk, to: State, m: Emission, now: string, actor: string)
    requires TransitionRefusal(sha, env, d, to).None?
    ensures PackageHash(sha, d.pkg).Some? || to != ReadyForReview
    ensures var trace := TransitionTrace(sha, env, d, to, m, now, actor);
            var e := trace[|trace| - 1];
            && |trace| == 4
            && e.pkg.body == d.pkg.body && e.pkg.revision == d.pkg.revision
            && e.pkg.status == to && e.lin.current == to
            && e.lin.approvals == d.lin.approvals
            && e.lin.transitions == d.lin.transitions
                 + [TransitionEntry(Ordinary, d.lin.current, to, now, actor, m.Id(), None)]
            && Told(d.chain, m, "package.transitioned", e.chain)
            && (to != ReadyForReview ==> e.lin.revisions == d.lin.revisions)
            && (to == ReadyForReview ==>
                  && Records(e.lin.revisions, d.pkg.revision, PackageHash(sha, d.pkg).value)
                  && Stamped(d.lin.revisions, e.lin.revisions, d.pkg.revision,
                             PackageHash(sha, d.pkg).value, now, actor))
  {
    hide TransitionRefusal, PackageHash, Snapshotted, Stamped;
    HashForTransition(sha, env, d, to);
    if to == ReadyForReview {
      SnapshotRecords(d.lin.revisions, d.pkg.revision, PackageHash(sha, d.pkg).value, now, actor);
    }
  }

  /** The list after a snapshot: the first entry of that number has the hash, the author and the time, as the
  time of the snapshot if it was there before and of its creation if not; every other entry is as it was. */
  ghost predicate Stamped(
      before: seq<RevisionEntry>, after: seq<RevisionEntry>, revision: int, hash: string, at: string,
      author: string)
  {
    exists n: nat :: n < |after| && StampedAt(before, after, n, revision, hash, at, author)
  }

  ghost predicate StampedAt(
      before: seq<RevisionEntry>, after: seq<RevisionEntry>, n: nat, revision: int, hash: string,
      at: string, author: string)
    requires n < |after|
  {
    && n <= |before| && after[..n] == before[..n]
    && (forall i :: 0 <= i < n ==> before[i].revision != revision)
    && after[n].revision == revision && after[n].hash == hash && after[n].author == author
    && (if n < |before| then
          && before[n].revision == revision && after[n + 1..] == before[n + 1..]
          && after[n].createdAt == before[n].createdAt && after[n].snapshottedAt == Some(at)
        else |after| == n + 1 && after[n].createdAt == at && after[n].snapshottedAt == None)
  }

  lemma SnapshotRecords(
      revisions: seq<RevisionEntry>, revision: int, hash: string, at: string, author: string)
    ensures Records(Snapshotted(revisions, revision, hash, at, author), revision, hash)
    ensures Stamped(revisions, Snapshotted(revisions, revision, hash, at, author), revision, hash, at, author)
  {
    var n := IndexOf(revisions, revision);
    SnapshotMeans(revisions, revision, hash, at, author, n);
    var after := Snapshotted(revisions, revision, hash, at, author);
    assert after[n].revision == revision;
    assert StampedAt(revisions, after, n, revision, hash, at, author);
  }

  /** Why `do_transition` refuses, in the order it asks. */
  lemma TransitionReasons(sha: Digest, env: Env, d: Disk, to: State)
    ensures TransitionRefusal(sha, env, d, to) == Some(InvalidPackage) <==>
              !Clean(sha, env.ok, d.pkg, d.lin)
    ensures TransitionRefusal(sha, env, d, to) == Some(IllegalTransition) <==>
              Clean(sha, env.ok, d.pkg, d.lin) && d.lin.current !in EnteredFrom(to)
    ensures TransitionRefusal(sha, env, d, to) == Some(FollowUpFirst) <==>
              Clean(sha, env.ok, d.pkg, d.lin) && d.lin.current == Completed && to == Closed
              && exists v :: WantsFollowUp(d.pkg, v) && !Falsy(v)
  {
    hide PackageProblems, PackageHash, Clean, FollowUpRequired, WantsFollowUp, IsLegalTransition,
         Named;
    ValidIffClean(sha, env.ok, d.pkg, d.lin);
    SomeWanted(d.pkg);
    ThreeWays(FollowUpRequired(d.pkg));
    EdgesInto(d.lin.current, to);
  }

  lemma SomeWanted(p: Package)
    ensures FollowUpRequired(p) == Some(true) <==> exists v :: WantsFollowUp(p, v) && !Falsy(v)
  {
    if FollowUpRequired(p) == Some(true) {
      var v := SubField(Get(p.body, "follow_up"), "required").value;
      AP.LeadsTwo(p.body, "follow_up", "required", v);
      FalsyIff(v);
    }
    forall v | WantsFollowUp(p, v) && !Falsy(v) ensures FollowUpRequired(p) == Some(true) {
      FollowUpStored(p, v);
    }
  }

  /** Which remedy a drift message names: revising, while the package can still be revised; superseding,
  once it is at work. */
  lemma DriftTold(sha: Digest, p: Package, l: Ledger, live: string)
    requires PackageHash(sha, p) == Some(live) && l.revisions != []
    requires DriftLocked(p.status) && live != Latest(l.revisions).hash
    ensures HashDriftErrors(sha, p, l)
            == Some(if p.status == Approved || LeadsToReview(p.status) then [DriftBeforeExecution]
                    else [DriftAfterExecution])
  {
    hide PackageHash, LeadsToReview, ReviseLegalFrom, DriftLocked;
    WhenRevisedWhenLocked(p.status);
  }

  // ----- revising and superseding -----

  /** A revision moves the number on by one and touches nothing else in the package file but the status;
  completed, it leaves a draft whose ledger records the new number with the content's hash. */
  lemma RevisionDoes(sha: Digest, d: Disk, m: Emission, now: string, actor: string, k: nat)
    requires k < |ReviseTrace(sha, d, m, now, actor)|
    ensures var trace := ReviseTrace(sha, d, m, now, actor);
            var e := trace[k];
            && (|trace| == 1 <==> d.lin.current != Approved && !LeadsToReview(d.lin.current))
            && e.pkg.body == d.pkg.body
            && e.pkg.revision == (if k == 0 then d.pkg.revision else d.pkg.revision + 1)
            && e.lin.approvals == d.lin.approvals
            && (|trace| > 2 <==> |trace| == 5)
            && (k == 4 ==>
                  && e.pkg.status == Draft && e.lin.current == Draft
                  && Told(d.chain, m, "package.revised", e.chain)
                  && PackageHash(sha, e.pkg).Some?
                  && Records(e.lin.revisions, e.pkg.revision, PackageHash(sha, e.pkg).value)
                  && Stamped(d.lin.revisions, e.lin.revisions, e.pkg.revision,
                             PackageHash(sha, e.pkg).value, now, actor)
                  && e.lin.transitions == d.lin.transitions
                       + [TransitionEntry(Revision, d.lin.current, Draft, now, actor, m.Id(), None)])
  {
    hide PackageHash, Snapshotted, Named, ReviseLegalFrom, LeadsToReview, Stamped;
    WhenRevisedWhenLocked(d.lin.current);
    var trace := ReviseTrace(sha, d, m, now, actor);
    if k == 4 {
      var p := Bumped(d.pkg);
      SnapshotRecords(d.lin.revisions, p.revision, PackageHash(sha, p).value, now, actor);
      StatusNotHashed(sha, p, trace[4].pkg);
    }
  }

  /** The replacement names itself as it was asked for, and says it supersedes this package; a package
  without an id is never superseded. */
  lemma SupersedeAllowedIff(d: Disk, newId: string, replacement: Option<Replacement>)
    ensures SupersedeRefusal(d, newId, replacement).None? <==>
              && d.lin.current in {Approved, Executable, InExecution, Verification}
              && exists r, id :: replacement == Some(r) && AP.Leads(d.pkg.body, ["package_id"], id)
                                 && r.packageId == Some(Str(newId))
                                 && (r.supersedes == Some(id) || (r.supersedes == None && id == Null))
  {
    hide AP.Leads;
    EdgesInto(d.lin.current, Superseded);
    forall id ensures AP.Leads(d.pkg.body, ["package_id"], id) <==> Get(d.pkg.body, "package_id") == Some(id) {
      AP.LeadsOne(d.pkg.body, "package_id", id);
    }
    if SupersedeRefusal(d, newId, replacement).None? {
      var id := Get(d.pkg.body, "package_id").value;
      assert replacement == Some(replacement.value) && AP.Leads(d.pkg.body, ["package_id"], id);
    }
  }

  /** What a completed supersession leaves: the last transition names the replacement. */
  lemma SupersessionDoes(
      d: Disk, newId: string, replacement: Option<Replacement>, m: Emission, now: string, actor: string)
    requires SupersedeRefusal(d, newId, replacement).None?
    ensures var trace := SupersedeTrace(d, newId, replacement, m, now, actor);
            var e := trace[|trace| - 1];
            && |trace| == 4
            && e.pkg.body == d.pkg.body && e.pkg.revision == d.pkg.revision
            && e.pkg.status == Superseded && e.lin.current == Superseded
            && Told(d.chain, m, "package.superseded", e.chain)
            && e.lin.revisions == d.lin.revisions && e.lin.approvals == d.lin.approvals
            && e.lin.transitions == d.lin.transitions
                 + [TransitionEntry(Supersession, d.lin.current, Superseded, now, actor, m.Id(),
                                    Some(newId))]
  {
    hide SupersedeRefusal;
  }
}
