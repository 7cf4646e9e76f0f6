/** `operations.py`: the state-changing operations on a package directory and the read gate.

An operation makes its durable changes one at a time and in a fixed order. Its trace lists what the
disk holds after each of them, so a crash leaves some element of the trace behind and a completed
operation leaves the last. `Store` carries the operations out under a budget of durable changes, after
which the process dies. */
module Operations {
  import opened Values
  import opened Lifecycle
  import opened LineageLedger
  import opened Packages
  import opened Checks
  import AP = ApprovalPolicy
  import PD = PolicyDocument

  // ----- the world an operation sees -----

  /** One item of an event's evidence. */
  datatype Evidence = Evidence(approvedHash: string, revision: int, approver: string, commit: string)

  datatype Event = Event(action: string, evidence: seq<Evidence>)

  const APPROVED := "package.approved"

  /** A package directory, and the append-only event chain every directory shares. */
  datatype Disk = Disk(pkg: Package, lin: Ledger, chain: seq<Event>)

  /** What happens to one emit: the event is recorded and its id (if any) returned; the null emitter
  says nothing to anybody; or `EmitError` is raised, after a timeout perhaps with the event recorded. */
  datatype Emission = Recorded(id: Option<string>) | Muted | Failed(recorded: bool)
  {
    function Id(): Option<string> {
      if Recorded? then id else None
    }

    function Chain(chain: seq<Event>, e: Event): seq<Event> {
      if Recorded? || (Failed? && recorded) then chain + [e] else chain
    }
  }

  /** The registry, the policy document and the per-file checks, as they stand when called. */
  datatype Env = Env(
    ok: FileChecks,
    human: string -> bool,
    policy: Option<AP.Policy>,
    oracle: AP.Oracle)

  datatype Reason =
    | InvalidPackage
    | IllegalTransition
    | FollowUpFirst
    | HasOpenQuestions
    | NotAuthorised
    | EmitFailed
    | ReplacementRefused
    | Raised

  /** How an operation ends: completed, an exception, or the process dying between two writes. */
  datatype Outcome = Done | Refused(reason: Reason) | Died

  /** The replacement package of a supersession, as loaded. */
  datatype Replacement = Replacement(packageId: Option<Value>, supersedes: Option<Value>)

  datatype Op =
    | Transition(to: State, actor: string)
    | Approve(approver: string, commit: string)
    | Revise(actor: string)
    | Supersede(newId: string, replacement: Option<Replacement>, actor: string)

  // ----- guards -----

  /** `_is_recognised_approver`. */
  predicate Recognised(human: string -> bool, approver: string) {
    human(approver) || PD.IsPolicyApprover(approver)
  }

  /** `_has_matching_approval`. */
  predicate HasMatchingApproval(human: string -> bool, approvals: seq<ApprovalEntry>, hash: string) {
    exists i :: 0 <= i < |approvals| && approvals[i].approvedHash == hash
                && Recognised(human, approvals[i].approver)
  }

  /** `_authorize_approver`. */
  function AuthoriseRefusal(env: Env, p: Package, approver: string): Option<Reason> {
    if env.human(approver) then None
    else if !PD.IsPolicyApprover(approver) then Some(NotAuthorised)
    else
      match env.policy
      case None => Some(NotAuthorised)
      case Some(policy) =>
        match Get(AsDict(p), "profile")
        case Some(Str(profile)) =>
          if approver != PD.Approver(profile, policy.version) then Some(NotAuthorised)
          else
            (match AP.RefusalsFor(env.oracle, policy, AsDict(p))
             case None => Some(Raised)
             case Some(refusals) => if refusals != [] then Some(NotAuthorised) else None)
        case _ => Some(NotAuthorised)
  }

  predicate Validates(sha: Digest, env: Env, d: Disk) {
    PackageProblems(sha, env.ok, d.pkg, d.lin) == Some([])
  }

  /** Every event names the package, so a package without an id stops an operation at its emit. */
  predicate Named(p: Package) {
    Get(p.body, "package_id").Some?
  }

  function TransitionRefusal(sha: Digest, env: Env, d: Disk, to: State): Option<Reason> {
    if !Validates(sha, env, d) then Some(InvalidPackage)
    else if !IsLegalTransition(d.lin.current, to) then Some(IllegalTransition)
    else if d.lin.current == Completed && to == Closed && FollowUpRequired(d.pkg) != Some(false) then
      Some(if FollowUpRequired(d.pkg).None? then Raised else FollowUpFirst)
    else if to == ReadyForReview && PackageHash(sha, d.pkg).None? then Some(Raised)
    else if !Named(d.pkg) then Some(Raised)
    else None
  }

  /** Everything `do_approve` asks before it looks at the ledger's approvals. */
  function ApproveRefusal(sha: Digest, env: Env, d: Disk, approver: string): Option<Reason> {
    if !Validates(sha, env, d) then Some(InvalidPackage)
    else if d.lin.current != ReadyForReview && d.lin.current != Approved then Some(IllegalTransition)
    else if OpenQuestions(d.pkg) != Some(false) then
      Some(if OpenQuestions(d.pkg).None? then Raised else HasOpenQuestions)
    else if AuthoriseRefusal(env, d.pkg, approver).Some? then AuthoriseRefusal(env, d.pkg, approver)
    else if PackageHash(sha, d.pkg).None? then Some(Raised)
    else None
  }

  function SupersedeRefusal(d: Disk, newId: string, replacement: Option<Replacement>): Option<Reason> {
    if !IsLegalTransition(d.lin.current, Superseded) then Some(IllegalTransition)
    else if replacement.None? then Some(ReplacementRefused)
    else if replacement.value.packageId != Some(Str(newId)) then Some(ReplacementRefused)
    else if OrNull(replacement.value.supersedes) != OrNull(Get(d.pkg.body, "package_id")) then
      Some(ReplacementRefused)
    else if !Named(d.pkg) then Some(Raised)
    else None
  }

  /** `dict.get` gives `None` for an absent key and for a null value alike. */
  function OrNull(v: Option<Value>): Value {
    if v.None? then Null else v.value
  }

  // ----- traces -----

  /** The ledger after a transition into `to`: the revision is snapshotted on the way into review. */
  function TransitionLedger(
      sha: Digest, d: Disk, to: State, m: Emission, now: string, actor: string): Ledger
    requires to == ReadyForReview ==> PackageHash(sha, d.pkg).Some?
  {
    Ledger(
      to,
      if to == ReadyForReview
      then Snapshotted(d.lin.revisions, d.pkg.revision, PackageHash(sha, d.pkg).value, now, actor)
      else d.lin.revisions,
      d.lin.transitions + [TransitionEntry(Ordinary, d.lin.current, to, now, actor, m.Id(), None)],
      d.lin.approvals)
  }

  function TransitionTrace(
      sha: Digest, env: Env, d: Disk, to: State, m: Emission, now: string, actor: string)
    : (r: seq<Disk>)
    ensures |r| > 0 && r[0] == d
  {
    if TransitionRefusal(sha, env, d, to).Some? then [d]
    else Written(d, m.Chain(d.chain, Event("package.transitioned", [])),
                 TransitionLedger(sha, d, to, m, now, actor), to)
  }

  /** An emit, then the ledger, then the status line. */
  function Written(d: Disk, chain: seq<Event>, lin: Ledger, status: State): (r: seq<Disk>)
    ensures |r| == 4 && r[0] == d
  {
    [d, d.(chain := chain), d.(chain := chain, lin := lin),
     Disk(d.pkg.(status := status), lin, chain)]
  }

  function ApprovalEvent(d: Disk, hash: string, approver: string, commit: string): Event {
    Event(APPROVED, [Evidence(hash, d.pkg.revision, approver, commit)])
  }

  function ApprovedLedger(
      d: Disk, hash: string, approver: string, commit: string, m: Emission, now: string): Ledger
  {
    d.lin.(current := Approved,
           approvals := d.lin.approvals +
             [ApprovalEntry(d.pkg.revision, hash, approver, now, commit, m.Id())])
  }

  /** A repeat of an approval the ledger already holds: finish the writes that are missing. */
  function ReplayTrace(d: Disk): (r: seq<Disk>)
    ensures |r| > 0 && r[0] == d
  {
    var lin := d.lin.(current := Approved);
    [d] + (if d.lin.current != Approved then [d.(lin := lin)] else [])
        + (if d.pkg.status != Approved then [Disk(d.pkg.(status := Approved), lin, d.chain)] else [])
  }

  function ApproveTrace(
      sha: Digest, env: Env, d: Disk, approver: string, commit: string, m: Emission,
      now: string): (r: seq<Disk>)
    ensures |r| > 0 && r[0] == d
  {
    if ApproveRefusal(sha, env, d, approver).Some? then [d]
    else
      var hash := PackageHash(sha, d.pkg).value;
      if HasMatchingApproval(env.human, d.lin.approvals, hash) then ReplayTrace(d)
      else if d.lin.current != ReadyForReview || !Named(d.pkg) then [d]
      else
        var chain := m.Chain(d.chain, ApprovalEvent(d, hash, approver, commit));
        if m.Failed? then [d, d.(chain := chain)]
        else Written(d, chain, ApprovedLedger(d, hash, approver, commit, m, now), Approved)
  }

  /** How `do_approve` ends when at most `credit` durable changes happen. */
  function ApproveOutcome(
      sha: Digest, env: Env, d: Disk, approver: string, commit: string, m: Emission,
      now: string, credit: nat): Outcome
  {
    var trace := ApproveTrace(sha, env, d, approver, commit, m, now);
    if ApproveRefusal(sha, env, d, approver).Some? then
      Refused(ApproveRefusal(sha, env, d, approver).value)
    else if HasMatchingApproval(env.human, d.lin.approvals, PackageHash(sha, d.pkg).value) then
      if credit < |trace| - 1 then Died else Done
    else if d.lin.current != ReadyForReview then Refused(IllegalTransition)
    else if !Named(d.pkg) then Refused(Raised)
    else if credit < |trace| - 1 then Died
    else if m.Failed? then Refused(EmitFailed)
    else Done
  }

  /** The package file with its revision line moved on by one. */
  function Bumped(p: Package): Package {
    p.(revision := p.revision + 1)
  }

  function ReviseTrace(sha: Digest, d: Disk, m: Emission, now: string, actor: string)
    : (r: seq<Disk>)
    ensures |r| > 0 && r[0] == d
  {
    if !ReviseLegalFrom(d.lin.current) then [d]
    else
      var p := Bumped(d.pkg);
      var b := d.(pkg := p);
      if PackageHash(sha, p).None? || !Named(p) then [d, b]
      else
        [d] + Written(b, m.Chain(d.chain, Event("package.revised", [])),
                      RevisedLedger(sha, b, m, now, actor), Draft)
  }

  /** The ledger after a revision, given the disk with the new number in the package file. */
  function RevisedLedger(sha: Digest, b: Disk, m: Emission, now: string, actor: string): Ledger
    requires PackageHash(sha, b.pkg).Some?
  {
    Ledger(
      Draft,
      Snapshotted(b.lin.revisions, b.pkg.revision, PackageHash(sha, b.pkg).value, now, actor),
      b.lin.transitions + [TransitionEntry(Revision, b.lin.current, Draft, now, actor, m.Id(), None)],
      b.lin.approvals)
  }

  function SupersedeTrace(
      d: Disk, newId: string, replacement: Option<Replacement>, m: Emission, now: string,
      actor: string): (r: seq<Disk>)
    ensures |r| > 0 && r[0] == d
  {
    if SupersedeRefusal(d, newId, replacement).Some? then [d]
    else
      Written(d, m.Chain(d.chain, Event("package.superseded", [])),
              SupersededLedger(d, newId, m, now, actor), Superseded)
  }

  function SupersededLedger(d: Disk, newId: string, m: Emission, now: string, actor: string): Ledger {
    var entry := TransitionEntry(Supersession, d.lin.current, Superseded, now, actor, m.Id(), Some(newId));
    d.lin.(current := Superseded, transitions := d.lin.transitions + [entry])
  }

  /** What the disk holds at the start of an operation and after each of its durable changes. */
  function Trace(sha: Digest, env: Env, d: Disk, op: Op, m: Emission, now: string)
    : (r: seq<Disk>)
    ensures |r| > 0 && r[0] == d
  {
    match op
    case Transition(to, actor) => TransitionTrace(sha, env, d, to, m, now, actor)
    case Approve(approver, commit) => ApproveTrace(sha, env, d, approver, commit, m, now)
    case Revise(actor) => ReviseTrace(sha, d, m, now, actor)
    case Supersede(newId, replacement, actor) => SupersedeTrace(d, newId, replacement, m, now, actor)
  }

  /** What is left when at most `cut` durable changes happen. */
  function Left(trace: seq<Disk>, cut: nat): Disk
    requires |trace| > 0
  {
    if cut < |trace| then trace[cut] else trace[|trace| - 1]
  }

  /** Where each part of the disk stands after `cut` of the three changes that end an operation. */
  lemma LeftOfWritten(d: Disk, chain: seq<Event>, lin: Ledger, status: State, cut: nat)
    ensures Left(Written(d, chain, lin, status), cut)
         == Disk(if cut >= 3 then d.pkg.(status := status) else d.pkg,
                 if cut >= 2 then lin else d.lin,
                 if cut >= 1 then chain else d.chain)
  {
    var trace := Written(d, chain, lin, status);
    if cut < 3 {
      assert Left(trace, cut) == trace[cut];
    } else {
      assert Left(trace, cut) == trace[3];
    }
  }

  lemma HashForTransition(sha: Digest, env: Env, d: Disk, to: State)
    requires TransitionRefusal(sha, env, d, to).None?
    ensures to == ReadyForReview ==> PackageHash(sha, d.pkg).Some?
  {
    hide PackageProblems, PackageHash, IsLegalTransition;
  }

  lemma HashForApproval(sha: Digest, env: Env, d: Disk, approver: string)
    requires ApproveRefusal(sha, env, d, approver).None?
    ensures PackageHash(sha, d.pkg).Some?
  {
    hide PackageProblems, PackageHash, OpenQuestions, AuthoriseRefusal;
  }

  // ----- carrying them out -----

  class Store {
    const sha: Digest
    var pkg: Package
    var lin: Ledger
    var chain: seq<Event>
    var credit: nat

    constructor (sha: Digest, disk: Disk, credit: nat)
      ensures this.sha == sha && Contents() == disk && this.credit == credit
    {
      this.sha := sha;
      pkg, lin, chain := disk.pkg, disk.lin, disk.chain;
      this.credit := credit;
    }

    function Contents(): Disk
      reads this
    {
      Disk(pkg, lin, chain)
    }

    /** `emitter.emit`, which appends to the chain unless it is mute or fails early. */
    method Emit(e: Event, m: Emission) returns (alive: bool)
      modifies this`chain, this`credit
      ensures alive == (old(credit) > 0)
      ensures credit == if alive then old(credit) - 1 else 0
      ensures chain == if alive then m.Chain(old(chain), e) else old(chain)
    {
      if credit == 0 { return false; }
      credit := credit - 1;
      chain := m.Chain(chain, e);
      return true;
    }

    /** `lineage.write`. */
    method WriteLineage(dict: LineageDict) returns (alive: bool)
      modifies this`lin, this`credit
      ensures alive == (old(credit) > 0)
      ensures credit == if alive then old(credit) - 1 else 0
      ensures lin == if alive then dict.View() else old(lin)
    {
      if credit == 0 { return false; }
      credit := credit - 1;
      lin := dict.View();
      return true;
    }

    /** `set_status_in_file`. */
    method SetStatus(status: State) returns (alive: bool)
      modifies this`pkg, this`credit
      ensures alive == (old(credit) > 0)
      ensures credit == if alive then old(credit) - 1 else 0
      ensures pkg == if alive then old(pkg).(status := status) else old(pkg)
    {
      if credit == 0 { return false; }
      credit := credit - 1;
      pkg := pkg.(status := status);
      return true;
    }

    /** `set_revision_in_file`. */
    method SetRevision(revision: int) returns (alive: bool)
      modifies this`pkg, this`credit
      ensures alive == (old(credit) > 0)
      ensures credit == if alive then old(credit) - 1 else 0
      ensures pkg == if alive then old(pkg).(revision := revision) else old(pkg)
    {
      if credit == 0 { return false; }
      credit := credit - 1;
      pkg := pkg.(revision := revision);
      return true;
    }

    /** The two writes that end an operation: the ledger, then the status line. */
    method Finish(dict: LineageDict, status: State) returns (outcome: Outcome)
      modifies this`pkg, this`lin, this`credit
      ensures lin == if old(credit) >= 1 then dict.View() else old(lin)
      ensures pkg == if old(credit) >= 2 then old(pkg).(status := status) else old(pkg)
      ensures outcome == if old(credit) >= 2 then Done else Died
    {
      var alive := WriteLineage(dict);
      if !alive { return Died; }
      alive := SetStatus(status);
      return if alive then Done else Died;
    }

    method DoTransition(env: Env, to: State, m: Emission, now: string, actor: string)
      returns (outcome: Outcome)
      modifies this
      ensures var trace := TransitionTrace(sha, env, old(Contents()), to, m, now, actor);
              && Contents() == Left(trace, old(credit))
              && outcome == (if TransitionRefusal(sha, env, old(Contents()), to).Some?
                             then Refused(TransitionRefusal(sha, env, old(Contents()), to).value)
                             else if old(credit) < |trace| - 1 then Died else Done)
    {
      hide PackageProblems, PackageHash, Snapshotted, TransitionRefusal;
      var refusal := RefuseTransition(env, to);
      if refusal.Some? { return Refused(refusal.value); }
      var dict := new LineageDict.Read(lin);
      var current := dict.current;
      if to == ReadyForReview {
        HashForTransition(sha, env, Contents(), to);
        dict.SnapshotRevision(pkg.revision, PackageHash(sha, pkg).value, now, actor);
      }
      ghost var after := TransitionLedger(sha, Contents(), to, m, now, actor);
      LeftOfWritten(Contents(), m.Chain(chain, Event("package.transitioned", [])), after, to, credit);
      var alive := Emit(Event("package.transitioned", []), m);
      if !alive { return Died; }
      dict.AppendTransition(Ordinary, current, to, now, actor, m.Id());
      dict.SetCurrent(to);
      assert dict.View() == after;
      outcome := Finish(dict, to);
    }

    /** The checks `do_transition` makes before it changes anything. */
    method RefuseTransition(env: Env, to: State) returns (refusal: Option<Reason>)
      ensures refusal == TransitionRefusal(sha, env, Contents(), to)
    {
      hide PackageProblems, PackageHash, FollowUpRequired, IsLegalTransition, Named;
      var problems := ValidatePackage(sha, env.ok, pkg, lin);
      if problems != Some([]) { return Some(InvalidPackage); }
      var current := lin.current;
      if !IsLegalTransition(current, to) { return Some(IllegalTransition); }
      if current == Completed && to == Closed {
        var required := FollowUpRequired(pkg);
        if required.None? { return Some(Raised); }
        if required.value { return Some(FollowUpFirst); }
      }
      if to == ReadyForReview && PackageHash(sha, pkg).None? { return Some(Raised); }
      if !Named(pkg) { return Some(Raised); }
      return None;
    }

    /** Everything `do_approve` checks before it looks at the ledger's approvals. */
    method RefuseApprove(env: Env, approver: string) returns (refusal: Option<Reason>)
      ensures refusal == ApproveRefusal(sha, env, Contents(), approver)
    {
      hide PackageProblems, PackageHash, OpenQuestions, AuthoriseRefusal;
      var problems := ValidatePackage(sha, env.ok, pkg, lin);
      if problems != Some([]) { return Some(InvalidPackage); }
      var current := lin.current;
      if current != ReadyForReview && current != Approved { return Some(IllegalTransition); }
      var questions := OpenQuestions(pkg);
      if questions.None? { return Some(Raised); }
      if questions.value { return Some(HasOpenQuestions); }
      refusal := AuthoriseRefusal(env, pkg, approver);
      if refusal.Some? { return refusal; }
      if PackageHash(sha, pkg).None? { return Some(Raised); }
      return None;
    }

    method DoApprove(env: Env, approver: string, commit: string, m: Emission, now: string)
      returns (outcome: Outcome)
      modifies this
      ensures var d := old(Contents());
              var trace := ApproveTrace(sha, env, d, approver, commit, m, now);
              && Contents() == Left(trace, old(credit))
              && outcome == ApproveOutcome(sha, env, d, approver, commit, m, now, old(credit))
    {
      hide PackageHash, ApproveRefusal, HasMatchingApproval, Named;
      var refusal := RefuseApprove(env, approver);
      if refusal.Some? { return Refused(refusal.value); }
      HashForApproval(sha, env, Contents(), approver);
      var hash := PackageHash(sha, pkg).value;
      var dict := new LineageDict.Read(lin);
      var current := dict.current;
      if HasMatchingApproval(env.human, dict.approvals, hash) {
        outcome := Replay(dict);
        return;
      }
      if current != ReadyForReview { return Refused(IllegalTransition); }
      if !Named(pkg) { return Refused(Raised); }
      ghost var event := ApprovalEvent(Contents(), hash, approver, commit);
      ghost var after := ApprovedLedger(Contents(), hash, approver, commit, m, now);
      LeftOfWritten(Contents(), m.Chain(chain, event), after, Approved, credit);
      var alive := Emit(Event(APPROVED, [Evidence(hash, pkg.revision, approver, commit)]), m);
      if !alive { return Died; }
      if m.Failed? { return Refused(EmitFailed); }
      dict.AppendApproval(pkg.revision, hash, approver, now, commit, m.Id());
      dict.SetCurrent(Approved);
      assert dict.View() == after;
      outcome := Finish(dict, Approved);
    }

    /** The replay branch of `do_approve`: an approval already in the ledger is finished, not repeated. */
    method Replay(dict: LineageDict) returns (outcome: Outcome)
      requires dict.View() == lin
      modifies dict, this
      ensures Contents() == Left(ReplayTrace(old(Contents())), old(credit))
      ensures outcome == if old(credit) < |ReplayTrace(old(Contents()))| - 1 then Died else Done
    {
      var alive;
      if dict.current != Approved {
        dict.SetCurrent(Approved);
        alive := WriteLineage(dict);
        if !alive { return Died; }
      }
      if pkg.status != Approved {
        alive := SetStatus(Approved);
        if !alive { return Died; }
      }
      return Done;
    }

    method DoRevise(m: Emission, now: string, actor: string) returns (outcome: Outcome)
      modifies this
      ensures var trace := ReviseTrace(sha, old(Contents()), m, now, actor);
              && Contents() == Left(trace, old(credit))
              && outcome == (if |trace| == 1 then Refused(IllegalTransition)
                             else if old(credit) < |trace| - 1 then Died
                             else if |trace| == 2 then Refused(Raised)
                             else Done)
    {
      hide PackageHash, Snapshotted, Named, ReviseLegalFrom;
      var dict := new LineageDict.Read(lin);
      var current := dict.current;
      if !ReviseLegalFrom(current) { return Refused(IllegalTransition); }
      var revision := pkg.revision + 1;
      var alive := SetRevision(revision);
      if !alive { return Died; }
      var hash := PackageHash(sha, pkg);
      if hash.None? { return Refused(Raised); }
      dict.SnapshotRevision(revision, hash.value, now, actor);
      if !Named(pkg) { return Refused(Raised); }
      ghost var after := RevisedLedger(sha, Contents(), m, now, actor);
      LeftOfWritten(Contents(), m.Chain(chain, Event("package.revised", [])), after, Draft, credit);
      alive := Emit(Event("package.revised", []), m);
      if !alive { return Died; }
      dict.AppendTransition(Revision, current, Draft, now, actor, m.Id());
      dict.SetCurrent(Draft);
      assert dict.View() == after;
      outcome := Finish(dict, Draft);
    }

    /** The checks `do_supersede` makes before it changes anything. */
    method RefuseSupersede(newId: string, replacement: Option<Replacement>)
      returns (refusal: Option<Reason>)
      ensures refusal == SupersedeRefusal(Contents(), newId, replacement)
    {
      if !IsLegalTransition(lin.current, Superseded) { return Some(IllegalTransition); }
      if replacement.None? { return Some(ReplacementRefused); }
      if replacement.value.packageId != Some(Str(newId)) { return Some(ReplacementRefused); }
      if OrNull(replacement.value.supersedes) != OrNull(Get(pkg.body, "package_id")) {
        return Some(ReplacementRefused);
      }
      if !Named(pkg) { return Some(Raised); }
      return None;
    }

    method DoSupersede(newId: string, replacement: Option<Replacement>, m: Emission, now: string,
                       actor: string)
      returns (outcome: Outcome)
      modifies this
      ensures var trace := SupersedeTrace(old(Contents()), newId, replacement, m, now, actor);
              && Contents() == Left(trace, old(credit))
              && outcome == (if SupersedeRefusal(old(Contents()), newId, replacement).Some?
                             then Refused(SupersedeRefusal(old(Contents()), newId, replacement).value)
                             else if old(credit) < |trace| - 1 then Died else Done)
    {
      hide SupersedeRefusal;
      var dict := new LineageDict.Read(lin);
      var current := dict.current;
      var refusal := RefuseSupersede(newId, replacement);
      if refusal.Some? { return Refused(refusal.value); }
      ghost var after := SupersededLedger(Contents(), newId, m, now, actor);
      LeftOfWritten(Contents(), m.Chain(chain, Event("package.superseded", [])), after, Superseded, credit);
      var alive := Emit(Event("package.superseded", []), m);
      if !alive { return Died; }
      dict.AppendTransition(Supersession, current, Superseded, now, actor, m.Id());
      dict.MarkSupersededBy(newId);
      dict.SetCurrent(Superseded);
      assert dict.View() == after;
      outcome := Finish(dict, Superseded);
    }
  }

  // ----- the read gate -----

  predicate CarriesApproval(e: Event, hash: string, revision: int) {
    e.action == APPROVED
    && exists i :: 0 <= i < |e.evidence| && e.evidence[i].approvedHash == hash
                   && e.evidence[i].revision == revision
  }

  predicate ChainHas(chain: seq<Event>, hash: string, revision: int) {
    exists i :: 0 <= i < |chain| && CarriesApproval(chain[i], hash, revision)
  }

  /** `_events_file_has_matching_approval`: scan the events, stop at the first that matches. */
  method EventsFileHasMatchingApproval(chain: seq<Event>, hash: string, revision: int)
    returns (found: bool)
    ensures found <==> ChainHas(chain, hash, revision)
  {
    for i := 0 to |chain|
      invariant forall k :: 0 <= k < i ==> !CarriesApproval(chain[k], hash, revision)
    {
      if chain[i].action != APPROVED {
        continue;
      }
      if exists k :: 0 <= k < |chain[i].evidence| && chain[i].evidence[k].approvedHash == hash
                     && chain[i].evidence[k].revision == revision {
        return true;
      }
    }
    return false;
  }

  datatype Answer = Verified | NotVerified | RaisedError

  /** What `verify_approval` answers. `intact` is whether the chain could be consulted and verified. */
  function VerifyAnswer(
      sha: Digest, human: string -> bool, d: Disk, intact: bool, ledgerOnly: bool): Answer
  {
    match PackageHash(sha, d.pkg)
    case None => RaisedError
    case Some(hash) =>
      if !HasMatchingApproval(human, d.lin.approvals, hash) then NotVerified
      else if ledgerOnly then Verified
      else if intact && ChainHas(d.chain, hash, d.pkg.revision) then Verified
      else NotVerified
  }

  /** `verify_approval`. */
  method VerifyApproval(store: Store, human: string -> bool, intact: bool, ledgerOnly: bool)
    returns (answer: Answer)
    ensures answer == VerifyAnswer(store.sha, human, store.Contents(), intact, ledgerOnly)
  {
    hide PackageHash, HasMatchingApproval;
    var hash := PackageHash(store.sha, store.pkg);
    if hash.None? { return RaisedError; }
    if !HasMatchingApproval(human, store.lin.approvals, hash.value) { return NotVerified; }
    if ledgerOnly { return Verified; }
    if !intact { return NotVerified; }
    var found := EventsFileHasMatchingApproval(store.chain, hash.value, store.pkg.revision);
    return if found then Verified else NotVerified;
  }
}
