/** `factory/reads.py` and `factory/execution.py`: reading a unit's dispatch history, and the one write
that must not be repeated blindly. */
module Dispatch {
  import opened Values

  // ----- dispatch history -----

  /** One history event. An absent record id reads as the empty string, an absent ordinal as 0. */
  datatype HistoryEvent = HistoryEvent(action: string, payload: Payload)

  datatype Payload = Payload(recordId: string, attempt: int)

  const PREFIX := "dispatch."

  predicate IsDispatch(e: HistoryEvent) {
    |PREFIX| <= |e.action| && e.action[..|PREFIX|] == PREFIX
  }

  function StatusOf(e: HistoryEvent): string
    requires IsDispatch(e)
  {
    e.action[|PREFIX|..]
  }

  /** The record ids the unit's dispatch events carry, whatever their outcome. */
  function RecordIds(history: seq<HistoryEvent>): set<string> {
    set i | 0 <= i < |history| && IsDispatch(history[i]) && history[i].payload.recordId != ""
      :: history[i].payload.recordId
  }

  /** `_dispatch_event_payloads`. */
  function DispatchPayloads(history: seq<HistoryEvent>): seq<(string, Payload)> {
    if |history| == 0 then []
    else
      (if IsDispatch(history[0]) then [(StatusOf(history[0]), history[0].payload)] else [])
      + DispatchPayloads(history[1..])
  }

  method DispatchEventPayloads(history: seq<HistoryEvent>) returns (events: seq<(string, Payload)>)
    ensures events == DispatchPayloads(history)
  {
    events := [];
    for i := 0 to |history|
      invariant events + DispatchPayloads(history[i..]) == DispatchPayloads(history)
    {
      assert history[i..][0] == history[i] && history[i..][1..] == history[i + 1..];
      if !IsDispatch(history[i]) {
        continue;
      }
      events := events + [(StatusOf(history[i]), history[i].payload)];
    }
    assert DispatchPayloads(history[|history|..]) == [];
  }

  /** The events kept are those of a dispatch, in the order they happened, with what follows the prefix. */
  lemma {:induction false} PayloadsInOrder(a: seq<HistoryEvent>, e: HistoryEvent, b: seq<HistoryEvent>)
    ensures DispatchPayloads(a + [e] + b)
            == DispatchPayloads(a) + (if "dispatch." <= e.action then [(e.action[9..], e.payload)] else [])
               + DispatchPayloads(b)
  {
    var t := a + [e] + b;
    if a == [] {
      assert t == [e] + b && t[0] == e && t[1..] == b;
    } else {
      PayloadsInOrder(a[1..], e, b);
      assert t[0] == a[0] && t[1..] == a[1..] + [e] + b;
    }
  }

  lemma {:induction false} PayloadFrom(history: seq<HistoryEvent>, p: (string, Payload))
    ensures p in DispatchPayloads(history) <==>
              exists i :: 0 <= i < |history| && IsDispatch(history[i])
                          && (StatusOf(history[i]), history[i].payload) == p
  {
    if |history| > 0 {
      PayloadFrom(history[1..], p);
      assert forall i :: 0 < i < |history| ==> history[i] == history[1..][i - 1];
      if p in DispatchPayloads(history[1..]) {
        var i :| 0 <= i < |history| - 1 && IsDispatch(history[1..][i])
                 && (StatusOf(history[1..][i]), history[1..][i].payload) == p;
        assert IsDispatch(history[i + 1]);
      }
    }
  }

  /** `scan_dispatch_events`: the highest ordinal any outcome has consumed, and every record id. */
  method ScanDispatchEvents(history: seq<HistoryEvent>) returns (latest: int, ids: set<string>)
    ensures ids == RecordIds(history)
    ensures latest >= 0
    ensures forall i :: 0 <= i < |history| && IsDispatch(history[i]) ==>
              history[i].payload.attempt <= latest
    ensures latest > 0 ==> exists i :: 0 <= i < |history| && IsDispatch(history[i])
                                       && history[i].payload.attempt == latest
  {
    var events := DispatchEventPayloads(history);
    latest, ids := 0, {};
    for k := 0 to |events|
      invariant latest >= 0
      invariant forall j :: 0 <= j < k ==> events[j].1.attempt <= latest
      invariant latest > 0 ==> exists j :: 0 <= j < k && events[j].1.attempt == latest
      invariant ids == set j | 0 <= j < k && events[j].1.recordId != "" :: events[j].1.recordId
    {
      var payload := events[k].1;
      if payload.recordId != "" {
        ids := ids + {payload.recordId};
      }
      if payload.attempt > latest {
        latest := payload.attempt;
      }
    }
    forall i | 0 <= i < |history| && IsDispatch(history[i])
      ensures history[i].payload.attempt <= latest
      ensures history[i].payload.recordId != "" ==> history[i].payload.recordId in ids
    {
      var p := (StatusOf(history[i]), history[i].payload);
      PayloadFrom(history, p);
      var j :| 0 <= j < |events| && events[j] == p;
    }
    forall j | 0 <= j < |events|
      ensures exists i :: 0 <= i < |history| && IsDispatch(history[i])
                          && history[i].payload == events[j].1
    {
      PayloadFrom(history, events[j]);
    }
  }

  /** `latest_dispatched_payload`: among events whose status is exactly `dispatched`, the first with the
  highest ordinal. Negative ordinals are never taken. */
  method LatestDispatchedPayload(history: seq<HistoryEvent>) returns (latest: Option<Payload>)
    ensures var events := DispatchPayloads(history);
            match latest
            case None => forall j :: 0 <= j < |events| && events[j].0 == "dispatched" ==>
                           events[j].1.attempt < 0
            case Some(p) => exists j :: 0 <= j < |events| && events[j] == ("dispatched", p)
                              && p.attempt >= 0
                              && (forall k :: 0 <= k < |events| && events[k].0 == "dispatched" ==>
                                    events[k].1.attempt <= p.attempt)
                              && (forall k :: 0 <= k < j && events[k].0 == "dispatched" ==>
                                    events[k].1.attempt < p.attempt)
  {
    var events := DispatchEventPayloads(history);
    var highest := -1;
    var at := -1;
    latest := None;
    for k := 0 to |events|
      invariant highest >= -1 && -1 <= at < k
      invariant at == -1 <==> latest == None
      invariant at == -1 ==> highest == -1
      invariant at >= 0 ==> latest == Some(events[at].1) && events[at].0 == "dispatched"
                            && events[at].1.attempt == highest && highest >= 0
      invariant forall j :: 0 <= j < k && events[j].0 == "dispatched" ==> events[j].1.attempt <= highest
      invariant forall j :: 0 <= j < at && events[j].0 == "dispatched" ==> events[j].1.attempt < highest
    {
      if events[k].0 != "dispatched" {
        continue;
      }
      var attempt := events[k].1.attempt;
      if attempt > highest {
        highest, at := attempt, k;
        latest := Some(events[k].1);
      }
    }
    if at >= 0 {
      assert events[at] == ("dispatched", latest.value);
    }
  }

  // ----- the server, as this client relies on it -----

  datatype Code = Timeout | Unavailable | Verdict

  predicate Inconclusive(code: Code) {
    code == Timeout || code == Unavailable
  }

  datatype Read = Answers | Fails(code: Code)

  /** What a POST does. A record that is created gets a fresh id and one history event. `Repeats` hands
  back a record that exists already, under whatever status the reply claims. `Anonymous` is a reply
  without a record id, which a server keeping its contract never sends. */
  datatype Post =
    | Creates(id: string, status: string, attempt: int)
    | Repeats(id: string, status: string)
    | Anonymous(status: string)
    | Rejects
    | LostAfterCreating(id: string, status: string, attempt: int, code: Code)
    | LostBeforeCreating(code: Code)

  datatype Response = Response(id: Option<string>, status: string)

  function Record(id: string, status: string, attempt: int): HistoryEvent {
    HistoryEvent(PREFIX + status, Payload(id, attempt))
  }

  /** The history a POST leaves behind. */
  function Effect(history: seq<HistoryEvent>, p: Post): seq<HistoryEvent> {
    match p
    case Creates(id, status, attempt) => history + [Record(id, status, attempt)]
    case LostAfterCreating(id, status, attempt, _) => history + [Record(id, status, attempt)]
    case _ => history
  }

  /** Record ids are fresh when created and known when repeated; a lost reply is a timeout or a dropped
  connection. */
  predicate Honest(history: seq<HistoryEvent>, p: Post) {
    match p
    case Creates(id, _, _) => id != "" && id !in RecordIds(history)
    case LostAfterCreating(id, _, _, code) =>
      id != "" && id !in RecordIds(history) && Inconclusive(code)
    case LostBeforeCreating(code) => Inconclusive(code)
    case Repeats(id, _) => id in RecordIds(history)
    case _ => true
  }

  class Server {
    var history: seq<HistoryEvent>
    var posts: nat

    constructor (history: seq<HistoryEvent>)
      ensures this.history == history && posts == 0
    {
      this.history := history;
      posts := 0;
    }

    method Post(p: Post) returns (response: Option<Response>, code: Code)
      modifies this
      ensures history == Effect(old(history), p) && posts == old(posts) + 1
      ensures match p
              case Creates(id, status, _) => response == Some(Response(Some(id), status))
              case Repeats(id, status) => response == Some(Response(Some(id), status))
              case Anonymous(status) => response == Some(Response(None, status))
              case Rejects => response == None && code == Verdict
              case LostAfterCreating(_, _, _, c) => response == None && code == c
              case LostBeforeCreating(c) => response == None && code == c
    {
      posts := posts + 1;
      history := Effect(history, p);
      code := Verdict;
      match p
      case Creates(id, status, _) => response := Some(Response(Some(id), status));
      case Repeats(id, status) => response := Some(Response(Some(id), status));
      case Anonymous(status) => response := Some(Response(None, status));
      case Rejects => response := None;
      case LostAfterCreating(_, _, _, c) => response, code := None, c;
      case LostBeforeCreating(c) => response, code := None, c;
    }

    /** Other clients, and commits that settle late. */
    method Elsewhere(events: seq<HistoryEvent>)
      modifies this`history
      ensures history == old(history) + events
    {
      history := history + events;
    }
  }

  // ----- dispatch -----

  datatype Report =
    | NoRevision
    | NotTried
    | SilentNoOp(known: string)
    | NotDispatched(id: Option<string>)
    | Dispatched(id: Option<string>)
    | Refused
    | Landed(ids: set<string>)
    | DidNotLand
    | CannotTell

  /** How the reads around the POST go, what the POST does, and what happens meanwhile. */
  datatype Script = Script(
    revisionKnown: bool,
    unit: Read,
    unitFound: bool,
    snapshot: Read,
    inFlight: bool,
    scan: Read,
    between: seq<HistoryEvent>,
    post: Post,
    meanwhile: seq<HistoryEvent>,
    reread: Read)

  /** `_report_dispatch_outcome`. */
  function OutcomeOf(response: Response, prior: set<string>): (int, Report) {
    if response.id.Some? && response.id.value in prior then (1, SilentNoOp(response.id.value))
    else if response.status != "dispatched" then (1, NotDispatched(response.id))
    else (0, Dispatched(response.id))
  }

  /** The POST is reached. */
  predicate Reached(s: Script) {
    s.revisionKnown && s.unit.Answers? && s.unitFound && s.snapshot.Answers? && s.inFlight
    && s.scan.Answers?
  }

  predicate Lost(p: Post) {
    p.LostAfterCreating? || p.LostBeforeCreating?
  }

  /** The history when the POST arrives, and when it is read again after a lost reply. */
  function AtPost(history: seq<HistoryEvent>, s: Script): seq<HistoryEvent> {
    history + s.between
  }

  function AtReread(history: seq<HistoryEvent>, s: Script): seq<HistoryEvent> {
    Effect(AtPost(history, s), s.post) + s.meanwhile
  }

  /** What `dispatch` exits with and says, as a function of the history it started from. */
  function DispatchResult(history: seq<HistoryEvent>, s: Script): (int, Report) {
    if !s.revisionKnown then (2, NoRevision)
    else if !Reached(s) then (1, NotTried)
    else
      match s.post
      case Creates(id, status, _) => OutcomeOf(Response(Some(id), status), RecordIds(history))
      case Repeats(id, status) => OutcomeOf(Response(Some(id), status), RecordIds(history))
      case Anonymous(status) => OutcomeOf(Response(None, status), RecordIds(history))
      case Rejects => (1, Refused)
      case _ =>
        if !s.reread.Answers? then (1, CannotTell)
        else
          var landed := RecordIds(AtReread(history, s)) - RecordIds(history);
          (1, if landed != {} then Landed(landed) else DidNotLand)
  }

  /** `_reconcile_inconclusive_dispatch`: read the history again and compare. */
  method Reconcile(server: Server, reread: Read, prior: set<string>) returns (report: Report)
    ensures report == (if !reread.Answers? then CannotTell
                       else if RecordIds(server.history) - prior != {}
                       then Landed(RecordIds(server.history) - prior)
                       else DidNotLand)
  {
    if !reread.Answers? { return CannotTell; }
    var _, current := ScanDispatchEvents(server.history);
    var landed := current - prior;
    return if landed != {} then Landed(landed) else DidNotLand;
  }

  /** `dispatch`. */
  method DispatchUnit(server: Server, s: Script) returns (exit: int, report: Report)
    requires Honest(AtPost(server.history, s), s.post)
    modifies server
    ensures (exit, report) == DispatchResult(old(server.history), s)
    ensures server.posts == old(server.posts) + if Reached(s) then 1 else 0
    ensures Reached(s) ==>
              server.history == (if Lost(s.post) then AtReread(old(server.history), s)
                                 else Effect(AtPost(old(server.history), s), s.post))
    ensures !Reached(s) ==> server.history == old(server.history)
  {
    if !s.revisionKnown { return 2, NoRevision; }
    var scannedBeforePost := false;
    if !s.unit.Answers? { return 1, NotTried; }
    if !s.unitFound { return 1, NotTried; }
    if !s.snapshot.Answers? { return 1, NotTried; }
    if !s.inFlight { return 1, NotTried; }
    if !s.scan.Answers? { return 1, NotTried; }
    var _, prior := ScanDispatchEvents(server.history);
    scannedBeforePost := true;
    server.Elsewhere(s.between);
    var response, code := server.Post(s.post);
    if response.None? {
      if Inconclusive(code) && scannedBeforePost {
        server.Elsewhere(s.meanwhile);
        report := Reconcile(server, s.reread, prior);
        return 1, report;
      }
      return 1, Refused;
    }
    var outcome := OutcomeOf(response.value, prior);
    return outcome.0, outcome.1;
  }

  // ----- what the exit code and the verdict mean -----

  lemma RecordIdsAppend(a: seq<HistoryEvent>, b: seq<HistoryEvent>)
    ensures RecordIds(a + b) == RecordIds(a) + RecordIds(b)
  {
    var h := a + b;
    forall id ensures id in RecordIds(h) <==> id in RecordIds(a) || id in RecordIds(b) {
      if id in RecordIds(h) {
        var i :| 0 <= i < |h| && IsDispatch(h[i]) && h[i].payload.recordId == id && id != "";
        if i < |a| { assert a[i] == h[i]; } else { assert b[i - |a|] == h[i]; }
      }
      if id in RecordIds(a) {
        var i :| 0 <= i < |a| && IsDispatch(a[i]) && a[i].payload.recordId == id && id != "";
        assert h[i] == a[i];
      }
      if id in RecordIds(b) {
        var i :| 0 <= i < |b| && IsDispatch(b[i]) && b[i].payload.recordId == id && id != "";
        assert h[|a| + i] == b[i];
      }
    }
  }

  lemma RecordIdsOne(id: string, status: string, attempt: int)
    requires id != ""
    ensures RecordIds([Record(id, status, attempt)]) == {id}
  {
    var e := Record(id, status, attempt);
    assert e.action[..|PREFIX|] == PREFIX;
    assert [e][0] == e;
    forall x ensures x in RecordIds([e]) <==> x == id {
    }
  }

  /** Exit 0, exactly: this POST created a record with status dispatched; or the reply names, as
  dispatched, a record another client created since the scan; or the reply carries no id at all. */
  lemma ExitZeroIff(history: seq<HistoryEvent>, s: Script)
    requires Honest(AtPost(history, s), s.post)
    ensures DispatchResult(history, s).0 == 0 <==>
              && Reached(s)
              && (|| (s.post.Creates? && s.post.status == "dispatched")
                  || (s.post.Repeats? && s.post.status == "dispatched"
                      && s.post.id in RecordIds(s.between) && s.post.id !in RecordIds(history))
                  || (s.post.Anonymous? && s.post.status == "dispatched"))
  {
    RecordIdsAppend(history, s.between);
  }

  /** Against a server whose replies carry a record id and with no other client writing in between, exit
  0 means this call created a record, absent from the earlier history, with status dispatched. */
  lemma ExitZeroMeansDispatched(history: seq<HistoryEvent>, s: Script)
    requires Honest(AtPost(history, s), s.post) && !s.post.Anonymous?
    requires RecordIds(s.between) <= RecordIds(history)
    ensures DispatchResult(history, s).0 == 0 <==>
              Reached(s) && s.post.Creates? && s.post.status == "dispatched"
    ensures DispatchResult(history, s).0 == 0 ==>
              && s.post.id !in RecordIds(history)
              && s.post.id in RecordIds(Effect(AtPost(history, s), s.post))
  {
    ExitZeroIff(history, s);
    RecordIdsAppend(history, s.between);
    if s.post.Creates? {
      var e := Record(s.post.id, s.post.status, s.post.attempt);
      RecordIdsAppend(AtPost(history, s), [e]);
      RecordIdsOne(s.post.id, s.post.status, s.post.attempt);
    }
  }

  /** A reply without a record id is taken at its word: exit 0, and the unit's history shows nothing. */
  lemma ExitZeroWithoutRecord(history: seq<HistoryEvent>)
    ensures var s := Script(true, Answers, true, Answers, true, Answers, [], Anonymous("dispatched"), [],
                            Answers);
            && DispatchResult(history, s) == (0, Dispatched(None))
            && Effect(AtPost(history, s), s.post) == history
  {
    assert history + [] == history;
  }

  /** After a lost reply that could be looked into, the verdict says "landed" exactly when some record
  has appeared since the scan: this call's, or another client's. */
  lemma VerdictCounts(history: seq<HistoryEvent>, s: Script)
    requires Honest(AtPost(history, s), s.post) && Reached(s) && Lost(s.post) && s.reread.Answers?
    ensures DispatchResult(history, s).1.Landed? <==>
              s.post.LostAfterCreating?
              || !(RecordIds(s.between) + RecordIds(s.meanwhile) <= RecordIds(history))
    ensures DispatchResult(history, s).1.Landed? || DispatchResult(history, s).1.DidNotLand?
  {
    var prior := RecordIds(history);
    var posted := Effect(AtPost(history, s), s.post);
    RecordIdsAppend(history, s.between);
    RecordIdsAppend(posted, s.meanwhile);
    if s.post.LostAfterCreating? {
      var e := Record(s.post.id, s.post.status, s.post.attempt);
      RecordIdsAppend(AtPost(history, s), [e]);
      RecordIdsOne(s.post.id, s.post.status, s.post.attempt);
      assert s.post.id in RecordIds(AtReread(history, s)) - prior;
    } else {
      var newly := RecordIds(AtReread(history, s)) - prior;
      var others := RecordIds(s.between) + RecordIds(s.meanwhile);
      assert newly == others - prior;
      NothingNew(others, prior);
    }
  }

  lemma NothingNew(a: set<string>, b: set<string>)
    ensures a - b == {} <==> a <= b
  {
    forall x | x in a && a - b == {} ensures x in b {
      assert x !in a - b;
    }
  }

  /** With the server settled and nobody else writing, the verdict is exact, and it names the record. A
  record created only after the second read is `LostBeforeCreating` here: it is read as not landed. */
  lemma VerdictExact(history: seq<HistoryEvent>, s: Script)
    requires Honest(AtPost(history, s), s.post) && Reached(s) && Lost(s.post) && s.reread.Answers?
    requires s.between == [] && s.meanwhile == []
    ensures DispatchResult(history, s).1 ==
              if s.post.LostAfterCreating? then Landed({s.post.id}) else DidNotLand
  {
    assert AtPost(history, s) == history;
    VerdictCounts(history, s);
    var posted := Effect(history, s.post);
    assert AtReread(history, s) == posted;
    if s.post.LostAfterCreating? {
      RecordIdsAppend(history, [Record(s.post.id, s.post.status, s.post.attempt)]);
      RecordIdsOne(s.post.id, s.post.status, s.post.attempt);
      assert RecordIds(posted) - RecordIds(history) == {s.post.id};
    }
  }

  // ----- what the operator is told -----

  /** Some dispatch event of the history, whatever its outcome, carries this record id. */
  ghost predicate Shows(history: seq<HistoryEvent>, id: string) {
    id != "" && exists e :: e in history && "dispatch." <= e.action && e.payload.recordId == id
  }

  lemma ShownIds(history: seq<HistoryEvent>, id: string)
    ensures id in RecordIds(history) <==> Shows(history, id)
  {
    if id in RecordIds(history) {
      var i :| 0 <= i < |history| && IsDispatch(history[i]) && history[i].payload.recordId == id && id != "";
      assert history[i] in history && "dispatch." <= history[i].action;
    }
    if Shows(history, id) {
      var e :| e in history && "dispatch." <= e.action && e.payload.recordId == id;
      assert IsDispatch(e);
      var i :| 0 <= i < |history| && history[i] == e;
    }
  }

  /** After a lost reply, however the second read goes: it is said not to have landed only if that read
  answered and this call created nothing; to have landed only with ids that are new, and all of them; and
  that nobody can tell exactly when the read failed. */
  lemma LostReports(history: seq<HistoryEvent>, s: Script)
    requires Honest(AtPost(history, s), s.post) && Reached(s) && Lost(s.post)
    ensures DispatchResult(history, s).0 == 1
    ensures match DispatchResult(history, s).1
            case CannotTell => s.reread.Fails?
            case DidNotLand =>
              && s.reread.Answers? && s.post.LostBeforeCreating?
              && forall id :: Shows(AtReread(history, s), id) ==> Shows(history, id)
            case Landed(ids) =>
              && s.reread.Answers? && ids != {}
              && forall id :: id in ids <==> Shows(AtReread(history, s), id) && !Shows(history, id)
            case _ => false
  {
    hide Shows;
    if s.reread.Answers? {
      VerdictCounts(history, s);
      var landed := RecordIds(AtReread(history, s)) - RecordIds(history);
      forall id ensures id in landed <==> Shows(AtReread(history, s), id) && !Shows(history, id) {
        ShownIds(AtReread(history, s), id);
        ShownIds(history, id);
      }
    }
  }

  /** A reply that came: its record is one the history showed already, exactly when the call is reported
  as having done nothing; otherwise its status decides. */
  lemma ReplyReports(history: seq<HistoryEvent>, s: Script, id: string, status: string)
    requires Reached(s)
    requires s.post == Repeats(id, status) || exists n :: s.post == Creates(id, status, n)
    ensures DispatchResult(history, s) ==
              if Shows(history, id) then (1, SilentNoOp(id))
              else if status == "dispatched" then (0, Dispatched(Some(id)))
              else (1, NotDispatched(Some(id)))
  {
    ShownIds(history, id);
  }

  /** The other ends: no revision, a read that failed or said no, a refused POST, a reply without an id.
  None of them says anything about landing. */
  lemma OtherReports(history: seq<HistoryEvent>, s: Script)
    ensures DispatchResult(history, s) == (2, NoRevision) <==> !s.revisionKnown
    ensures DispatchResult(history, s) == (1, NotTried) <==>
              s.revisionKnown && (s.unit.Fails? || !s.unitFound || s.snapshot.Fails? || !s.inFlight
                                  || s.scan.Fails?)
    ensures DispatchResult(history, s) == (1, Refused) <==> Reached(s) && s.post == Rejects
    ensures forall status :: Reached(s) && s.post == Anonymous(status) ==>
              DispatchResult(history, s)
              == if status == "dispatched" then (0, Dispatched(None)) else (1, NotDispatched(None))
    ensures var report := DispatchResult(history, s).1;
            (report.Landed? || report.DidNotLand? || report.CannotTell?) <==> (Reached(s) && Lost(s.post))
  {
  }
}
