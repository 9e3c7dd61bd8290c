/**
 The lease protocol for local peer actions: create, claim, progress, complete, cancel and the
 lazy expiry of leases, with the event sink.

 Every reading of the clock is a parameter of its own, because the code reads the clock again
 between a check and an update; the readings need not be ordered. Lease ids are fresh strings.
 */
module LocalActions {
  import opened Common
  import opened Text

  /** A stored action. `progress` and `result` are opaque dictionaries. */
  datatype Record = Record(
    id: string,
    kind: string,
    status: string,
    agentRunId: Option<string>,
    peerId: Option<string>,
    workspaceRoot: Option<string>,
    progress: map<string, string>,
    result: map<string, string>,
    error: Option<string>,
    leaseId: Option<string>,
    leaseExpiresAt: Option<real>,
    createdAt: Option<real>,
    updatedAt: Option<real>)

  datatype EventKind = Requested | WaitingPeer | Started | Progressed | Completed | Failed | Cancelled

  datatype Event = Event(agentRunId: string, kind: EventKind, payload: Record)

  datatype ActionError =
    | IdConflict | IdRequired | NotFound | AlreadyTerminal | PeerMismatch | LeaseMismatch | LeaseExpired
    | InvalidTerminalStatus | PeerRequired | StatusRequired

  datatype WorkerKind = LocalPeer | OtherWorker

  datatype Config = Config(sink: bool, leaseSec: real)

  /** `leases` is every lease id that was ever stored. */
  datatype Store = Store(order: seq<string>, actions: map<string, Record>, log: seq<Event>, leases: set<string>)

  const EMPTY: Store := Store([], map[], [], {})

  predicate Terminal(status: string) {
    status in {"completed", "failed", "cancelled", "timed_out"}
  }

  predicate TerminalEvent(kind: EventKind) {
    kind in {Completed, Failed, Cancelled}
  }

  predicate IsText(s: string) {
    s != "" && Stripped(s)
  }

  predicate OptionalText(o: Option<string>) {
    o.Some? ==> IsText(o.value)
  }

  /** What the record class enforces when a record is built. */
  predicate Normal(r: Record) {
    && IsText(r.id) && IsText(r.kind) && IsText(r.status)
    && OptionalText(r.agentRunId) && OptionalText(r.peerId) && OptionalText(r.workspaceRoot)
    && OptionalText(r.error) && OptionalText(r.leaseId)
  }

  /** What stays true of a stored record: `progress` may store a blank status, `cancel` any error text. */
  predicate Kept(r: Record) {
    && IsText(r.id) && IsText(r.kind) && r.status != ""
    && OptionalText(r.agentRunId) && OptionalText(r.peerId) && OptionalText(r.workspaceRoot)
    && OptionalText(r.leaseId)
  }

  function TextOrEmpty(o: Option<string>): string {
    match o case None => "" case Some(s) => s
  }

  function Blanked(o: Option<string>): Option<string> {
    match o
    case None => None
    case Some(s) => if Strip(s) == "" then None else Some(Strip(s))
  }

  /** The copy handed out: rebuilding a record strips its texts and refuses a blank status. */
  function Clone(r: Record): Result<Record, ActionError> {
    if Strip(r.status) == "" then Err(StatusRequired)
    else Ok(r.(status := Strip(r.status), error := Blanked(r.error)))
  }

  function Emit(cfg: Config, log: seq<Event>, r: Record, kind: EventKind): seq<Event> {
    if cfg.sink && r.agentRunId.Some? then log + [Event(r.agentRunId.value, kind, r)] else log
  }

  function LeaseSet(r: Record): set<string> {
    if r.leaseId.Some? then {r.leaseId.value} else {}
  }

  /** Store a record and report it. */
  function Put(cfg: Config, s: Store, r: Record, kind: EventKind): Store {
    s.(actions := s.actions[r.id := r], log := Emit(cfg, s.log, r, kind), leases := s.leases + LeaseSet(r))
  }

  // ---------------------------------------------------------------- the operations

  /** A record as a creation stores it. */
  function Stored(action: Record, now: real): Record {
    action.(createdAt := if action.createdAt.Some? then action.createdAt else Some(now), updatedAt := Some(now))
  }

  function Create(cfg: Config, s: Store, action: Record, now: real): (Store, Result<Record, ActionError>) {
    if action.id in s.actions then (s, Err(IdConflict))
    else
      var stored := Stored(action, now);
      var added := Put(cfg, s.(order := s.order + [stored.id]), stored, Requested);
      var reported := if stored.status != "requested" then Put(cfg, added, stored, WaitingPeer) else added;
      (reported, Clone(stored))
  }

  datatype ClaimRequest = ClaimRequest(
    peerId: string, worker: WorkerKind, features: set<string>, workspaceRoot: Option<string>, maxActions: int)

  function Slashes(s: string): string {
    if s == "" then "" else [if s[0] == '\\' then '/' else s[0]] + Slashes(s[1..])
  }

  function DropLastSlashes(s: string): string {
    if s != "" && s[|s| - 1] == '/' then DropLastSlashes(s[..|s| - 1]) else s
  }

  function NormalWorkspace(o: Option<string>): string {
    Lower(DropLastSlashes(Slashes(TextOrEmpty(o))))
  }

  predicate SameWorkspace(expected: Option<string>, actual: Option<string>) {
    NormalWorkspace(expected) != "" && NormalWorkspace(expected) == NormalWorkspace(actual)
  }

  /** A lease protects its action while it is set, has a non-zero expiry and that lies ahead. */
  predicate Leased(r: Record, now: real) {
    && r.leaseId.Some? && r.leaseId.value != ""
    && r.leaseExpiresAt.Some? && r.leaseExpiresAt.value != 0.0
    && r.leaseExpiresAt.value > now
  }

  predicate ClaimMatch(r: Record, req: ClaimRequest, now: real) {
    && req.worker.LocalPeer?
    && (Strip(TextOrEmpty(r.peerId)) != "" ==> Strip(TextOrEmpty(r.peerId)) == Strip(req.peerId))
    && !Terminal(r.status)
    && !Leased(r, now)
    && "local_actions" in req.features
    && "local_action:" + r.kind in req.features
    && (TextOrEmpty(r.workspaceRoot) != "" ==> SameWorkspace(r.workspaceRoot, req.workspaceRoot))
  }

  function LeaseOf(uuid: string): string {
    "local-action-lease:" + uuid
  }

  function Claimed(cfg: Config, r: Record, req: ClaimRequest, now: real, uuid: string): Record {
    r.(peerId := Some(Strip(req.peerId)), leaseId := Some(LeaseOf(uuid)), leaseExpiresAt := Some(now + cfg.leaseSec),
       status := "started", updatedAt := Some(now))
  }

  function Quota(req: ClaimRequest): int {
    if req.maxActions < 1 then 1 else req.maxActions
  }

  /** The claim loop from position `i` of the dictionary on; `k` actions are claimed already. */
  function ClaimFrom(cfg: Config, s: Store, req: ClaimRequest, now: real, uuids: seq<string>, i: nat, k: nat): (Store, seq<Record>)
    requires i <= |s.order| && k + |s.order| - i <= |uuids|
    requires forall id :: id in s.order ==> id in s.actions && s.actions[id].id == id
    decreases |s.order| - i
  {
    if i == |s.order| || k >= Quota(req) then (s, [])
    else
      var r := s.actions[s.order[i]];
      if !ClaimMatch(r, req, now) then ClaimFrom(cfg, s, req, now, uuids, i + 1, k)
      else
        var mine := Claimed(cfg, r, req, now, uuids[k]);
        var (last, others) := ClaimFrom(cfg, Put(cfg, s, mine, Started), req, now, uuids, i + 1, k + 1);
        (last, [mine.(error := Blanked(mine.error))] + others)
  }

  function Find(s: Store, id: string): Result<Record, ActionError> {
    var key := Strip(id);
    if key == "" then Err(IdRequired)
    else if key !in s.actions then Err(NotFound)
    else Ok(s.actions[key])
  }

  /** Who may change an action: the peer it is assigned to, with its lease, before the lease ends. */
  predicate Holds(r: Record, peerId: string, leaseId: string, clock: real) {
    && !Terminal(r.status)
    && (Strip(TextOrEmpty(r.peerId)) != "" ==> Strip(TextOrEmpty(r.peerId)) == Strip(peerId))
    && r.leaseId.Some? && r.leaseId.value != "" && r.leaseId.value == Strip(leaseId)
    && (if r.leaseExpiresAt.Some? then r.leaseExpiresAt.value else 0.0) > clock
  }

  function Returned(r: Record, now: real): Record {
    r.(status := "waiting_peer", leaseId := None, leaseExpiresAt := None, updatedAt := Some(now))
  }

  /** The lease check: an expired lease is given back, and that is reported, before the call fails. */
  function CheckLease(cfg: Config, s: Store, id: string, peerId: string, leaseId: string, clock: real, later: real)
    : (Store, Result<Record, ActionError>)
  {
    match Find(s, id)
    case Err(e) => (s, Err(e))
    case Ok(r) =>
      if Terminal(r.status) then (s, Err(AlreadyTerminal))
      else if Strip(TextOrEmpty(r.peerId)) != "" && Strip(TextOrEmpty(r.peerId)) != Strip(peerId) then (s, Err(PeerMismatch))
      else if TextOrEmpty(r.leaseId) == "" || r.leaseId.value != Strip(leaseId) then (s, Err(LeaseMismatch))
      else if (if r.leaseExpiresAt.Some? then r.leaseExpiresAt.value else 0.0) <= clock then
        (Put(cfg, s, Returned(r, later), WaitingPeer), Err(LeaseExpired))
      else (s, Ok(r))
  }

  function Progressing(cfg: Config, r: Record, progress: map<string, string>, status: string, now: real): Record {
    r.(status := if status == "" then "progress" else status, progress := progress, updatedAt := Some(now),
       leaseExpiresAt := Some(now + cfg.leaseSec))
  }

  function Progress(cfg: Config, s: Store, id: string, peerId: string, leaseId: string,
                    progress: map<string, string>, status: string, clock: real, later: real)
    : (Store, Result<Record, ActionError>)
  {
    match CheckLease(cfg, s, id, peerId, leaseId, clock, later)
    case (s', Err(e)) => (s', Err(e))
    case (s', Ok(r)) =>
      var r' := Progressing(cfg, r, progress, status, later);
      (Put(cfg, s', r', Progressed), Clone(r'))
  }

  function EventFor(terminal: string): EventKind {
    if terminal == "completed" then Completed else if terminal == "failed" then Failed else Cancelled
  }

  function Finished(r: Record, terminal: string, result: map<string, string>, error: string, now: real): Record {
    r.(status := terminal, result := result, error := if error == "" then None else Some(Strip(error)),
       updatedAt := Some(now))
  }

  function Complete(cfg: Config, s: Store, id: string, peerId: string, leaseId: string, status: string,
                    result: map<string, string>, error: string, clock: real, later: real)
    : (Store, Result<Record, ActionError>)
  {
    var terminal := Strip(status);
    if terminal !in {"completed", "failed", "cancelled"} then (s, Err(InvalidTerminalStatus))
    else
      match CheckLease(cfg, s, id, peerId, leaseId, clock, later)
      case (s', Err(e)) => (s', Err(e))
      case (s', Ok(r)) =>
        var r' := Finished(r, terminal, result, error, later);
        (Put(cfg, s', r', EventFor(terminal)), Clone(r'))
  }

  function Cancel(cfg: Config, s: Store, id: string, reason: string, now: real): (Store, Result<Record, ActionError>) {
    match Find(s, id)
    case Err(e) => (s, Err(e))
    case Ok(r) =>
      if Terminal(r.status) then (s, Clone(r))
      else
        var r' := r.(status := "cancelled", error := Some(if reason == "" then "cancelled" else reason),
                     updatedAt := Some(now));
        (Put(cfg, s, r', Cancelled), Clone(r'))
  }

  // ---------------------------------------------------------------- runs

  datatype Op =
    | DoCreate(action: Record, now: real)
    | DoClaim(req: ClaimRequest, now: real, uuids: seq<string>)
    | DoProgress(id: string, peerId: string, leaseId: string, progress: map<string, string>, status: string,
                 clock: real, later: real)
    | DoComplete(id: string, peerId: string, leaseId: string, status: string, result: map<string, string>,
                 error: string, clock: real, later: real)
    | DoCancel(id: string, reason: string, now: real)

  /** Records are built by their class, and the lease ids drawn by a claim are new. */
  ghost predicate Admissible(s: Store, op: Op) {
    match op
    case DoCreate(action, _) => Normal(action)
    case DoClaim(_, _, uuids) => FreshLeases(s, uuids)
    case _ => true
  }

  ghost predicate FreshLeases(s: Store, uuids: seq<string>) {
    && |s.order| <= |uuids|
    && (forall k :: 0 <= k < |uuids| ==> LeaseOf(uuids[k]) !in s.leases && Stripped(LeaseOf(uuids[k])))
    && (forall j, k :: 0 <= j < k < |uuids| ==> uuids[j] != uuids[k])
  }

  ghost predicate Indexed(s: Store) {
    && Distinct(s.order)
    && (forall id :: id in s.order <==> id in s.actions)
    && (forall id :: id in s.actions ==> s.actions[id].id == id)
  }

  function Step(cfg: Config, s: Store, op: Op): Store
    requires Indexed(s) && Admissible(s, op)
  {
    match op
    case DoCreate(action, now) => Create(cfg, s, action, now).0
    case DoClaim(req, now, uuids) =>
      if Strip(req.peerId) == "" then s else ClaimFrom(cfg, s, req, now, uuids, 0, 0).0
    case DoProgress(id, peerId, leaseId, progress, status, clock, later) =>
      Progress(cfg, s, id, peerId, leaseId, progress, status, clock, later).0
    case DoComplete(id, peerId, leaseId, status, result, error, clock, later) =>
      Complete(cfg, s, id, peerId, leaseId, status, result, error, clock, later).0
    case DoCancel(id, reason, now) => Cancel(cfg, s, id, reason, now).0
  }

  function EventsOf(log: seq<Event>, id: string): seq<Event> {
    if log == [] then []
    else
      var n := |log| - 1;
      if log[n].payload.id == id then EventsOf(log[..n], id) + [log[n]] else EventsOf(log[..n], id)
  }

  /** The log agrees with the record: its last event shows the record, and a terminal event ends its history. */
  ghost predicate LogAgrees(cfg: Config, s: Store, id: string) {
    var events := EventsOf(s.log, id);
    && (id !in s.actions ==> events == [])
    && (id in s.actions ==>
          && (cfg.sink && s.actions[id].agentRunId.Some? ==> events != [] && events[|events| - 1].payload == s.actions[id])
          && (forall i :: 0 <= i < |events| && TerminalEvent(events[i].kind) ==>
                i == |events| - 1 && Terminal(s.actions[id].status)))
  }

  ghost predicate Inv(cfg: Config, s: Store) {
    && Indexed(s)
    && (forall id :: id in s.actions ==> Kept(s.actions[id]) && LeaseSet(s.actions[id]) <= s.leases)
    && (forall id :: LogAgrees(cfg, s, id))
  }

  /** What holds between a store and every later one. */
  ghost predicate Later(s: Store, t: Store) {
    && s.leases <= t.leases
    && forall id :: id in s.actions ==> id in t.actions && RecordLater(s, t, id)
  }

  ghost predicate RecordLater(s: Store, t: Store, id: string)
    requires id in s.actions && id in t.actions
  {
    var r, r' := s.actions[id], t.actions[id];
    && (Terminal(r.status) ==> r' == r && EventsOf(t.log, id) == EventsOf(s.log, id))
    && (r.peerId.Some? ==> r'.peerId == r.peerId)
    && (r'.leaseId == r.leaseId || r'.leaseId.None? || r'.leaseId.value !in s.leases)
    && r'.agentRunId == r.agentRunId
  }

  lemma EventsOfAppend(log: seq<Event>, e: Event, id: string)
    ensures EventsOf(log + [e], id) == if e.payload.id == id then EventsOf(log, id) + [e] else EventsOf(log, id)
  {
    assert (log + [e])[..|log|] == log;
  }

  lemma EmitEvents(cfg: Config, log: seq<Event>, r: Record, kind: EventKind, id: string)
    ensures EventsOf(Emit(cfg, log, r, kind), id) ==
              if id == r.id && cfg.sink && r.agentRunId.Some?
              then EventsOf(log, id) + [Event(r.agentRunId.value, kind, r)] else EventsOf(log, id)
  {
    if cfg.sink && r.agentRunId.Some? {
      EventsOfAppend(log, Event(r.agentRunId.value, kind, r), id);
    }
  }

  /** What an update of a stored record may do. */
  ghost predicate Update(s: Store, r: Record, kind: EventKind) {
    && r.id in s.actions
    && var was := s.actions[r.id];
    && !Terminal(was.status)
    && Kept(r)
    && (TerminalEvent(kind) ==> Terminal(r.status))
    && r.agentRunId == was.agentRunId
    && (was.peerId.Some? ==> r.peerId == was.peerId)
    && (r.leaseId == was.leaseId || r.leaseId.None? || r.leaseId.value !in s.leases)
  }

  lemma PutKeeps(cfg: Config, s: Store, r: Record, kind: EventKind)
    requires Inv(cfg, s) && Update(s, r, kind)
    ensures Inv(cfg, Put(cfg, s, r, kind)) && Later(s, Put(cfg, s, r, kind))
  {
    hide Kept;
    var t := Put(cfg, s, r, kind);
    forall id ensures LogAgrees(cfg, t, id) {
      assert LogAgrees(cfg, s, id);
      EmitEvents(cfg, s.log, r, kind, id);
    }
    forall id | id in s.actions ensures RecordLater(s, t, id) {
      EmitEvents(cfg, s.log, r, kind, id);
    }
  }

  lemma AddKeeps(cfg: Config, s: Store, r: Record)
    requires Inv(cfg, s) && Kept(r) && r.id !in s.actions
    ensures var t := Put(cfg, s.(order := s.order + [r.id]), r, Requested);
            Inv(cfg, t) && Later(s, t)
  {
    hide Kept, EventsOf, Emit;
    var t := Put(cfg, s.(order := s.order + [r.id]), r, Requested);
    assert forall id :: id in t.order <==> id in s.order || id == r.id;
    forall id ensures LogAgrees(cfg, t, id) {
      assert LogAgrees(cfg, s, id);
      EmitEvents(cfg, s.log, r, Requested, id);
    }
    forall id | id in s.actions ensures RecordLater(s, t, id) {
      EmitEvents(cfg, s.log, r, Requested, id);
    }
  }

  /** Reporting a record again changes nothing but the log. */
  lemma ReportKeeps(cfg: Config, s: Store, r: Record)
    requires Inv(cfg, s) && r.id in s.actions && s.actions[r.id] == r
    requires forall i :: 0 <= i < |EventsOf(s.log, r.id)| ==> !TerminalEvent(EventsOf(s.log, r.id)[i].kind)
    ensures Inv(cfg, Put(cfg, s, r, WaitingPeer))
    ensures Put(cfg, s, r, WaitingPeer).actions == s.actions && s.leases <= Put(cfg, s, r, WaitingPeer).leases
    ensures forall id :: id != r.id ==> EventsOf(Put(cfg, s, r, WaitingPeer).log, id) == EventsOf(s.log, id)
  {
    hide Kept;
    var t := Put(cfg, s, r, WaitingPeer);
    assert t.actions == s.actions;
    forall id ensures LogAgrees(cfg, t, id) {
      assert LogAgrees(cfg, s, id);
      EmitEvents(cfg, s.log, r, WaitingPeer, id);
    }
    forall id | id != r.id ensures EventsOf(t.log, id) == EventsOf(s.log, id) {
      EmitEvents(cfg, s.log, r, WaitingPeer, id);
    }
  }

  lemma LaterTransitive(s: Store, t: Store, u: Store)
    requires Later(s, t) && Later(t, u)
    ensures Later(s, u)
  {
    forall id | id in s.actions ensures id in u.actions && RecordLater(s, u, id) {
      assert RecordLater(s, t, id) && RecordLater(t, u, id);
    }
  }

  /** A new record has been reported once, as requested. */
  lemma AddedEvents(cfg: Config, s: Store, r: Record)
    requires LogAgrees(cfg, s, r.id) && r.id !in s.actions
    ensures var t := Put(cfg, s.(order := s.order + [r.id]), r, Requested);
            forall i :: 0 <= i < |EventsOf(t.log, r.id)| ==> !TerminalEvent(EventsOf(t.log, r.id)[i].kind)
  {
    hide EventsOf;
    EmitEvents(cfg, s.log, r, Requested, r.id);
  }

  lemma ReportedLater(cfg: Config, s: Store, added: Store, r: Record)
    requires Later(s, added) && r.id !in s.actions && r.id in added.actions
    requires var t := Put(cfg, added, r, WaitingPeer);
             t.actions == added.actions && added.leases <= t.leases && forall id :: id != r.id ==> EventsOf(t.log, id) == EventsOf(added.log, id)
    ensures Later(s, Put(cfg, added, r, WaitingPeer))
  {
    hide EventsOf, Emit;
    var t := Put(cfg, added, r, WaitingPeer);
    forall id | id in s.actions ensures RecordLater(s, t, id) {
      assert RecordLater(s, added, id);
    }
  }

  lemma LaterSelf(s: Store)
    ensures Later(s, s)
  {
    hide EventsOf;
  }

  lemma CreateKeeps(cfg: Config, s: Store, action: Record, now: real)
    requires Inv(cfg, s) && Normal(action)
    ensures Inv(cfg, Create(cfg, s, action, now).0) && Later(s, Create(cfg, s, action, now).0)
  {
    hide Emit, EventsOf, LogAgrees;
    LaterSelf(s);
    hide RecordLater;
    if action.id !in s.actions {
      var stored := Stored(action, now);
      AddKeeps(cfg, s, stored);
      AddedEvents(cfg, s, stored);
      if stored.status != "requested" {
        var added := Put(cfg, s.(order := s.order + [stored.id]), stored, Requested);
        assert stored.id in added.actions && added.actions[stored.id] == stored;
        hide Inv, Put, Later, Stored;
        ReportKeeps(cfg, added, stored);
        ReportedLater(cfg, s, added, stored);
      }
    }
  }

  lemma StripText(s: string)
    ensures IsText(s) ==> Strip(s) == s
    ensures Strip(s) != "" ==> IsText(Strip(s))
  {
    StripFixpoint(s);
  }

  lemma ClaimUpdates(cfg: Config, s: Store, r: Record, req: ClaimRequest, now: real, uuid: string)
    requires Inv(cfg, s) && r.id in s.actions && s.actions[r.id] == r
    requires ClaimMatch(r, req, now) && Strip(req.peerId) != ""
    requires LeaseOf(uuid) !in s.leases && Stripped(LeaseOf(uuid))
    ensures Update(s, Claimed(cfg, r, req, now, uuid), Started)
  {
    hide Strip, SameWorkspace;
    StripText(req.peerId);
    if r.peerId.Some? { StripText(r.peerId.value); }
  }

  ghost predicate FreshFrom(s: Store, uuids: seq<string>, k: nat) {
    && k <= |uuids|
    && (forall j :: k <= j < |uuids| ==> LeaseOf(uuids[j]) !in s.leases && Stripped(LeaseOf(uuids[j])))
    && (forall i, j :: 0 <= i < j < |uuids| ==> uuids[i] != uuids[j])
  }

  lemma LeaseOfInjective(a: string, b: string)
    requires LeaseOf(a) == LeaseOf(b)
    ensures a == b
  {
    var p := "local-action-lease:";
    assert a == LeaseOf(a)[|p|..] && b == LeaseOf(b)[|p|..];
  }

  lemma FreshNext(cfg: Config, s: Store, r: Record, req: ClaimRequest, now: real, uuids: seq<string>, k: nat)
    requires FreshFrom(s, uuids, k) && k < |uuids|
    ensures FreshFrom(Put(cfg, s, Claimed(cfg, r, req, now, uuids[k]), Started), uuids, k + 1)
  {
    forall j | k + 1 <= j < |uuids|
      ensures LeaseOf(uuids[j]) !in Put(cfg, s, Claimed(cfg, r, req, now, uuids[k]), Started).leases
    {
      if LeaseOf(uuids[j]) == LeaseOf(uuids[k]) {
        LeaseOfInjective(uuids[j], uuids[k]);
      }
    }
  }

  lemma {:induction false} ClaimKeeps(cfg: Config, s: Store, req: ClaimRequest, now: real, uuids: seq<string>, i: nat, k: nat)
    requires Inv(cfg, s) && Strip(req.peerId) != ""
    requires i <= |s.order| && k + |s.order| - i <= |uuids| && FreshFrom(s, uuids, k)
    ensures Inv(cfg, ClaimFrom(cfg, s, req, now, uuids, i, k).0) && Later(s, ClaimFrom(cfg, s, req, now, uuids, i, k).0)
    decreases |s.order| - i
  {
    hide Strip, ClaimMatch, LogAgrees, FreshFrom, Kept;
    if i < |s.order| && k < Quota(req) {
      var r := s.actions[s.order[i]];
      if !ClaimMatch(r, req, now) {
        ClaimKeeps(cfg, s, req, now, uuids, i + 1, k);
      } else {
        FreshAt(s, uuids, k);
        ClaimUpdates(cfg, s, r, req, now, uuids[k]);
        PutKeeps(cfg, s, Claimed(cfg, r, req, now, uuids[k]), Started);
        FreshNext(cfg, s, r, req, now, uuids, k);
        var next := Put(cfg, s, Claimed(cfg, r, req, now, uuids[k]), Started);
        ClaimKeeps(cfg, next, req, now, uuids, i + 1, k + 1);
        LaterTransitive(s, next, ClaimFrom(cfg, next, req, now, uuids, i + 1, k + 1).0);
      }
    }
  }

  lemma FreshAt(s: Store, uuids: seq<string>, k: nat)
    requires FreshFrom(s, uuids, k) && k < |uuids|
    ensures LeaseOf(uuids[k]) !in s.leases && Stripped(LeaseOf(uuids[k]))
  {
  }

  /** Giving an expired lease back. */
  lemma ReturnKeeps(cfg: Config, s: Store, r: Record, later: real)
    requires Inv(cfg, s) && r.id in s.actions && s.actions[r.id] == r && !Terminal(r.status)
    ensures Inv(cfg, Put(cfg, s, Returned(r, later), WaitingPeer)) && Later(s, Put(cfg, s, Returned(r, later), WaitingPeer))
  {
    assert Update(s, Returned(r, later), WaitingPeer);
    hide *;
    PutKeeps(cfg, s, Returned(r, later), WaitingPeer);
  }

  lemma FoundStored(cfg: Config, s: Store, id: string)
    requires Inv(cfg, s) && Find(s, id).Ok?
    ensures var r := Find(s, id).value; r.id in s.actions && s.actions[r.id] == r
  {
    hide Strip, LogAgrees, Kept;
  }

  lemma CheckKeeps(cfg: Config, s: Store, id: string, peerId: string, leaseId: string, clock: real, later: real)
    requires Inv(cfg, s)
    ensures var (t, r) := CheckLease(cfg, s, id, peerId, leaseId, clock, later);
            && Inv(cfg, t) && Later(s, t)
            && (r.Ok? ==> t == s && r.value.id in s.actions && s.actions[r.value.id] == r.value && Holds(r.value, peerId, leaseId, clock))
  {
    LaterSelf(s);
    hide Strip, Inv, Later, Put, Returned, Find, Terminal;
    var found := Find(s, id);
    if found.Ok? {
      FoundStored(cfg, s, id);
      if !Terminal(found.value.status) {
        ReturnKeeps(cfg, s, found.value, later);
      }
    }
  }

  /** Every operation keeps the invariant and only moves forward. */
  lemma StepKeeps(cfg: Config, s: Store, op: Op)
    requires Inv(cfg, s) && Admissible(s, op)
    ensures Inv(cfg, Step(cfg, s, op)) && Later(s, Step(cfg, s, op))
  {
    hide Strip, LogAgrees, ClaimFrom, CheckLease, Create, Normal;
    match op
    case DoCreate(action, now) => CreateKeeps(cfg, s, action, now);
    case DoClaim(req, now, uuids) =>
      if Strip(req.peerId) != "" {
        ClaimKeeps(cfg, s, req, now, uuids, 0, 0);
      }
    case DoProgress(id, peerId, leaseId, progress, status, clock, later) =>
      CheckKeeps(cfg, s, id, peerId, leaseId, clock, later);
      var (t, r) := CheckLease(cfg, s, id, peerId, leaseId, clock, later);
      if r.Ok? {
        PutKeeps(cfg, s, Progressing(cfg, r.value, progress, status, later), Progressed);
      }
    case DoComplete(id, peerId, leaseId, status, result, error, clock, later) =>
      CheckKeeps(cfg, s, id, peerId, leaseId, clock, later);
      var (t, r) := CheckLease(cfg, s, id, peerId, leaseId, clock, later);
      if r.Ok? && Strip(status) in {"completed", "failed", "cancelled"} {
        PutKeeps(cfg, s, Finished(r.value, Strip(status), result, error, later), EventFor(Strip(status)));
      }
    case DoCancel(id, reason, now) =>
      var found := Find(s, id);
      if found.Ok? && !Terminal(found.value.status) {
        var r := found.value;
        PutKeeps(cfg, s, r.(status := "cancelled", error := Some(if reason == "" then "cancelled" else reason),
                            updatedAt := Some(now)), Cancelled);
      }
  }

  /** A run of operations from one store to another. */
  ghost predicate Runs(cfg: Config, s: Store, ops: seq<Op>, t: Store)
    decreases |ops|
  {
    if ops == [] then t == s
    else Indexed(s) && Admissible(s, ops[0]) && Runs(cfg, Step(cfg, s, ops[0]), ops[1..], t)
  }

  ghost predicate Reachable(cfg: Config, s: Store) {
    exists ops :: Runs(cfg, EMPTY, ops, s)
  }

  lemma {:induction false} RunKeeps(cfg: Config, s: Store, ops: seq<Op>, t: Store)
    requires Inv(cfg, s) && Runs(cfg, s, ops, t)
    ensures Inv(cfg, t) && Later(s, t)
    decreases |ops|
  {
    hide Step, Kept, LogAgrees, Admissible;
    if ops != [] {
      StepKeeps(cfg, s, ops[0]);
      RunKeeps(cfg, Step(cfg, s, ops[0]), ops[1..], t);
      LaterTransitive(s, Step(cfg, s, ops[0]), t);
    }
  }

  lemma ReachableInv(cfg: Config, s: Store)
    requires Reachable(cfg, s)
    ensures Inv(cfg, s)
  {
    var ops :| Runs(cfg, EMPTY, ops, s);
    RunKeeps(cfg, EMPTY, ops, s);
  }

  /** After a terminal status no operation changes the record or reports anything about it. */
  lemma TerminalAbsorbs(cfg: Config, s: Store, ops: seq<Op>, t: Store, id: string)
    requires Reachable(cfg, s) && Runs(cfg, s, ops, t)
    requires id in s.actions && Terminal(s.actions[id].status)
    ensures id in t.actions && t.actions[id] == s.actions[id]
    ensures EventsOf(t.log, id) == EventsOf(s.log, id)
  {
    ReachableInv(cfg, s);
    RunKeeps(cfg, s, ops, t);
    assert RecordLater(s, t, id);
  }

  /** At most one completed, failed or cancelled event is ever reported for an action. */
  lemma OneTerminalEvent(cfg: Config, s: Store, id: string, i: nat, j: nat)
    requires Reachable(cfg, s)
    requires i < |EventsOf(s.log, id)| && j < |EventsOf(s.log, id)|
    requires TerminalEvent(EventsOf(s.log, id)[i].kind) && TerminalEvent(EventsOf(s.log, id)[j].kind)
    ensures i == j == |EventsOf(s.log, id)| - 1
    ensures id in s.actions && Terminal(s.actions[id].status)
  {
    ReachableInv(cfg, s);
    assert LogAgrees(cfg, s, id);
  }

  /** With a sink, the last event about a run's action always shows the stored record. */
  lemma LogShowsStore(cfg: Config, s: Store, id: string)
    requires Reachable(cfg, s) && id in s.actions
    requires cfg.sink && s.actions[id].agentRunId.Some?
    ensures EventsOf(s.log, id) != []
    ensures EventsOf(s.log, id)[|EventsOf(s.log, id)| - 1].payload == s.actions[id]
  {
    ReachableInv(cfg, s);
    assert LogAgrees(cfg, s, id);
  }

  /** The peer that first claims an action is the only one it is ever assigned to. */
  lemma PeerFixed(cfg: Config, s: Store, ops: seq<Op>, t: Store, id: string)
    requires Reachable(cfg, s) && Runs(cfg, s, ops, t)
    requires id in s.actions && s.actions[id].peerId.Some?
    ensures id in t.actions && t.actions[id].peerId == s.actions[id].peerId
  {
    ReachableInv(cfg, s);
    RunKeeps(cfg, s, ops, t);
    assert RecordLater(s, t, id);
  }

  /** A lease id that is no longer stored for its action never works for that action again. */
  lemma SupersededLeaseDead(cfg: Config, s: Store, ops: seq<Op>, t: Store, id: string,
                            peerId: string, leaseId: string, clock: real, later: real)
    requires Reachable(cfg, s) && Runs(cfg, s, ops, t)
    requires Find(s, id).Ok? && Strip(leaseId) in s.leases && Find(s, id).value.leaseId != Some(Strip(leaseId))
    ensures CheckLease(cfg, t, id, peerId, leaseId, clock, later).0 == t
    ensures CheckLease(cfg, t, id, peerId, leaseId, clock, later).1.Err?
  {
    hide Strip, LogAgrees;
    ReachableInv(cfg, s);
    RunKeeps(cfg, s, ops, t);
    assert RecordLater(s, t, Strip(id));
  }

  /** The lease check passes exactly for the holder of the stored, unexpired lease. */
  lemma LeaseCheckExact(cfg: Config, s: Store, id: string, peerId: string, leaseId: string, clock: real, later: real)
    ensures var (t, r) := CheckLease(cfg, s, id, peerId, leaseId, clock, later);
            && (r.Ok? <==> Find(s, id).Ok? && Holds(Find(s, id).value, peerId, leaseId, clock))
            && (t == s || Find(s, id).Ok?)
            && (t == s || (r == Err(LeaseExpired) && t == Put(cfg, s, Returned(Find(s, id).value, later), WaitingPeer)))
  {
    hide Strip;
  }

  /** What a claim makes of a record: started, with the peer and a lease until it ends, and nothing else changed. */
  ghost predicate HandedOut(cfg: Config, was: Record, r: Record, req: ClaimRequest, now: real, uuid: string) {
    && r.status == "started" && r.peerId == Some(Strip(req.peerId))
    && r.leaseId == Some("local-action-lease:" + uuid) && r.leaseExpiresAt == Some(now + cfg.leaseSec)
    && r.updatedAt == Some(now) && r.createdAt == was.createdAt
    && r.id == was.id && r.kind == was.kind && r.agentRunId == was.agentRunId && r.workspaceRoot == was.workspaceRoot
    && r.progress == was.progress && r.result == was.result && r.error == was.error
  }

  /** A claimed action may be changed with its lease, by its peer, exactly until the lease ends. */
  lemma HandedOutHeld(cfg: Config, was: Record, r: Record, req: ClaimRequest, now: real, uuid: string, clock: real)
    requires HandedOut(cfg, was, r, req, now, uuid) && IsText(LeaseOf(uuid))
    ensures Holds(r, req.peerId, LeaseOf(uuid), clock) <==> clock < now + cfg.leaseSec
  {
    StripFixpoint(req.peerId);
    StripFixpoint(LeaseOf(uuid));
  }

  /** A claim changes no action but those it hands out. */
  ghost predicate OthersKept(s: Store, t: Store, rs: seq<Record>) {
    && t.order == s.order && t.actions.Keys == s.actions.Keys
    && forall id :: id in s.actions && (forall j :: 0 <= j < |rs| ==> rs[j].id != id) ==> t.actions[id] == s.actions[id]
  }

  /** The records handed out by a claim from position `i` on, `k` being handed out before. */
  ghost predicate Handed(cfg: Config, s: Store, t: Store, rs: seq<Record>, req: ClaimRequest, now: real, uuids: seq<string>, i: nat, k: nat)
    requires i <= |s.order|
  {
    && k + |rs| <= |uuids| && (rs == [] || k + |rs| <= Quota(req))
    && (forall j :: 0 <= j < |rs| ==> rs[j].id in s.order[i..] && rs[j].id in s.actions && ClaimMatch(s.actions[rs[j].id], req, now))
    && (forall j :: 0 <= j < |rs| ==> rs[j].id in t.actions && HandedOut(cfg, s.actions[rs[j].id], t.actions[rs[j].id], req, now, uuids[k + j]))
  }

  ghost predicate TakesAll(s: Store, rs: seq<Record>, req: ClaimRequest, now: real, i: nat, k: nat)
    requires Indexed(s)
  {
    k + |rs| < Quota(req) ==>
      forall p :: i <= p < |s.order| && ClaimMatch(s.actions[s.order[p]], req, now) ==> exists j :: 0 <= j < |rs| && rs[j].id == s.order[p]
  }

  lemma LaterOthers(s: Store, rs: seq<Record>, i: nat)
    requires Indexed(s) && i < |s.order|
    requires forall j :: 0 <= j < |rs| ==> rs[j].id in s.order[i + 1..]
    ensures s.order[i..] == [s.order[i]] + s.order[i + 1..]
    ensures forall j :: 0 <= j < |rs| ==> rs[j].id != s.order[i] && rs[j].id in s.order[i..]
  {
    forall j | 0 <= j < |rs| ensures rs[j].id != s.order[i] {
      var rest := s.order[i + 1..];
      assert rs[j].id in rest;
      var p :| 0 <= p < |rest| && rest[p] == rs[j].id;
      assert s.order[i + 1 + p] == rs[j].id;
    }
  }

  lemma KeepOne(s: Store, mine: Record, u: Store, t: Store, rs: seq<Record>)
    requires mine.id in s.actions && u.order == s.order && u.actions == s.actions[mine.id := mine]
    requires OthersKept(u, t, rs) && forall j :: 0 <= j < |rs| ==> rs[j].id != mine.id
    ensures t.actions[mine.id] == mine
    ensures OthersKept(s, t, [mine.(error := Blanked(mine.error))] + rs)
  {
    assert u.actions.Keys == s.actions.Keys;
    var all := [mine.(error := Blanked(mine.error))] + rs;
    forall x | x in s.actions && (forall j :: 0 <= j < |all| ==> all[j].id != x) ensures t.actions[x] == s.actions[x] {
      assert all[0].id == mine.id;
      forall j | 0 <= j < |rs| ensures rs[j].id != x { assert all[j + 1] == rs[j]; }
    }
  }

  /** One more action handed out, before those handed out after it. */
  lemma HandOne(cfg: Config, s: Store, mine: Record, u: Store, t: Store, rs: seq<Record>, req: ClaimRequest, now: real, uuids: seq<string>, i: nat, k: nat)
    requires i < |s.order| && k < Quota(req) && k < |uuids| && s.order[i..] == [s.order[i]] + s.order[i + 1..]
    requires s.order[i] == mine.id && mine.id in s.actions && ClaimMatch(s.actions[mine.id], req, now)
    requires u.order == s.order && u.actions == s.actions[mine.id := mine] && forall j :: 0 <= j < |rs| ==> rs[j].id != mine.id
    requires HandedOut(cfg, s.actions[mine.id], mine, req, now, uuids[k]) && mine.id in t.actions && t.actions[mine.id] == mine
    requires Handed(cfg, u, t, rs, req, now, uuids, i + 1, k + 1)
    ensures Handed(cfg, s, t, [mine.(error := Blanked(mine.error))] + rs, req, now, uuids, i, k)
  {
    hide ClaimMatch, HandedOut, Quota;
    var all := [mine.(error := Blanked(mine.error))] + rs;
    forall j | 0 <= j < |all|
      ensures all[j].id in s.order[i..] && all[j].id in s.actions && ClaimMatch(s.actions[all[j].id], req, now)
      ensures all[j].id in t.actions && HandedOut(cfg, s.actions[all[j].id], t.actions[all[j].id], req, now, uuids[k + j])
    {
      if j > 0 { assert all[j] == rs[j - 1]; }
    }
  }

  lemma TakeOne(s: Store, mine: Record, u: Store, rs: seq<Record>, req: ClaimRequest, now: real, i: nat, k: nat)
    requires Indexed(s) && i < |s.order| && mine.id == s.order[i]
    requires Indexed(u) && u.order == s.order && u.actions == s.actions[mine.id := mine]
    requires TakesAll(u, rs, req, now, i + 1, k + 1)
    ensures TakesAll(s, [mine.(error := Blanked(mine.error))] + rs, req, now, i, k)
  {
    hide Strip, ClaimMatch;
    var all := [mine.(error := Blanked(mine.error))] + rs;
    if k + |all| < Quota(req) {
      forall p | i <= p < |s.order| && ClaimMatch(s.actions[s.order[p]], req, now) ensures exists j :: 0 <= j < |all| && all[j].id == s.order[p] {
        if p == i {
          assert all[0].id == s.order[p];
        } else {
          assert u.actions[s.order[p]] == s.actions[s.order[p]];
          var j :| 0 <= j < |rs| && rs[j].id == s.order[p];
          assert all[j + 1].id == s.order[p];
        }
      }
    }
  }

  lemma HandNone(cfg: Config, s: Store, t: Store, rs: seq<Record>, req: ClaimRequest, now: real, uuids: seq<string>, i: nat, k: nat)
    requires Indexed(s) && i < |s.order| && !ClaimMatch(s.actions[s.order[i]], req, now)
    requires Handed(cfg, s, t, rs, req, now, uuids, i + 1, k) && TakesAll(s, rs, req, now, i + 1, k)
    ensures Handed(cfg, s, t, rs, req, now, uuids, i, k) && TakesAll(s, rs, req, now, i, k)
  {
    hide ClaimMatch, HandedOut;
    assert s.order[i..] == [s.order[i]] + s.order[i + 1..];
  }

  /**
   The claim loop hands out, up to the quota, every action that matches, each with a lease of its own,
   and changes no other action.
   */
  lemma {:induction false} ClaimHandsOut(cfg: Config, s: Store, req: ClaimRequest, now: real, uuids: seq<string>, i: nat, k: nat)
    requires Indexed(s) && i <= |s.order| && k + |s.order| - i <= |uuids|
    ensures var (t, rs) := ClaimFrom(cfg, s, req, now, uuids, i, k);
            OthersKept(s, t, rs) && Handed(cfg, s, t, rs, req, now, uuids, i, k) && TakesAll(s, rs, req, now, i, k)
    decreases |s.order| - i
  {
    hide Strip, ClaimMatch, Emit, LeaseSet, HandedOut, Handed, TakesAll, OthersKept;
    if i == |s.order| || k >= Quota(req) {
      HandNothing(cfg, s, req, now, uuids, i, k);
    } else {
      var r := s.actions[s.order[i]];
      if !ClaimMatch(r, req, now) {
        ClaimHandsOut(cfg, s, req, now, uuids, i + 1, k);
        var (t, rs) := ClaimFrom(cfg, s, req, now, uuids, i + 1, k);
        HandNone(cfg, s, t, rs, req, now, uuids, i, k);
      } else {
        var u := Put(cfg, s, Claimed(cfg, r, req, now, uuids[k]), Started);
        ClaimHandsOut(cfg, u, req, now, uuids, i + 1, k + 1);
        var (t, rs) := ClaimFrom(cfg, u, req, now, uuids, i + 1, k + 1);
        var mine := Claimed(cfg, r, req, now, uuids[k]);
        LaterHanded(cfg, s, mine, u, t, rs, req, now, uuids, i, k);
        KeepOne(s, mine, u, t, rs);
        ClaimedHandedOut(cfg, r, req, now, uuids[k]);
        HandOne(cfg, s, mine, u, t, rs, req, now, uuids, i, k);
        TakeOne(s, mine, u, rs, req, now, i, k);
      }
    }
  }

  lemma ClaimedHandedOut(cfg: Config, r: Record, req: ClaimRequest, now: real, uuid: string)
    ensures HandedOut(cfg, r, Claimed(cfg, r, req, now, uuid), req, now, uuid)
  {
  }

  lemma LaterHanded(cfg: Config, s: Store, mine: Record, u: Store, t: Store, rs: seq<Record>, req: ClaimRequest, now: real, uuids: seq<string>, i: nat, k: nat)
    requires Indexed(s) && i < |s.order| && u.order == s.order && s.order[i] == mine.id
    requires Handed(cfg, u, t, rs, req, now, uuids, i + 1, k + 1)
    ensures s.order[i..] == [mine.id] + s.order[i + 1..] && forall j :: 0 <= j < |rs| ==> rs[j].id != mine.id
  {
    hide ClaimMatch, HandedOut;
    LaterOthers(s, rs, i);
  }

  lemma HandNothing(cfg: Config, s: Store, req: ClaimRequest, now: real, uuids: seq<string>, i: nat, k: nat)
    requires Indexed(s) && i <= |s.order| && k + |s.order| - i <= |uuids| && (i == |s.order| || k >= Quota(req))
    ensures OthersKept(s, s, []) && Handed(cfg, s, s, [], req, now, uuids, i, k) && TakesAll(s, [], req, now, i, k)
  {
  }

  /** A progress or completion that is answered with a record was made by the holder. */
  lemma OnlyHolderSucceeds(cfg: Config, s: Store, id: string, peerId: string, leaseId: string,
                           progress: map<string, string>, status: string, result: map<string, string>, error: string,
                           clock: real, later: real)
    requires Progress(cfg, s, id, peerId, leaseId, progress, status, clock, later).1.Ok?
          || Complete(cfg, s, id, peerId, leaseId, status, result, error, clock, later).1.Ok?
    ensures Find(s, id).Ok? && Holds(Find(s, id).value, peerId, leaseId, clock)
  {
    hide Strip, Clone;
    LeaseCheckExact(cfg, s, id, peerId, leaseId, clock, later);
  }

  /** A progress that leaves the action live renews its holder's lease: it ends one lease time after the update. */
  lemma ProgressRenews(cfg: Config, s: Store, id: string, peerId: string, leaseId: string,
                       progress: map<string, string>, status: string, clock: real, later: real, next: real)
    requires Indexed(s) && Find(s, id).Ok? && Holds(Find(s, id).value, peerId, leaseId, clock)
    requires !Terminal(if status == "" then "progress" else status)
    ensures var t := Progress(cfg, s, id, peerId, leaseId, progress, status, clock, later).0;
            Find(t, id).Ok? && (Holds(Find(t, id).value, peerId, leaseId, next) <==> next < later + cfg.leaseSec)
  {
    hide Strip, Clone, Emit, LeaseSet;
    LeaseCheckExact(cfg, s, id, peerId, leaseId, clock, later);
  }

  /** The holder's lease does not protect an action from a claim exactly when its expiry is missing or zero. */
  lemma HeldUnprotected(r: Record, peerId: string, leaseId: string, clock: real)
    requires Holds(r, peerId, leaseId, clock)
    ensures !Leased(r, clock) <==> r.leaseExpiresAt.None? || r.leaseExpiresAt == Some(0.0)
    ensures !Leased(r, clock) ==> clock < 0.0
  {
    hide Strip;
  }

  /** A local peer that offers the action's kind, and its peer and workspace where these are fixed. */
  predicate Suits(r: Record, req: ClaimRequest) {
    && req.worker.LocalPeer?
    && (Strip(TextOrEmpty(r.peerId)) != "" ==> Strip(TextOrEmpty(r.peerId)) == Strip(req.peerId))
    && "local_actions" in req.features && "local_action:" + r.kind in req.features
    && (TextOrEmpty(r.workspaceRoot) != "" ==> SameWorkspace(r.workspaceRoot, req.workspaceRoot))
  }

  /**
   An action that a holder may change is up for claiming by a suitable peer exactly when its expiry is
   missing or zero, which counts as not leased; and then the clock is negative. So at a non-negative
   clock no action can be both changed by a holder and claimed, by anyone.
   */
  lemma NeverBoth(r: Record, peerId: string, leaseId: string, req: ClaimRequest, clock: real)
    requires Holds(r, peerId, leaseId, clock)
    ensures ClaimMatch(r, req, clock) <==> Suits(r, req) && (r.leaseExpiresAt.None? || r.leaseExpiresAt == Some(0.0))
    ensures ClaimMatch(r, req, clock) ==> clock < 0.0
  {
    hide Strip, SameWorkspace, Leased;
    HeldUnprotected(r, peerId, leaseId, clock);
  }

  /** The exception is real: a lease without expiry is usable before time zero, while the action is up for claiming. */
  lemma BothBeforeZero()
    ensures var r := Record("a", "k", "started", None, None, None, map[], map[], None, Some("l"), None, None, None);
            var req := ClaimRequest("p", LocalPeer, {"local_actions", "local_action:k"}, None, 1);
            Normal(r) && Holds(r, "p", "l", -1.0) && ClaimMatch(r, req, -1.0)
  {
    assert "local_action:" + "k" == "local_action:k";
    assert StripRight("l") == "l";
    assert Strip("l") == "l";
  }

  // ---------------------------------------------------------------- what each operation stores, reports and answers

  /** Every action but `id` is as it was, and no action came or went. */
  ghost predicate OthersAsBefore(s: Store, t: Store, id: string) {
    && t.order == s.order && t.actions.Keys == s.actions.Keys
    && forall x :: x in s.actions && x != id ==> t.actions[x] == s.actions[x]
  }

  /** What no operation on a stored action touches. */
  ghost predicate SameOrigin(was: Record, r: Record) {
    && r.id == was.id && r.kind == was.kind && r.agentRunId == was.agentRunId && r.peerId == was.peerId
    && r.workspaceRoot == was.workspaceRoot && r.createdAt == was.createdAt
  }

  /**
   A creation is refused for a known id; else it appends the record with its times, and reports it as
   requested and, unless that is its status, as waiting for a peer.
   */
  lemma CreationStores(cfg: Config, s: Store, action: Record, now: real)
    requires Indexed(s) && Normal(action)
    ensures var (t, answer) := Create(cfg, s, action, now);
            && (action.id in s.actions ==> t == s && answer == Err(IdConflict))
            && (action.id !in s.actions ==>
                  && t.order == s.order + [action.id] && t.actions.Keys == s.actions.Keys + {action.id}
                  && (forall x :: x in s.actions ==> t.actions[x] == s.actions[x])
                  && var r := t.actions[action.id];
                  && SameOrigin(action.(createdAt := if action.createdAt.Some? then action.createdAt else Some(now)), r)
                  && r.status == action.status && r.progress == action.progress && r.result == action.result && r.error == action.error
                  && r.leaseId == action.leaseId && r.leaseExpiresAt == action.leaseExpiresAt && r.updatedAt == Some(now)
                  && (!cfg.sink || action.agentRunId.None? ==> t.log == s.log)
                  && (cfg.sink && action.agentRunId.Some? ==>
                        var run := action.agentRunId.value;
                        t.log == s.log + [Event(run, Requested, r)] + (if action.status == "requested" then [] else [Event(run, WaitingPeer, r)]))
                  && answer == Ok(r))
  {
    StripText(action.status);
    if action.error.Some? { StripText(action.error.value); }
    hide Strip;
  }

  /**
   A holder's completion stores its status, result and error, with the later reading of the clock, and
   nothing else; one event of the kind of that status shows the stored record.
   */
  lemma CompletionStores(cfg: Config, s: Store, id: string, peerId: string, leaseId: string, status: string,
                         result: map<string, string>, error: string, clock: real, later: real)
    requires Indexed(s) && Strip(id) != "" && Strip(id) in s.actions && Holds(s.actions[Strip(id)], peerId, leaseId, clock)
    requires Strip(status) in {"completed", "failed", "cancelled"}
    ensures var (t, answer) := Complete(cfg, s, id, peerId, leaseId, status, result, error, clock, later);
            var was := s.actions[Strip(id)];
            && OthersAsBefore(s, t, Strip(id))
            && var r := t.actions[Strip(id)];
            && SameOrigin(was, r) && r.progress == was.progress && r.leaseId == was.leaseId && r.leaseExpiresAt == was.leaseExpiresAt
            && r.status == Strip(status) && r.result == result && r.updatedAt == Some(later)
            && r.error == (if error == "" then None else Some(Strip(error)))
            && (!cfg.sink || was.agentRunId.None? ==> t.log == s.log)
            && (cfg.sink && was.agentRunId.Some? ==>
                  exists kind :: t.log == s.log + [Event(was.agentRunId.value, kind, r)]
                              && (kind == Completed <==> r.status == "completed")
                              && (kind == Failed <==> r.status == "failed")
                              && (kind == Cancelled <==> r.status == "cancelled"))
            && answer == Ok(r.(error := if Strip(error) == "" then None else Some(Strip(error))))
  {
    StripFixpoint(status);
    StripFixpoint(error);
    BlankStrips();
    LeaseCheckExact(cfg, s, id, peerId, leaseId, clock, later);
    hide Strip;
    var (t, answer) := Complete(cfg, s, id, peerId, leaseId, status, result, error, clock, later);
    var r := t.actions[Strip(id)];
    if cfg.sink && r.agentRunId.Some? {
      var kind := EventFor(r.status);
      assert t.log == s.log + [Event(r.agentRunId.value, kind, r)];
    }
  }

  lemma BlankStrips()
    ensures Strip("") == ""
  {
  }

  /**
   A holder's progress stores the status as given ("progress" for none), the progress and a lease end one
   lease time after the later reading. A blank status is stored and reported too, and only then refused.
   */
  lemma ProgressStores(cfg: Config, s: Store, id: string, peerId: string, leaseId: string,
                       progress: map<string, string>, status: string, clock: real, later: real)
    requires Indexed(s) && Strip(id) != "" && Strip(id) in s.actions && Holds(s.actions[Strip(id)], peerId, leaseId, clock)
    ensures var (t, answer) := Progress(cfg, s, id, peerId, leaseId, progress, status, clock, later);
            var was := s.actions[Strip(id)];
            && OthersAsBefore(s, t, Strip(id))
            && var r := t.actions[Strip(id)];
            && SameOrigin(was, r) && r.result == was.result && r.error == was.error && r.leaseId == was.leaseId
            && r.status == (if status == "" then "progress" else status) && r.progress == progress
            && r.updatedAt == Some(later) && r.leaseExpiresAt == Some(later + cfg.leaseSec)
            && t.log == s.log + (if cfg.sink && was.agentRunId.Some? then [Event(was.agentRunId.value, Progressed, r)] else [])
            && (answer.Err? <==> Strip(r.status) == "")
            && (answer.Err? ==> answer == Err(StatusRequired))
            && (answer.Ok? ==> answer.value == r.(status := Strip(r.status), error := answer.value.error) && Copied(r.error, answer.value.error))
  {
    LeaseCheckExact(cfg, s, id, peerId, leaseId, clock, later);
    hide Strip;
  }

  /** A copied text: absent or blank text is absent in the copy, other text is stripped. */
  ghost predicate Copied(text: Option<string>, copy: Option<string>) {
    && (copy.None? <==> text.None? || Strip(text.value) == "")
    && (copy.Some? ==> copy.value == Strip(text.value))
  }

  /** A cancellation stores its reason ("cancelled" for none) in a live action and changes nothing else. */
  lemma CancellationStores(cfg: Config, s: Store, id: string, reason: string, now: real)
    requires Indexed(s) && Strip(id) != "" && Strip(id) in s.actions
    ensures var (t, answer) := Cancel(cfg, s, id, reason, now);
            var was := s.actions[Strip(id)];
            && OthersAsBefore(s, t, Strip(id))
            && var r := t.actions[Strip(id)];
            && (was.status in {"completed", "failed", "cancelled", "timed_out"} ==> r == was && t.log == s.log)
            && (was.status !in {"completed", "failed", "cancelled", "timed_out"} ==>
                  && SameOrigin(was, r) && r.progress == was.progress && r.result == was.result
                  && r.leaseId == was.leaseId && r.leaseExpiresAt == was.leaseExpiresAt
                  && r.status == "cancelled" && r.error == Some(if reason == "" then "cancelled" else reason) && r.updatedAt == Some(now)
                  && t.log == s.log + (if cfg.sink && was.agentRunId.Some? then [Event(was.agentRunId.value, Cancelled, r)] else []))
            && answer.Ok? && answer.value == r.(error := answer.value.error) && Copied(r.error, answer.value.error)
  {
    TerminalTexts(s.actions[Strip(id)].status);
    TerminalTexts("cancelled");
    hide Strip;
  }

  lemma TerminalTexts(status: string)
    ensures Terminal(status) ==> Strip(status) == status
  {
    StripFixpoint(status);
  }

  /** Why a call with a lease is refused: the first of these that applies. */
  ghost predicate RefusedFor(r: Record, peerId: string, leaseId: string, clock: real, e: ActionError) {
    var ended := r.status in {"completed", "failed", "cancelled", "timed_out"};
    var wrongPeer := r.peerId.Some? && Strip(r.peerId.value) != "" && Strip(r.peerId.value) != Strip(peerId);
    var wrongLease := Strip(leaseId) == "" || r.leaseId != Some(Strip(leaseId));
    || (e == AlreadyTerminal && ended)
    || (e == PeerMismatch && !ended && wrongPeer)
    || (e == LeaseMismatch && !ended && !wrongPeer && wrongLease)
    || (e == LeaseExpired && !ended && !wrongPeer && !wrongLease
        && (r.leaseExpiresAt.Some? ==> r.leaseExpiresAt.value <= clock) && (r.leaseExpiresAt.None? ==> 0.0 <= clock))
  }

  /**
   A progress or a completion with a usable status is refused for one reason, which is the same for both
   and leaves the store alone; except that an expired lease is taken back, and that is reported.
   */
  lemma RefusalExactly(cfg: Config, s: Store, id: string, peerId: string, leaseId: string,
                       progress: map<string, string>, status: string, terminal: string,
                       result: map<string, string>, error: string, clock: real, later: real, e: ActionError)
    requires Indexed(s) && Strip(id) != "" && Strip(id) in s.actions
    requires Strip(terminal) in {"completed", "failed", "cancelled"} && e != StatusRequired
    ensures var (t, answer) := Progress(cfg, s, id, peerId, leaseId, progress, status, clock, later);
            var (u, other) := Complete(cfg, s, id, peerId, leaseId, terminal, result, error, clock, later);
            var was := s.actions[Strip(id)];
            && (answer == Err(e) <==> RefusedFor(was, peerId, leaseId, clock, e))
            && (other == Err(e) <==> RefusedFor(was, peerId, leaseId, clock, e))
            && (answer == Err(e) ==> t == u && OthersAsBefore(s, t, Strip(id)))
            && (answer == Err(e) && e != LeaseExpired ==> t == s)
            && (answer == Err(LeaseExpired) ==>
                  var r := t.actions[Strip(id)];
                  && SameOrigin(was, r) && r.progress == was.progress && r.result == was.result && r.error == was.error
                  && r.status == "waiting_peer" && r.leaseId == None && r.leaseExpiresAt == None && r.updatedAt == Some(later)
                  && t.log == s.log + (if cfg.sink && was.agentRunId.Some? then [Event(was.agentRunId.value, WaitingPeer, r)] else []))
  {
    LeaseRefusal(cfg, s, id, peerId, leaseId, clock, later, e);
    TerminalTexts(Strip(terminal));
    hide Strip, CheckLease, RefusedFor, SameOrigin, Emit;
  }

  lemma LeaseRefusal(cfg: Config, s: Store, id: string, peerId: string, leaseId: string, clock: real, later: real, e: ActionError)
    requires Indexed(s) && Strip(id) != "" && Strip(id) in s.actions
    ensures var (t, answer) := CheckLease(cfg, s, id, peerId, leaseId, clock, later);
            var was := s.actions[Strip(id)];
            && (answer == Err(e) <==> RefusedFor(was, peerId, leaseId, clock, e))
            && (answer == Err(StatusRequired) <==> false)
            && OthersAsBefore(s, t, Strip(id))
            && (answer != Err(LeaseExpired) ==> t == s)
            && (answer == Err(LeaseExpired) ==>
                  var r := t.actions[Strip(id)];
                  && SameOrigin(was, r) && r.progress == was.progress && r.result == was.result && r.error == was.error
                  && r.status == "waiting_peer" && r.leaseId == None && r.leaseExpiresAt == None && r.updatedAt == Some(later)
                  && t.log == s.log + (if cfg.sink && was.agentRunId.Some? then [Event(was.agentRunId.value, WaitingPeer, r)] else []))
  {
    BlankStrips();
    hide Strip;
  }

  /** Without a usable id, and for a completion without a usable status, nothing happens. */
  lemma UnusableCalls(cfg: Config, s: Store, id: string, peerId: string, leaseId: string,
                      progress: map<string, string>, status: string, terminal: string,
                      result: map<string, string>, error: string, reason: string, clock: real, later: real)
    requires Strip(id) == "" || Strip(id) !in s.actions
    ensures var e := if Strip(id) == "" then IdRequired else NotFound;
            && Progress(cfg, s, id, peerId, leaseId, progress, status, clock, later) == (s, Err(e))
            && Cancel(cfg, s, id, reason, clock) == (s, Err(e))
            && Complete(cfg, s, id, peerId, leaseId, terminal, result, error, clock, later)
                 == (s, Err(if Strip(terminal) in {"completed", "failed", "cancelled"} then e else InvalidTerminalStatus))
  {
    hide Strip;
  }

  // ---------------------------------------------------------------- which actions a claim takes

  /** The lease still protects the action at the given reading. */
  ghost predicate Protected(r: Record, now: real) {
    exists lease, end :: r.leaseId == Some(lease) && lease != "" && r.leaseExpiresAt == Some(end) && end != 0.0 && now < end
  }

  /** The ids up for claiming from position `i` of the dictionary on: live, unprotected and suiting the peer. */
  ghost function UpForClaim(s: Store, req: ClaimRequest, now: real, i: nat): (ids: seq<string>)
    requires Indexed(s) && i <= |s.order|
    decreases |s.order| - i
  {
    if i == |s.order| then []
    else
      var r := s.actions[s.order[i]];
      var ended := r.status in {"completed", "failed", "cancelled", "timed_out"};
      (if Suits(r, req) && !ended && !Protected(r, now) then [s.order[i]] else []) + UpForClaim(s, req, now, i + 1)
  }

  lemma MatchesExactly(r: Record, req: ClaimRequest, now: real)
    ensures ClaimMatch(r, req, now) <==> Suits(r, req) && r.status !in {"completed", "failed", "cancelled", "timed_out"} && !Protected(r, now)
  {
    hide Strip, SameWorkspace;
  }

  /** Events about the handed out records, in the order they were handed out. */
  ghost function StartedEvents(cfg: Config, t: Store, ids: seq<string>): seq<Event>
    requires forall id :: id in ids ==> id in t.actions
  {
    if ids == [] then []
    else
      var r := t.actions[ids[0]];
      (if cfg.sink && r.agentRunId.Some? then [Event(r.agentRunId.value, Started, r)] else []) + StartedEvents(cfg, t, ids[1..])
  }

  ghost function Ids(rs: seq<Record>): (ids: seq<string>)
    ensures |ids| == |rs| && forall j :: 0 <= j < |rs| ==> ids[j] == rs[j].id
  {
    if rs == [] then [] else [rs[0].id] + Ids(rs[1..])
  }

  lemma {:induction false} UpForClaimSame(s: Store, t: Store, req: ClaimRequest, now: real, i: nat)
    requires Indexed(s) && Indexed(t) && t.order == s.order && i <= |s.order|
    requires forall p :: i <= p < |s.order| ==> t.actions[s.order[p]] == s.actions[s.order[p]]
    ensures UpForClaim(t, req, now, i) == UpForClaim(s, req, now, i)
    decreases |s.order| - i
  {
    hide Suits, Protected, Terminal;
    if i < |s.order| {
      assert t.actions[s.order[i]] == s.actions[s.order[i]];
      UpForClaimSame(s, t, req, now, i + 1);
    }
  }

  lemma PutAtPosition(cfg: Config, s: Store, mine: Record, i: nat)
    requires Indexed(s) && i < |s.order| && mine.id == s.order[i]
    ensures var u := Put(cfg, s, mine, Started);
            && Indexed(u) && u.order == s.order && u.actions == s.actions[mine.id := mine]
            && forall p :: i < p < |s.order| ==> u.actions[s.order[p]] == s.actions[s.order[p]]
  {
    hide Emit;
  }

  function First(ids: seq<string>, n: nat): seq<string> {
    ids[..if |ids| < n then |ids| else n]
  }

  lemma FirstMore(id: string, ids: seq<string>, n: nat)
    ensures First([id] + ids, n + 1) == [id] + First(ids, n)
  {
  }

  /** A claim takes the first actions up for claiming, as many as its quota allows, in the order of the dictionary. */
  lemma {:induction false} ClaimTakesFirst(cfg: Config, s: Store, req: ClaimRequest, now: real, uuids: seq<string>, i: nat, k: nat)
    requires Indexed(s) && i <= |s.order| && k + |s.order| - i <= |uuids| && k <= Quota(req)
    ensures Ids(ClaimFrom(cfg, s, req, now, uuids, i, k).1) == First(UpForClaim(s, req, now, i), Quota(req) - k)
    decreases |s.order| - i
  {
    hide ClaimMatch, Quota, Put, UpForClaim, First;
    UpForClaimStep(s, req, now, i);
    FirstOfNone(Quota(req) - k);
    if i < |s.order| && k < Quota(req) {
      var r := s.actions[s.order[i]];
      if !ClaimMatch(r, req, now) {
        ClaimTakesFirst(cfg, s, req, now, uuids, i + 1, k);
      } else {
        var mine := Claimed(cfg, r, req, now, uuids[k]);
        PutAtPosition(cfg, s, mine, i);
        var u := Put(cfg, s, mine, Started);
        ClaimTakesFirst(cfg, u, req, now, uuids, i + 1, k + 1);
        UpForClaimSame(s, u, req, now, i + 1);
        var rs := ClaimFrom(cfg, u, req, now, uuids, i + 1, k + 1).1;
        FirstMore(s.order[i], UpForClaim(s, req, now, i + 1), Quota(req) - k - 1);
        IdsMore(mine.(error := Blanked(mine.error)), rs);
        hide Ids;
      }
    } else if k == Quota(req) {
      FirstNone(UpForClaim(s, req, now, i));
    }
  }

  lemma FirstOfNone(n: nat)
    ensures First([], n) == []
  {
  }

  lemma FirstNone(ids: seq<string>)
    ensures First(ids, 0) == []
  {
  }

  lemma IdsMore(r: Record, rs: seq<Record>)
    ensures Ids([r] + rs) == [r.id] + Ids(rs)
  {
    assert ([r] + rs)[1..] == rs;
  }

  lemma UpForClaimStep(s: Store, req: ClaimRequest, now: real, i: nat)
    requires Indexed(s) && i <= |s.order|
    ensures i == |s.order| ==> UpForClaim(s, req, now, i) == []
    ensures i < |s.order| ==>
              var rest := UpForClaim(s, req, now, i + 1);
              UpForClaim(s, req, now, i) == if ClaimMatch(s.actions[s.order[i]], req, now) then [s.order[i]] + rest else rest
  {
    if i < |s.order| {
      MatchesExactly(s.actions[s.order[i]], req, now);
    }
    hide ClaimMatch, Suits, Protected, Terminal;
  }

  /** The records are copies of those stored. */
  ghost predicate Shown(t: Store, rs: seq<Record>) {
    forall j :: 0 <= j < |rs| ==>
      rs[j].id in t.actions && var r := t.actions[rs[j].id]; rs[j] == r.(error := rs[j].error) && Copied(r.error, rs[j].error)
  }

  /** A claim reports each action it hands out, and answers copies of the records it stores. */
  lemma {:induction false} ClaimReports(cfg: Config, s: Store, req: ClaimRequest, now: real, uuids: seq<string>, i: nat, k: nat)
    requires Indexed(s) && i <= |s.order| && k + |s.order| - i <= |uuids|
    ensures var (t, rs) := ClaimFrom(cfg, s, req, now, uuids, i, k);
            && Shown(t, rs) && (forall id :: id in Ids(rs) ==> id in t.actions)
            && t.log == s.log + StartedEvents(cfg, t, Ids(rs))
    decreases |s.order| - i
  {
    NothingStarted(cfg, s);
    hide Strip, ClaimMatch, Emit, Quota, Put, Shown, StartedEvents;
    if i < |s.order| && k < Quota(req) {
      var r := s.actions[s.order[i]];
      if !ClaimMatch(r, req, now) {
        ClaimReports(cfg, s, req, now, uuids, i + 1, k);
      } else {
        var mine := Claimed(cfg, r, req, now, uuids[k]);
        PutAtPosition(cfg, s, mine, i);
        var u := Put(cfg, s, mine, Started);
        ClaimReports(cfg, u, req, now, uuids, i + 1, k + 1);
        var (t, rs) := ClaimFrom(cfg, u, req, now, uuids, i + 1, k + 1);
        OneKept(cfg, s, mine, u, t, rs, req, now, uuids, i, k);
        ReportOne(cfg, s, u, mine, t, rs);
      }
    }
  }

  lemma NothingStarted(cfg: Config, t: Store)
    ensures Shown(t, []) && StartedEvents(cfg, t, Ids([])) == []
  {
  }

  lemma OneKept(cfg: Config, s: Store, mine: Record, u: Store, t: Store, rs: seq<Record>, req: ClaimRequest, now: real, uuids: seq<string>, i: nat, k: nat)
    requires Indexed(s) && i < |s.order| && mine.id == s.order[i] && k + 1 + |s.order| - i - 1 <= |uuids|
    requires Indexed(u) && u.order == s.order && u.actions == s.actions[mine.id := mine]
    requires (t, rs) == ClaimFrom(cfg, u, req, now, uuids, i + 1, k + 1)
    ensures mine.id in t.actions && t.actions[mine.id] == mine
  {
    ClaimHandsOut(cfg, u, req, now, uuids, i + 1, k + 1);
    hide Handed, TakesAll, ClaimFrom;
    LaterHanded(cfg, s, mine, u, t, rs, req, now, uuids, i, k);
    KeepOne(s, mine, u, t, rs);
  }

  lemma ReportOne(cfg: Config, s: Store, u: Store, mine: Record, t: Store, rs: seq<Record>)
    requires u == Put(cfg, s, mine, Started) && mine.id in t.actions && t.actions[mine.id] == mine
    requires Shown(t, rs) && forall id :: id in Ids(rs) ==> id in t.actions
    requires t.log == u.log + StartedEvents(cfg, t, Ids(rs))
    ensures var all := [mine.(error := Blanked(mine.error))] + rs;
            Shown(t, all) && (forall id :: id in Ids(all) ==> id in t.actions) && t.log == s.log + StartedEvents(cfg, t, Ids(all))
  {
    var all := [mine.(error := Blanked(mine.error))] + rs;
    assert all[1..] == rs;
    assert Ids(all)[1..] == Ids(rs);
    var first := if cfg.sink && mine.agentRunId.Some? then [Event(mine.agentRunId.value, Started, mine)] else [];
    assert u.log == s.log + first;
    ShowOne(mine, t, rs);
    hide Strip, Emit, Put, LeaseSet, Shown;
    assert StartedEvents(cfg, t, Ids(all)) == first + StartedEvents(cfg, t, Ids(rs));
  }

  lemma ShowOne(mine: Record, t: Store, rs: seq<Record>)
    requires mine.id in t.actions && t.actions[mine.id] == mine && Shown(t, rs)
    ensures Shown(t, [mine.(error := Blanked(mine.error))] + rs)
  {
    hide Strip;
  }

  // ---------------------------------------------------------------- workspaces

  predicate Slash(c: char) {
    c == '/' || c == '\\'
  }

  /** The same letter in either case, the same character, or both a kind of slash. */
  predicate Alike(c: char, d: char) {
    || c == d || (Slash(c) && Slash(d))
    || ('A' <= c <= 'Z' && d == c - 'A' + 'a') || ('A' <= d <= 'Z' && c == d - 'A' + 'a')
  }

  /** Before its trailing slashes of either kind, the path has `n` characters. */
  ghost predicate PathLength(path: string, n: nat) {
    && n <= |path| && (forall k :: n <= k < |path| ==> Slash(path[k])) && (n > 0 ==> !Slash(path[n - 1]))
  }

  /**
   Two workspaces are the same exactly when their paths, trailing slashes left out, have the same
   positive length and are alike at every character.
   */
  lemma SameWorkspaceExactly(expected: string, actual: string)
    ensures SameWorkspace(Some(expected), Some(actual)) <==>
              exists n :: n > 0 && PathLength(expected, n) && PathLength(actual, n) && forall k :: 0 <= k < n ==> Alike(expected[k], actual[k])
    ensures !SameWorkspace(Some(expected), None)
  {
    var m := NormalPath(expected);
    var n := NormalPath(actual);
    BlankWorkspace();
    hide NormalWorkspace, LowerChar;
    AlikeAt(expected, actual, m, n);
    if l: nat :| l > 0 && PathLength(expected, l) && PathLength(actual, l) && forall k :: 0 <= k < l ==> Alike(expected[k], actual[k]) {
      OneLength(expected, l, m);
      OneLength(actual, l, n);
    }
  }

  lemma BlankWorkspace()
    ensures NormalWorkspace(None) == ""
  {
  }

  lemma AlikeAt(expected: string, actual: string, m: nat, n: nat)
    requires m <= |expected| && n <= |actual|
    requires var a, b := NormalWorkspace(Some(expected)), NormalWorkspace(Some(actual));
             && |a| == m && |b| == n
             && (forall k :: 0 <= k < m ==> a[k] == LowerChar(if Slash(expected[k]) then '/' else expected[k]))
             && (forall k :: 0 <= k < n ==> b[k] == LowerChar(if Slash(actual[k]) then '/' else actual[k]))
    ensures var a, b := NormalWorkspace(Some(expected)), NormalWorkspace(Some(actual));
            a == b <==> m == n && forall k :: 0 <= k < m ==> Alike(expected[k], actual[k])
  {
    hide NormalWorkspace;
    var a, b := NormalWorkspace(Some(expected)), NormalWorkspace(Some(actual));
    forall k | 0 <= k < m && k < n ensures a[k] == b[k] <==> Alike(expected[k], actual[k]) {
    }
  }

  lemma OneLength(path: string, m: nat, n: nat)
    requires PathLength(path, m) && PathLength(path, n)
    ensures m == n
  {
  }

  /** What a normalised path keeps of the path. */
  lemma NormalPath(path: string) returns (n: nat)
    ensures n <= |path| && PathLength(path, n) && |NormalWorkspace(Some(path))| == n
    ensures forall k :: 0 <= k < n ==> NormalWorkspace(Some(path))[k] == LowerChar(if Slash(path[k]) then '/' else path[k])
  {
    SlashesAt(path);
    n := Dropped(Slashes(path));
    LowerAt(DropLastSlashes(Slashes(path)));
  }

  function LowerChar(c: char): char {
    if 'A' <= c <= 'Z' then c - 'A' + 'a' else c
  }

  lemma {:induction false} SlashesAt(path: string)
    ensures |Slashes(path)| == |path|
    ensures forall k :: 0 <= k < |path| ==> Slashes(path)[k] == if Slash(path[k]) then '/' else path[k]
  {
    if path != "" {
      SlashesAt(path[1..]);
    }
  }

  lemma {:induction false} LowerAt(s: string)
    ensures |Lower(s)| == |s|
    ensures forall k :: 0 <= k < |s| ==> Lower(s)[k] == LowerChar(s[k])
  {
    if s != "" {
      LowerAt(s[1..]);
    }
  }

  lemma {:induction false} Dropped(s: string) returns (n: nat)
    ensures n <= |s| && DropLastSlashes(s) == s[..n]
    ensures (forall k :: n <= k < |s| ==> s[k] == '/') && (n > 0 ==> s[n - 1] != '/')
    decreases |s|
  {
    if s != "" && s[|s| - 1] == '/' {
      n := Dropped(s[..|s| - 1]);
    } else {
      n := |s|;
    }
  }

  // ---------------------------------------------------------------- the service

  class LocalActionService {
    const cfg: Config
    var order: seq<string>
    var actions: map<string, Record>
    var log: seq<Event>
    ghost var leases: set<string>

    ghost function State(): Store
      reads this
    {
      Store(order, actions, log, leases)
    }

    constructor (sink: bool, leaseSec: real)
      ensures State() == EMPTY
      ensures cfg.sink == sink && cfg.leaseSec >= 1.0
    {
      var raw := if leaseSec == 0.0 then 30.0 else leaseSec;
      cfg := Config(sink, if raw < 1.0 then 1.0 else raw);
      order, actions, log, leases := [], map[], [], {};
    }

    method PutAndReport(r: Record, kind: EventKind)
      modifies this
      ensures State() == Put(cfg, old(State()), r, kind)
    {
      actions := actions[r.id := r];
      leases := leases + LeaseSet(r);
      if cfg.sink && r.agentRunId.Some? {
        log := log + [Event(r.agentRunId.value, kind, r)];
      }
    }

    method CreateLocalAction(action: Record, now: real) returns (r: Result<Record, ActionError>)
      requires Normal(action)
      modifies this
      ensures (State(), r) == Create(cfg, old(State()), action, now)
    {
      if action.id in actions {
        return Err(IdConflict);
      }
      var stored := Stored(action, now);
      order := order + [stored.id];
      PutAndReport(stored, Requested);
      if stored.status != "requested" {
        PutAndReport(stored, WaitingPeer);
      }
      r := Clone(stored);
    }

    method ClaimLocalActions(req: ClaimRequest, now: real, uuids: seq<string>) returns (r: Result<seq<Record>, ActionError>)
      requires Inv(cfg, State()) && FreshLeases(State(), uuids)
      modifies this
      ensures Strip(req.peerId) == "" ==> r == Err(PeerRequired) && State() == old(State())
      ensures Strip(req.peerId) != "" ==>
                r.Ok? && (State(), r.value) == ClaimFrom(cfg, old(State()), req, now, uuids, 0, 0)
      ensures Inv(cfg, State()) && Later(old(State()), State())
    {
      hide Strip, ClaimMatch, LogAgrees, Kept, FreshLeases, Later;
      StepKeeps(cfg, State(), DoClaim(req, now, uuids));
      if Strip(req.peerId) == "" {
        return Err(PeerRequired);
      }
      var claimed: seq<Record> := [];
      var i := 0;
      UuidsSuffice(State(), uuids);
      ghost var whole := ClaimFrom(cfg, State(), req, now, uuids, 0, 0);
      assert [] + whole.1 == whole.1;
      while i < |order| && |claimed| < Quota(req)
        invariant i <= |order| && |claimed| + |order| - i <= |uuids|
        invariant Indexed(State())
        invariant var (last, rest) := ClaimFrom(cfg, State(), req, now, uuids, i, |claimed|);
                  whole == (last, claimed + rest)
      {
        ghost var before := claimed;
        ghost var ahead := ClaimFrom(cfg, State(), req, now, uuids, i, |claimed|);
        var action := actions[order[i]];
        if ClaimMatch(action, req, now) {
          var mine := Claimed(cfg, action, req, now, uuids[|claimed|]);
          PutAndReport(mine, Started);
          StartedIsText(mine);
          var copy := Clone(mine);
          claimed := claimed + [copy.value];
          assert before + ahead.1 == claimed + ahead.1[1..];
        }
        i := i + 1;
      }
      assert claimed + [] == claimed;
      r := Ok(claimed);
    }

    method ProgressLocalAction(id: string, peerId: string, leaseId: string, progress: map<string, string>,
                               status: string, clock: real, later: real)
      returns (r: Result<Record, ActionError>)
      modifies this
      ensures (State(), r) == Progress(cfg, old(State()), id, peerId, leaseId, progress, status, clock, later)
    {
      hide Strip;
      var checked := ValidatedLeaseAction(id, peerId, leaseId, clock, later);
      if checked.Err? {
        return checked;
      }
      var action := Progressing(cfg, checked.value, progress, status, later);
      PutAndReport(action, Progressed);
      r := Clone(action);
    }

    method CompleteLocalAction(id: string, peerId: string, leaseId: string, status: string,
                               result: map<string, string>, error: string, clock: real, later: real)
      returns (r: Result<Record, ActionError>)
      modifies this
      ensures (State(), r) == Complete(cfg, old(State()), id, peerId, leaseId, status, result, error, clock, later)
    {
      hide Strip;
      var terminal := Strip(status);
      if terminal !in {"completed", "failed", "cancelled"} {
        return Err(InvalidTerminalStatus);
      }
      var checked := ValidatedLeaseAction(id, peerId, leaseId, clock, later);
      if checked.Err? {
        return checked;
      }
      var action := Finished(checked.value, terminal, result, error, later);
      PutAndReport(action, EventFor(terminal));
      r := Clone(action);
    }

    method CancelLocalAction(id: string, reason: string, now: real) returns (r: Result<Record, ActionError>)
      modifies this
      ensures (State(), r) == Cancel(cfg, old(State()), id, reason, now)
    {
      hide Strip;
      var found := Find(Store(order, actions, log, {}), id);
      if found.Err? {
        return found;
      }
      var action := found.value;
      if !Terminal(action.status) {
        action := action.(status := "cancelled", error := Some(if reason == "" then "cancelled" else reason),
                          updatedAt := Some(now));
        PutAndReport(action, Cancelled);
      }
      r := Clone(action);
    }

    method ValidatedLeaseAction(id: string, peerId: string, leaseId: string, clock: real, later: real)
      returns (r: Result<Record, ActionError>)
      modifies this
      ensures (State(), r) == CheckLease(cfg, old(State()), id, peerId, leaseId, clock, later)
    {
      hide Strip;
      var found := Find(Store(order, actions, log, {}), id);
      if found.Err? {
        return found;
      }
      var action := found.value;
      if Terminal(action.status) {
        return Err(AlreadyTerminal);
      }
      var expected := Strip(TextOrEmpty(action.peerId));
      if expected != "" && expected != Strip(peerId) {
        return Err(PeerMismatch);
      }
      if TextOrEmpty(action.leaseId) == "" || action.leaseId.value != Strip(leaseId) {
        return Err(LeaseMismatch);
      }
      var expires := if action.leaseExpiresAt.Some? then action.leaseExpiresAt.value else 0.0;
      if expires <= clock {
        PutAndReport(Returned(action, later), WaitingPeer);
        return Err(LeaseExpired);
      }
      r := Ok(action);
    }
  }

  lemma UuidsSuffice(s: Store, uuids: seq<string>)
    requires FreshLeases(s, uuids)
    ensures |s.order| <= |uuids|
  {
  }

  lemma StartedIsText(r: Record)
    requires r.status == "started"
    ensures Clone(r) == Ok(r.(error := Blanked(r.error)))
  {
    StripFixpoint(r.status);
  }
}
