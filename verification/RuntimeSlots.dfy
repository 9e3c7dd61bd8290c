/**
 Admission of agent runs into worker pools and the model-request pool, and the claim that uses it.
 */
module RuntimeSlots {
  import opened Common
  import opened Decimal
  import opened Json

  datatype Status = Queued | Dispatched | Running | Waiting | Completed | Failed | Cancelled | Blocked

  datatype AgentRun = AgentRun(status: Status, metadata: Json, executionLocation: string)

  const SLOT_KEYS: set<string> := {
    "server_agent_run_slots", "server_sandbox_slots", "local_peer_agent_run_slots", "model_request_slots"}

  type Limits = map<string, int>

  predicate IsRunning(r: AgentRun) {
    r.status in {Dispatched, Running, Waiting}
  }

  /** `int(value)`; `None` stands for an exception. */
  function AsInt(v: Json): Option<int> {
    match v
    case Int(n) => Some(n)
    case Bool(b) => Some(if b then 1 else 0)
    case Str(s) => ReadInt(s)
    case _ => None
  }

  function Max(a: int, b: int): int {
    if a < b then b else a
  }

  function Fallback(maxRunningTasks: int): int {
    Max(1, maxRunningTasks)
  }

  /** The configured size of a pool, before it is raised to one. */
  function SlotValue(snapshot: Dict, maxRunningTasks: int, key: string): Option<int> {
    var slots := AsDict(Get(snapshot, "runtime_slots"));
    var fallback := Int(Fallback(maxRunningTasks));
    AsInt(Or(if key in slots then slots[key] else fallback, fallback))
  }

  /** `runtime_slot_limits`. */
  function SlotLimits(snapshot: Dict, maxRunningTasks: int): Option<Limits> {
    if exists k :: k in SLOT_KEYS && SlotValue(snapshot, maxRunningTasks, k).None? then None
    else Some(map k | k in SLOT_KEYS :: Max(1, SlotValue(snapshot, maxRunningTasks, k).value))
  }

  /** `runtime_slot_key_for_agent_run`. */
  function SlotKey(r: AgentRun): (key: string)
    ensures key in SLOT_KEYS && key != "model_request_slots"
  {
    var stated := TrimmedText(Get(AsDict(r.metadata), "worker_kind"));
    var kind := if stated != "" then stated
                else if r.executionLocation == "local_workspace" then "local_peer" else "server_worker";
    if kind == "sandbox_worker" then "server_sandbox_slots"
    else if kind == "local_peer" then "local_peer_agent_run_slots"
    else "server_agent_run_slots"
  }

  predicate UsesModelSlot(r: AgentRun) {
    TrimmedText(Get(AsDict(r.metadata), "model_request_origin")) in {"server", "server_worker_cli"}
  }

  /** The run takes a place in the pool while it runs. */
  predicate InPool(r: AgentRun, key: string) {
    if key == "model_request_slots" then UsesModelSlot(r) else SlotKey(r) == key
  }

  function Usage(tasks: seq<AgentRun>, key: string): nat {
    if tasks == [] then 0
    else Usage(tasks[..|tasks| - 1], key) + (if IsRunning(tasks[|tasks| - 1]) && InPool(tasks[|tasks| - 1], key) then 1 else 0)
  }

  /** `runtime_slots_allow_agent_run_claim`. */
  predicate Allows(tasks: seq<AgentRun>, candidate: AgentRun, limits: Limits)
    requires SLOT_KEYS <= limits.Keys
  {
    && Usage(tasks, SlotKey(candidate)) < limits[SlotKey(candidate)]
    && (UsesModelSlot(candidate) ==> Usage(tasks, "model_request_slots") < limits["model_request_slots"])
  }

  /** No pool is used beyond its limit. */
  ghost predicate Within(tasks: seq<AgentRun>, limits: Limits)
    requires SLOT_KEYS <= limits.Keys
  {
    forall k :: k in SLOT_KEYS ==> Usage(tasks, k) <= limits[k]
  }

  // ---------------------------------------------------------------- the configured pools

  /** What the runtime snapshot states for a pool. */
  function Stated(snapshot: Dict, key: string): Json {
    Get(AsDict(Get(snapshot, "runtime_slots")), key)
  }

  /** The stated size is no number: a list, a dictionary, or text that is none. */
  ghost predicate NoNumber(v: Json) {
    && Truthy(v) && (v.List? || v.Obj? || (v.Str? && ReadInt(v.s).None?))
  }

  /**
   A pool has the size stated for it, at least one; where nothing is stated, or zero, false or an empty
   value, the number of tasks that may run. The limits cannot be had exactly if some stated size is no number.
   */
  lemma LimitsExactly(snapshot: Dict, maxRunningTasks: int, key: string)
    requires key in SLOT_KEYS
    ensures var limits, v := SlotLimits(snapshot, maxRunningTasks), Stated(snapshot, key);
            && (limits.None? <==> exists k :: k in SLOT_KEYS && NoNumber(Stated(snapshot, k)))
            && (limits.Some? ==>
                  && limits.value.Keys == SLOT_KEYS
                  && (!Truthy(v) ==> limits.value[key] == (if maxRunningTasks < 1 then 1 else maxRunningTasks))
                  && (v == Bool(true) ==> limits.value[key] == 1)
                  && (v.Int? && v.n != 0 ==> limits.value[key] == (if v.n < 1 then 1 else v.n))
                  && (v.Str? && ReadInt(v.s).Some? && v.s != "" ==> limits.value[key] == (if ReadInt(v.s).value < 1 then 1 else ReadInt(v.s).value)))
  {
    hide ReadInt, SLOT_KEYS;
    forall k ensures SlotValue(snapshot, maxRunningTasks, k).None? <==> NoNumber(Stated(snapshot, k)) {
      ValueExactly(snapshot, maxRunningTasks, k);
    }
    ValueExactly(snapshot, maxRunningTasks, key);
    hide SlotValue, NoNumber, Stated;
  }

  lemma ValueExactly(snapshot: Dict, maxRunningTasks: int, key: string)
    ensures var value, v := SlotValue(snapshot, maxRunningTasks, key), Stated(snapshot, key);
            && (value.None? <==> NoNumber(v))
            && (!Truthy(v) ==> value == Some(if maxRunningTasks < 1 then 1 else maxRunningTasks))
            && (v == Bool(true) ==> value == Some(1))
            && (v.Int? && v.n != 0 ==> value == Some(v.n))
            && (v.Str? && v.s != "" ==> value == ReadInt(v.s))
  {
    hide ReadInt;
  }

  /**
   A run counts in the sandbox pool if its stated worker kind says so, in the local pool if that says so
   or nothing is stated and it runs in the local workspace, and in the server pool otherwise; and in the
   model pool, besides, if its model requests start at the server or in a server worker.
   */
  lemma PoolsExactly(r: AgentRun)
    ensures var kind := TrimmedText(Get(AsDict(r.metadata), "worker_kind"));
            var origin := TrimmedText(Get(AsDict(r.metadata), "model_request_origin"));
            var sandbox, local := kind == "sandbox_worker", kind == "local_peer" || (kind == "" && r.executionLocation == "local_workspace");
            && (InPool(r, "server_sandbox_slots") <==> sandbox)
            && (InPool(r, "local_peer_agent_run_slots") <==> local)
            && (InPool(r, "server_agent_run_slots") <==> !sandbox && !local)
            && (InPool(r, "model_request_slots") <==> origin == "server" || origin == "server_worker_cli")
  {
    hide TrimmedText;
  }

  /** The runs that take a place in the pool: those in it that are dispatched, running or waiting. */
  ghost function Occupants(tasks: seq<AgentRun>, key: string): set<nat> {
    set i | 0 <= i < |tasks| && (tasks[i].status.Dispatched? || tasks[i].status.Running? || tasks[i].status.Waiting?) && InPool(tasks[i], key)
  }

  lemma OccupantsAppend(tasks: seq<AgentRun>, key: string)
    requires tasks != []
    ensures var n := |tasks| - 1;
            var front := Occupants(tasks[..n], key);
            n !in front && Occupants(tasks, key) == if IsRunning(tasks[n]) && InPool(tasks[n], key) then front + {n} else front
  {
    hide InPool;
    var n := |tasks| - 1;
    assert forall i :: 0 <= i < n ==> tasks[..n][i] == tasks[i];
  }

  /** The use of a pool is the number of its occupants. */
  lemma {:induction false} UsageExactly(tasks: seq<AgentRun>, key: string)
    ensures Usage(tasks, key) == |Occupants(tasks, key)|
  {
    hide InPool;
    if tasks == [] {
      assert Occupants(tasks, key) == {};
    } else {
      UsageExactly(tasks[..|tasks| - 1], key);
      OccupantsAppend(tasks, key);
      hide Occupants, IsRunning;
    }
  }

  // ---------------------------------------------------------------- counting

  function WithStatus(tasks: seq<AgentRun>, i: nat, status: Status): seq<AgentRun>
    requires i < |tasks|
  {
    tasks[i := tasks[i].(status := status)]
  }

  predicate Counted(r: AgentRun, key: string) {
    IsRunning(r) && InPool(r, key)
  }

  lemma {:induction false} UsageUpdate(tasks: seq<AgentRun>, i: nat, r: AgentRun, key: string)
    requires i < |tasks|
    ensures Usage(tasks[i := r], key)
            == Usage(tasks, key) - (if Counted(tasks[i], key) then 1 else 0) + (if Counted(r, key) then 1 else 0)
  {
    hide InPool, IsRunning;
    var n := |tasks| - 1;
    var updated := tasks[i := r];
    if i == n {
      assert updated[..n] == tasks[..n];
    } else {
      UsageUpdate(tasks[..n], i, r, key);
      assert updated[..n] == tasks[..n][i := r];
    }
  }

  lemma PoolKept(r: AgentRun, status: Status, key: string)
    ensures InPool(r.(status := status), key) == InPool(r, key)
  {
    hide TrimmedText;
  }

  /** The guard is exact: it lets a run in exactly when every pool stays within its limit. */
  lemma AdmissionExact(tasks: seq<AgentRun>, i: nat, limits: Limits)
    requires SLOT_KEYS <= limits.Keys && i < |tasks| && !IsRunning(tasks[i]) && Within(tasks, limits)
    ensures Allows(tasks, tasks[i], limits) <==> Within(WithStatus(tasks, i, Dispatched), limits)
  {
    hide Usage, SlotKey, UsesModelSlot;
    var r := tasks[i];
    forall k ensures Usage(WithStatus(tasks, i, Dispatched), k) == Usage(tasks, k) + (if InPool(r, k) then 1 else 0) {
      UsageUpdate(tasks, i, r.(status := Dispatched), k);
      PoolKept(r, Dispatched, k);
    }
    assert InPool(r, SlotKey(r)) && SlotKey(r) in SLOT_KEYS;
    assert InPool(r, "model_request_slots") == UsesModelSlot(r) && "model_request_slots" in SLOT_KEYS;
  }

  lemma {:induction false} NothingRunning(tasks: seq<AgentRun>, key: string)
    requires forall r :: r in tasks ==> !IsRunning(r)
    ensures Usage(tasks, key) == 0
  {
    hide InPool, IsRunning;
    if tasks != [] {
      NothingRunning(tasks[..|tasks| - 1], key);
    }
  }

  lemma LimitsPositive(snapshot: Dict, maxRunningTasks: int)
    requires SlotLimits(snapshot, maxRunningTasks).Some?
    ensures var limits := SlotLimits(snapshot, maxRunningTasks).value;
            limits.Keys == SLOT_KEYS && forall k :: k in SLOT_KEYS ==> limits[k] >= 1
  {
    hide SlotValue, SLOT_KEYS;
  }

  /** A system with nothing running admits any run, whatever the snapshot says. */
  lemma IdleAdmits(tasks: seq<AgentRun>, candidate: AgentRun, snapshot: Dict, maxRunningTasks: int)
    requires SlotLimits(snapshot, maxRunningTasks).Some?
    requires forall r :: r in tasks ==> !IsRunning(r)
    ensures SLOT_KEYS <= SlotLimits(snapshot, maxRunningTasks).value.Keys
    ensures Allows(tasks, candidate, SlotLimits(snapshot, maxRunningTasks).value)
  {
    hide Usage, IsRunning, SlotLimits;
    LimitsPositive(snapshot, maxRunningTasks);
    NothingRunning(tasks, SlotKey(candidate));
    NothingRunning(tasks, "model_request_slots");
  }

  // ---------------------------------------------------------------- claims

  /** A worker may take the run, apart from the slots. */
  type Worker = AgentRun -> bool

  predicate Claimable(tasks: seq<AgentRun>, i: nat, worker: Worker, limits: Limits)
    requires SLOT_KEYS <= limits.Keys && i < |tasks|
  {
    tasks[i].status == Queued && worker(tasks[i]) && Allows(tasks, tasks[i], limits)
  }

  /** `_claim_task_once`: the first queued run that suits the worker and the slots is dispatched. */
  method ClaimTask(tasks: seq<AgentRun>, worker: Worker, limits: Limits) returns (claimed: Option<nat>, after: seq<AgentRun>)
    requires SLOT_KEYS <= limits.Keys
    ensures claimed.None? ==> after == tasks && forall i :: 0 <= i < |tasks| ==> !Claimable(tasks, i, worker, limits)
    ensures claimed.Some? ==>
              && claimed.value < |tasks| && Claimable(tasks, claimed.value, worker, limits)
              && (forall i :: 0 <= i < claimed.value ==> !Claimable(tasks, i, worker, limits))
              && after == WithStatus(tasks, claimed.value, Dispatched)
    ensures Within(tasks, limits) ==> Within(after, limits)
  {
    hide Allows, Within;
    for i := 0 to |tasks|
      invariant forall j :: 0 <= j < i ==> !Claimable(tasks, j, worker, limits)
    {
      if tasks[i].status == Queued && worker(tasks[i]) && Allows(tasks, tasks[i], limits) {
        if Within(tasks, limits) {
          AdmissionExact(tasks, i, limits);
        }
        return Some(i), WithStatus(tasks, i, Dispatched);
      }
    }
    return None, tasks;
  }

  // ---------------------------------------------------------------- runs

  /** What happens to the store: a run is queued, a guarded claim, or a change that starts nothing. */
  datatype Step = Enqueue(run: AgentRun) | Claim(i: nat) | Progress(i: nat, status: Status)

  predicate Possible(tasks: seq<AgentRun>, s: Step, limits: Limits)
    requires SLOT_KEYS <= limits.Keys
  {
    match s
    case Enqueue(r) => !IsRunning(r)
    case Claim(i) => i < |tasks| && !IsRunning(tasks[i]) && Allows(tasks, tasks[i], limits)
    case Progress(i, status) => i < |tasks| && (IsRunning(tasks[i].(status := status)) ==> IsRunning(tasks[i]))
  }

  function Next(tasks: seq<AgentRun>, s: Step, limits: Limits): seq<AgentRun>
    requires SLOT_KEYS <= limits.Keys && Possible(tasks, s, limits)
  {
    match s
    case Enqueue(r) => tasks + [r]
    case Claim(i) => WithStatus(tasks, i, Dispatched)
    case Progress(i, status) => WithStatus(tasks, i, status)
  }

  ghost predicate Runs(states: seq<seq<AgentRun>>, steps: seq<Step>, limits: Limits)
    requires SLOT_KEYS <= limits.Keys
  {
    && |states| == |steps| + 1
    && forall i :: 0 <= i < |steps| ==> Possible(states[i], steps[i], limits) && states[i + 1] == Next(states[i], steps[i], limits)
  }

  lemma StepWithin(tasks: seq<AgentRun>, s: Step, limits: Limits)
    requires SLOT_KEYS <= limits.Keys && Possible(tasks, s, limits) && Within(tasks, limits)
    ensures Within(Next(tasks, s, limits), limits)
  {
    hide Usage, InPool, IsRunning, Allows;
    match s
    case Enqueue(r) =>
      forall k ensures Usage(tasks + [r], k) == Usage(tasks, k) {
        UsageAppend(tasks, r, k);
      }
    case Claim(i) => AdmissionExact(tasks, i, limits);
    case Progress(i, status) =>
      forall k ensures Usage(WithStatus(tasks, i, status), k) <= Usage(tasks, k) {
        UsageUpdate(tasks, i, tasks[i].(status := status), k);
        PoolKept(tasks[i], status, k);
      }
  }

  lemma UsageAppend(tasks: seq<AgentRun>, r: AgentRun, key: string)
    requires !IsRunning(r)
    ensures Usage(tasks + [r], key) == Usage(tasks, key)
  {
    hide InPool, IsRunning;
    assert (tasks + [r])[..|tasks|] == tasks;
  }

  /** With a fixed snapshot, in every run every pool stays within its limit. */
  lemma {:induction false} PoolsBounded(states: seq<seq<AgentRun>>, steps: seq<Step>, limits: Limits)
    requires SLOT_KEYS <= limits.Keys && Runs(states, steps, limits) && Within(states[0], limits)
    ensures forall i :: 0 <= i < |states| ==> Within(states[i], limits)
    decreases |steps|
  {
    hide Within, Possible, Next;
    if steps != [] {
      var n := |steps| - 1;
      PoolsBounded(states[..n + 1], steps[..n], limits);
      assert states[..n + 1][n] == states[n];
      StepWithin(states[n], steps[n], limits);
      forall i | 0 <= i < |states| ensures Within(states[i], limits) {
        if i <= n {
          assert states[..n + 1][i] == states[i];
        }
      }
    }
  }
}
