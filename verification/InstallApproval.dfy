/**
 The session-run loop of capability package ingestion: drafts, server repairs, install approvals
 and user revisions that arrive on other threads.

 The threads are interleaved in atomic steps. A step is a block under `revision_lock` or under the
 session's own lock, or one call to a collaborator. The runner is the thread in `_run`; every
 accepted revision ticket has a callback thread of its own; users, cancellation and the control
 plane are the environment. Approval ids may repeat, so registrations are numbered.
 */
module InstallApproval {
  import opened Common

  type ApprovalId = string
  type TicketId = string
  type Candidate = string

  datatype Decision = AllowOnce | DenyOnce

  datatype TicketState = Pending | Consumed

  /** An approval that is being waited for. `grant` numbers its registration. */
  datatype Waiter = Waiter(grant: nat, resolved: Option<Decision>)

  datatype Callback =
    | Called                       // the session has called back; the revision lock is not taken yet
    | Owes(approval: ApprovalId)   // the ticket is queued; the active approval is still to be denied

  datatype Runner =
    | Looping                      // before the first cancellation check of a round
    | Projecting                   // the events of the agent run are projected; the second check follows
    | Building
    | Registering(candidate: Candidate, approval: ApprovalId)
    | Asking(stage: Ask, approval: ApprovalId, grant: nat)
    | Answered(phase: Answer, grant: nat, decision: Decision)
    | Ended

  /** From the registered approval to its resolution. */
  datatype Ask = Activating | Denying | Waiting

  /** From the resolution to the next draft, the install or the end. */
  datatype Answer =
    | Clearing(approval: ApprovalId)
    | Checking
    | Popping
    | Popped(ticket: TicketId)
    | Revising(ticket: TicketId)
    | Deciding
    | Installing

  /** What the control plane and the candidate builder answer for one draft. */
  datatype Draft =
    | Failed
    | Repairable(reported: seq<Option<int>>)   // not ready for a repairable reason, with the activations reported
    | Ready(candidate: Candidate, approval: ApprovalId)

  datatype State = State(
    runner: Runner,
    callbackSet: bool,
    cancelled: bool,
    queue: seq<TicketId>,                 // revision_queue
    active: Option<ApprovalId>,           // active_approval_id, None for ""
    callbacks: map<TicketId, Callback>,
    tickets: map<TicketId, TicketState>,  // the session's revision feedback tickets
    waiters: map<ApprovalId, Waiter>,
    activations: seq<Option<int>>,        // repair_attempt of each activation of the agent run
    past: History,
    tally: Tally)

  /** What happened to the numbered registrations. */
  datatype History = History(
    candidates: seq<Candidate>,           // candidate of each registration
    allowed: set<nat>,                    // registrations whose wait returned allow_once
    revised: set<nat>,                    // registrations for which a live ticket was popped
    drained: set<nat>,                    // registrations whose pop loop ended on an empty queue
    installs: seq<nat>)

  datatype Tally = Tally(builds: nat, repairs: nat, revisions: nat)

  const INITIAL := State(Looping, true, false, [], None, map[], map[], map[], [None],
                         History([], {}, {}, {}, []), Tally(0, 0, 0))

  datatype Step =
    | Advance                             // the runner's next step, where it has only one
    | Build(draft: Draft)
    | Submit(ticket: TicketId)
    | Enqueue(ticket: TicketId)
    | Deny(ticket: TicketId)
    | Resolve(approval: ApprovalId, decision: Decision)
    | ConsumeElsewhere(ticket: TicketId)
    | Cancel

  const REPAIR_LIMIT := 1

  /** The latest repair attempt on record, at least zero. */
  function RepairAttempt(activations: seq<Option<int>>): (r: int)
    ensures r >= 0
  {
    if activations == [] then 0
    else
      var n := |activations| - 1;
      match activations[n]
      case Some(a) => if a < 0 then 0 else a
      case None => RepairAttempt(activations[..n])
  }

  /** The backward search of `_capability_candidate_repair_attempt`. */
  method FindRepairAttempt(activations: seq<Option<int>>) returns (attempt: int)
    ensures attempt == RepairAttempt(activations)
  {
    var raw: Option<int> := None;
    var i := |activations|;
    assert activations[..i] == activations;
    while i > 0
      invariant 0 <= i <= |activations|
      invariant RepairAttempt(activations) == RepairAttempt(activations[..i])
    {
      i := i - 1;
      assert activations[..i + 1][..i] == activations[..i];
      raw := activations[i];
      if raw.Some? {
        return if raw.value < 0 then 0 else raw.value;
      }
    }
    attempt := 0;
  }

  /** The first resolution of a waiting approval wins; any other call has no effect. */
  function Resolved(waiters: map<ApprovalId, Waiter>, approval: ApprovalId, decision: Decision): map<ApprovalId, Waiter> {
    if approval in waiters && waiters[approval].resolved.None?
    then waiters[approval := waiters[approval].(resolved := Some(decision))]
    else waiters
  }

  function End(s: State): State {
    s.(runner := Ended, callbackSet := false)
  }

  function AskStep(s: State, stage: Ask, approval: ApprovalId, grant: nat): (r: Option<State>)
    ensures r.Some? ==> s.past.revised <= r.value.past.revised
    ensures r.Some? ==> SameRecords(s, r.value) && (r.value.runner.Asking? || r.value.runner.Answered?)
  {
    match stage
    case Activating =>
      Some(s.(active := Some(approval), runner := Asking(if s.queue != [] then Denying else Waiting, approval, grant)))
    case Denying =>
      Some(s.(waiters := Resolved(s.waiters, approval, DenyOnce), runner := Asking(Waiting, approval, grant)))
    case Waiting =>
      if approval in s.waiters && s.waiters[approval].resolved.Some? then
        var decision := s.waiters[approval].resolved.value;
        Some(s.(waiters := s.waiters - {approval}, runner := Answered(Clearing(approval), grant, decision),
                past := if decision.AllowOnce? then s.past.(allowed := s.past.allowed + {grant}) else s.past))
      else None
  }

  /** The agent run, its tally and the callback threads are as before. */
  ghost predicate SameRecords(s: State, t: State) {
    t.tally == s.tally && t.activations == s.activations && t.callbacks == s.callbacks && t.tickets == s.tickets
  }

  predicate Drains(phase: Answer) {
    phase.Clearing? || phase.Checking? || phase.Popping? || phase.Popped?
  }

  /** Clearing the active approval, the cancellation check and `_pop_revision_ticket`. */
  function DrainStep(s: State, phase: Answer, grant: nat, decision: Decision): (r: State)
    requires Drains(phase)
    ensures s.past.revised <= r.past.revised
    ensures SameRecords(s, r) && (r.runner.Answered? || r.runner.Ended?)
  {
    match phase
    case Clearing(approval) =>
      s.(active := if s.active == Some(approval) then None else s.active, runner := Answered(Checking, grant, decision))
    case Checking => if s.cancelled then End(s) else s.(runner := Answered(Popping, grant, decision))
    case Popping =>
      if s.queue == [] then
        s.(runner := Answered(Deciding, grant, decision), past := s.past.(drained := s.past.drained + {grant}))
      else s.(queue := s.queue[1..], runner := Answered(Popped(s.queue[0]), grant, decision))
    case Popped(ticket) =>
      if ticket in s.tickets && s.tickets[ticket].Consumed? then s.(runner := Answered(Popping, grant, decision))
      else s.(runner := Answered(Revising(ticket), grant, decision), past := s.past.(revised := s.past.revised + {grant}))
  }

  /** The revision, or the decision and the install. */
  function SettleStep(s: State, phase: Answer, grant: nat, decision: Decision): (r: State)
    requires !Drains(phase)
    ensures s.past.revised <= r.past.revised
    ensures !r.runner.Asking? && r.callbacks == s.callbacks && r.active == s.active && s.tickets.Keys <= r.tickets.Keys
    ensures if phase.Revising? then r.runner.Looping? && r.activations == s.activations + [None]
                                  && r.tally == s.tally.(revisions := s.tally.revisions + 1)
            else (r.runner.Answered? || r.runner.Ended?) && r.activations == s.activations && r.tally == s.tally
  {
    match phase
    case Revising(ticket) =>
      s.(runner := Looping, tickets := s.tickets[ticket := Consumed], activations := s.activations + [None],
         tally := s.tally.(revisions := s.tally.revisions + 1))
    case Deciding => if decision.AllowOnce? then s.(runner := Answered(Installing, grant, decision)) else End(s)
    case Installing => End(s.(past := s.past.(installs := s.past.installs + [grant])))
  }

  function RunnerStep(s: State): Option<State> {
    match s.runner
    case Looping => Some(if s.cancelled then End(s) else s.(runner := Projecting))
    case Projecting => Some(if s.cancelled then End(s) else s.(runner := Building))
    case Building => None
    case Registering(candidate, approval) =>
      var grant := |s.past.candidates|;
      Some(s.(runner := Asking(Activating, approval, grant), past := s.past.(candidates := s.past.candidates + [candidate]),
              waiters := s.waiters[approval := Waiter(grant, None)]))
    case Asking(stage, approval, grant) => AskStep(s, stage, approval, grant)
    case Answered(phase, grant, decision) => Some(if Drains(phase) then DrainStep(s, phase, grant, decision) else SettleStep(s, phase, grant, decision))
    case Ended => None
  }

  function BuildStep(s: State, draft: Draft): Option<State> {
    if !s.runner.Building? then None
    else
      var t := s.(tally := s.tally.(builds := s.tally.builds + 1));
      match draft
      case Failed => Some(End(t))
      case Repairable(reported) =>
        var attempt := RepairAttempt(reported);
        Some(if attempt >= REPAIR_LIMIT then End(t)
             else t.(runner := Looping, activations := s.activations + [Some(attempt + 1)], tally := t.tally.(repairs := t.tally.repairs + 1)))
      case Ready(candidate, approval) => Some(t.(runner := Registering(candidate, approval)))
  }

  function Next(s: State, step: Step): Option<State> {
    match step
    case Advance => RunnerStep(s)
    case Build(draft) => BuildStep(s, draft)
    case Submit(ticket) =>
      if ticket in s.tickets then Some(s)
      else Some(s.(tickets := s.tickets[ticket := Pending],
                   callbacks := if s.callbackSet then s.callbacks[ticket := Called] else s.callbacks))
    case Enqueue(ticket) =>
      if !(ticket in s.callbacks && s.callbacks[ticket].Called?) then None
      else if ticket in s.queue then Some(s.(callbacks := s.callbacks - {ticket}))
      else Some(s.(queue := s.queue + [ticket],
                   callbacks := if s.active.Some? then s.callbacks[ticket := Owes(s.active.value)] else s.callbacks - {ticket}))
    case Deny(ticket) =>
      if !(ticket in s.callbacks && s.callbacks[ticket].Owes?) then None
      else Some(s.(waiters := Resolved(s.waiters, s.callbacks[ticket].approval, DenyOnce), callbacks := s.callbacks - {ticket}))
    case Resolve(approval, decision) => Some(s.(waiters := Resolved(s.waiters, approval, decision)))
    case ConsumeElsewhere(ticket) => Some(if ticket in s.tickets then s.(tickets := s.tickets[ticket := Consumed]) else s)
    case Cancel => Some(s.(cancelled := true, waiters := map a | a in s.waiters :: Resolved(s.waiters, a, DenyOnce)[a]))
  }

  ghost predicate Runs(s: State, steps: seq<Step>, t: State)
    decreases |steps|
  {
    if steps == [] then t == s
    else Next(s, steps[0]).Some? && Runs(Next(s, steps[0]).value, steps[1..], t)
  }

  ghost predicate Reachable(s: State) {
    exists steps :: Runs(INITIAL, steps, s)
  }

  // ---------------------------------------------------------------- no lost wakeup

  /** Somebody still has to deny `approval` because of a queued ticket. */
  ghost predicate DenialOwed(s: State, approval: ApprovalId) {
    || (s.runner.Asking? && s.runner.stage.Denying? && s.runner.approval == approval)
    || exists t :: t in s.callbacks && s.callbacks[t] == Owes(approval)
  }

  ghost predicate Unresolved(s: State, approval: ApprovalId) {
    approval in s.waiters && s.waiters[approval].resolved.None?
  }

  /** The approval the runner has made active, if any. */
  function Announced(r: Runner): Option<ApprovalId> {
    match r
    case Asking(stage, approval, _) => if stage.Activating? then None else Some(approval)
    case Answered(Clearing(approval), _, _) => Some(approval)
    case _ => None
  }

  ghost predicate ActiveInv(s: State) {
    && (s.runner.Asking? ==> s.runner.approval in s.waiters && s.waiters[s.runner.approval].grant == s.runner.grant)
    && s.active == Announced(s.runner)
    && (s.active.Some? && s.queue != [] && Unresolved(s, s.active.value) ==> DenialOwed(s, s.active.value))
  }

  /** Each ticket has at most one callback thread, because a ticket id is accepted once. */
  ghost predicate CallbackInv(s: State) {
    s.callbacks.Keys <= s.tickets.Keys
  }

  ghost predicate ApprovalInv(s: State) {
    ActiveInv(s) && CallbackInv(s)
  }

  lemma AskKeepsActive(s: State)
    requires ApprovalInv(s) && s.runner.Asking?
    requires AskStep(s, s.runner.stage, s.runner.approval, s.runner.grant).Some?
    ensures ApprovalInv(AskStep(s, s.runner.stage, s.runner.approval, s.runner.grant).value)
  {
    var t := AskStep(s, s.runner.stage, s.runner.approval, s.runner.grant).value;
    assert t.callbacks == s.callbacks;
  }

  lemma DrainKeepsActive(s: State)
    requires ApprovalInv(s) && s.runner.Answered? && Drains(s.runner.phase)
    ensures ApprovalInv(DrainStep(s, s.runner.phase, s.runner.grant, s.runner.decision))
  {
  }

  lemma SettleKeepsActive(s: State)
    requires ApprovalInv(s) && s.runner.Answered? && !Drains(s.runner.phase)
    ensures ApprovalInv(SettleStep(s, s.runner.phase, s.runner.grant, s.runner.decision))
  {
  }

  lemma RunnerKeepsActive(s: State)
    requires ApprovalInv(s) && RunnerStep(s).Some?
    ensures ApprovalInv(RunnerStep(s).value)
  {
    hide AskStep, DrainStep, SettleStep;
    match s.runner
    case Asking(_, _, _) => AskKeepsActive(s);
    case Answered(phase, _, _) => if Drains(phase) { DrainKeepsActive(s); } else { SettleKeepsActive(s); }
    case _ =>
  }

  lemma EnqueueKeepsActive(s: State, ticket: TicketId)
    requires ActiveInv(s) && Next(s, Enqueue(ticket)).Some?
    ensures ActiveInv(Next(s, Enqueue(ticket)).value)
  {
    hide AskStep, DrainStep, SettleStep;
    var t := Next(s, Enqueue(ticket)).value;
    if t.active.Some? && Unresolved(t, t.active.value) {
      var a := t.active.value;
      if s.queue == [] {
        assert t.callbacks[ticket] == Owes(a);
      } else if exists c :: c in s.callbacks && s.callbacks[c] == Owes(a) {
        var c :| c in s.callbacks && s.callbacks[c] == Owes(a);
        assert c in t.callbacks;
      }
    }
  }

  lemma DenyKeepsActive(s: State, ticket: TicketId)
    requires ActiveInv(s) && Next(s, Deny(ticket)).Some?
    ensures ActiveInv(Next(s, Deny(ticket)).value)
  {
    hide AskStep, DrainStep, SettleStep;
    var t := Next(s, Deny(ticket)).value;
    if t.active.Some? && exists c :: c in s.callbacks && s.callbacks[c] == Owes(t.active.value) {
      var c :| c in s.callbacks && s.callbacks[c] == Owes(t.active.value);
      assert c in t.callbacks || c == ticket;
    }
  }

  lemma SubmitKeepsActive(s: State, ticket: TicketId)
    requires ActiveInv(s) && CallbackInv(s)
    ensures ActiveInv(Next(s, Submit(ticket)).value)
  {
    hide AskStep, DrainStep, SettleStep;
    var t := Next(s, Submit(ticket)).value;
    if t.active.Some? && exists c :: c in s.callbacks && s.callbacks[c] == Owes(t.active.value) {
      var c :| c in s.callbacks && s.callbacks[c] == Owes(t.active.value);
      assert c in t.callbacks && c in s.tickets;
    }
  }

  lemma ResolvedKeepsActive(s: State, waiters: map<ApprovalId, Waiter>, cancelled: bool)
    requires ActiveInv(s) && waiters.Keys == s.waiters.Keys
    requires forall a :: a in waiters ==>
               waiters[a] == s.waiters[a] || (waiters[a].grant == s.waiters[a].grant && waiters[a].resolved.Some?)
    ensures ActiveInv(s.(waiters := waiters, cancelled := cancelled))
  {
    var t := s.(waiters := waiters, cancelled := cancelled);
    if t.active.Some? && t.queue != [] && Unresolved(t, t.active.value) {
      assert Unresolved(s, t.active.value) && DenialOwed(s, t.active.value);
    }
  }

  lemma StepKeepsActive(s: State, step: Step)
    requires ApprovalInv(s) && Next(s, step).Some?
    ensures ApprovalInv(Next(s, step).value)
  {
    hide RunnerStep;
    match step
    case Advance => RunnerKeepsActive(s);
    case Build(draft) =>
    case Submit(ticket) => SubmitKeepsActive(s, ticket);
    case Enqueue(ticket) => EnqueueKeepsActive(s, ticket);
    case Deny(ticket) => DenyKeepsActive(s, ticket);
    case Resolve(approval, decision) =>
      ResolvedKeepsActive(s, Resolved(s.waiters, approval, decision), s.cancelled);
    case ConsumeElsewhere(ticket) =>
      var t := Next(s, step).value;
      assert forall a :: DenialOwed(s, a) ==> DenialOwed(t, a);
    case Cancel =>
      ResolvedKeepsActive(s, Next(s, step).value.waiters, true);
  }

  // ---------------------------------------------------------------- installs

  function Grant(r: Runner): Option<nat> {
    match r
    case Asking(_, _, g) => Some(g)
    case Answered(_, g, _) => Some(g)
    case _ => None
  }

  /** Registrations are numbered in order, and the runner handles the last one. */
  ghost predicate NumberingInv(runner: Runner, past: History) {
    && (Grant(runner).Some? ==> Grant(runner).value + 1 == |past.candidates|)
    && Below(past.allowed, |past.candidates|)
    && Below(past.revised, |past.candidates|)
    && Below(past.drained, |past.candidates|)
  }

  ghost predicate Below(grants: set<nat>, n: nat) {
    forall g :: g in grants ==> g < n
  }

  /** What the runner has established about its registration so far. */
  ghost predicate DecisionInv(runner: Runner, past: History) {
    && (runner.Asking? ==> runner.grant !in past.revised && runner.grant !in past.drained)
    && (runner.Answered? ==>
          && (runner.decision.AllowOnce? ==> runner.grant in past.allowed)
          && (runner.phase.Revising? <==> runner.grant in past.revised)
          && (runner.phase.Deciding? || runner.phase.Installing? <==> runner.grant in past.drained)
          && (runner.phase.Installing? ==> runner.decision.AllowOnce?))
  }

  /** Installs happen last, once, and only after an allowed, drained and unrevised registration. */
  ghost predicate InstalledInv(runner: Runner, past: History) {
    && (past.installs != [] ==> runner.Ended?)
    && |past.installs| <= 1
    && (forall g :: g in past.installs ==>
          g + 1 == |past.candidates| && g in past.allowed && g in past.drained && g !in past.revised)
  }

  ghost predicate InstallInv(s: State) {
    NumberingInv(s.runner, s.past) && DecisionInv(s.runner, s.past) && InstalledInv(s.runner, s.past)
  }

  lemma AskKeepsInstall(s: State)
    requires InstallInv(s) && s.runner.Asking?
    requires AskStep(s, s.runner.stage, s.runner.approval, s.runner.grant).Some?
    ensures InstallInv(AskStep(s, s.runner.stage, s.runner.approval, s.runner.grant).value)
  {
  }

  lemma PopKeepsInstall(s: State)
    requires InstallInv(s) && s.runner.Answered? && (s.runner.phase.Popping? || s.runner.phase.Popped?)
    ensures InstallInv(DrainStep(s, s.runner.phase, s.runner.grant, s.runner.decision))
  {
    match s.runner.phase
    case Popping =>
    case Popped(_) =>
  }

  lemma DrainKeepsInstall(s: State)
    requires InstallInv(s) && s.runner.Answered? && Drains(s.runner.phase)
    ensures InstallInv(DrainStep(s, s.runner.phase, s.runner.grant, s.runner.decision))
  {
    match s.runner.phase
    case Clearing(_) =>
    case Checking =>
    case _ =>
      hide InstallInv, DrainStep;
      PopKeepsInstall(s);
  }

  lemma SettleKeepsInstall(s: State)
    requires InstallInv(s) && s.runner.Answered? && !Drains(s.runner.phase)
    ensures InstallInv(SettleStep(s, s.runner.phase, s.runner.grant, s.runner.decision))
  {
  }

  lemma StepKeepsInstall(s: State, step: Step)
    requires InstallInv(s) && Next(s, step).Some?
    ensures InstallInv(Next(s, step).value)
  {
    hide AskStep, DrainStep, SettleStep;
    match step
    case Advance =>
      match s.runner {
        case Asking(_, _, _) => AskKeepsInstall(s);
        case Answered(phase, _, _) => if Drains(phase) { DrainKeepsInstall(s); } else { SettleKeepsInstall(s); }
        case _ =>
      }
    case Build(draft) =>
    case _ =>
  }

  // ---------------------------------------------------------------- whole runs

  /** The loop's bookkeeping: every draft but the current one led to a repair or a revision. */
  ghost predicate TallyInv(s: State) {
    s.tally.builds == s.tally.repairs + s.tally.revisions + (if s.runner.Looping? || s.runner.Projecting? || s.runner.Building? then 0 else 1)
    || (s.runner.Ended? && s.tally.builds <= s.tally.repairs + s.tally.revisions + 1)
  }

  ghost predicate Inv(s: State) {
    ApprovalInv(s) && InstallInv(s) && TallyInv(s)
  }

  lemma RunnerKeepsTally(s: State)
    requires TallyInv(s) && RunnerStep(s).Some?
    ensures TallyInv(RunnerStep(s).value)
  {
    hide AskStep, DrainStep, SettleStep;
  }

  lemma BuildKeepsTally(s: State, draft: Draft)
    requires TallyInv(s) && BuildStep(s, draft).Some?
    ensures TallyInv(BuildStep(s, draft).value)
  {
    hide RepairAttempt;
  }

  lemma StepKeepsTally(s: State, step: Step)
    requires TallyInv(s) && Next(s, step).Some?
    ensures TallyInv(Next(s, step).value)
  {
    hide RunnerStep, BuildStep, Resolved;
    match step
    case Advance => RunnerKeepsTally(s);
    case Build(draft) => BuildKeepsTally(s, draft);
    case _ =>
  }

  lemma {:induction false} RunKeeps(s: State, steps: seq<Step>, t: State)
    requires Inv(s) && Runs(s, steps, t)
    ensures Inv(t)
    decreases |steps|
  {
    hide Next, ApprovalInv, InstallInv, TallyInv;
    if steps != [] {
      StepKeepsActive(s, steps[0]);
      StepKeepsInstall(s, steps[0]);
      StepKeepsTally(s, steps[0]);
      RunKeeps(Next(s, steps[0]).value, steps[1..], t);
    }
  }

  lemma ReachableInv(s: State)
    requires Reachable(s)
    ensures Inv(s)
  {
    var steps :| Runs(INITIAL, steps, s);
    RunKeeps(INITIAL, steps, s);
  }

  /**
   No lost wakeup: while a ticket is queued, an approval that is active and unresolved is still to be
   denied, by the runner or by a callback thread.
   */
  lemma NoLostWakeup(s: State)
    requires Reachable(s)
    requires s.active.Some? && s.queue != [] && Unresolved(s, s.active.value)
    ensures DenialOwed(s, s.active.value)
  {
    ReachableInv(s);
  }

  /** So a waiting runner with a queued ticket is at most one step of some thread away from being woken. */
  lemma WaitIsWoken(s: State) returns (step: Step)
    requires Reachable(s) && s.runner.Asking? && s.runner.stage.Waiting? && s.queue != []
    ensures Next(s, step).Some?
    ensures var t := Next(s, step).value;
            t.runner.Answered? || (t.runner == s.runner && RunnerStep(t).Some?)
  {
    hide DrainStep, SettleStep;
    ReachableInv(s);
    var approval := s.runner.approval;
    if Unresolved(s, approval) {
      var ticket :| ticket in s.callbacks && s.callbacks[ticket] == Owes(approval);
      step := Deny(ticket);
    } else {
      step := Advance;
    }
  }

  /**
   An install is applied at most once in a whole run; then the run is over, and it is the last
   registered candidate, whose wait returned allow_once, whose pop loop drained the queue and for
   which no live revision was popped.
   */
  lemma InstallsAtMostOnce(s: State)
    requires Reachable(s)
    ensures |s.past.installs| <= 1
    ensures s.past.installs != [] ==>
              && s.runner.Ended?
              && var g := s.past.installs[0];
                 g + 1 == |s.past.candidates| && g in s.past.allowed && g in s.past.drained && g !in s.past.revised
  {
    ReachableInv(s);
    if s.past.installs != [] {
      assert s.past.installs[0] in s.past.installs;
    }
  }

  /** The control plane reports every activation of the run to every failed draft. */
  ghost predicate FullyReported(s: State, steps: seq<Step>)
    decreases |steps|
  {
    steps != [] ==>
      && (steps[0].Build? && steps[0].draft.Repairable? ==> steps[0].draft.reported == s.activations)
      && (Next(s, steps[0]).Some? ==> FullyReported(Next(s, steps[0]).value, steps[1..]))
  }

  ghost predicate RepairInv(s: State) {
    s.tally.repairs == if RepairAttempt(s.activations) >= REPAIR_LIMIT then 1 else 0
  }

  lemma RepairAttemptAppend(activations: seq<Option<int>>, a: Option<int>)
    ensures RepairAttempt(activations + [a]) ==
              match a case Some(n) => (if n < 0 then 0 else n) case None => RepairAttempt(activations)
  {
    assert (activations + [a])[..|activations|] == activations;
  }

  lemma StepKeepsRepairs(s: State, step: Step)
    requires RepairInv(s) && Next(s, step).Some?
    requires step.Build? && step.draft.Repairable? ==> step.draft.reported == s.activations
    ensures RepairInv(Next(s, step).value)
  {
    hide AskStep, DrainStep, SettleStep;
    hide RepairAttempt;
    RepairAttemptAppend(s.activations, None);
    RepairAttemptAppend(s.activations, Some(RepairAttempt(s.activations) + 1));
    match step
    case Advance =>
    case Build(draft) =>
    case _ => assert Next(s, step).value.activations == s.activations && Next(s, step).value.tally == s.tally;
  }

  lemma {:induction false} RunKeepsRepairs(s: State, steps: seq<Step>, t: State)
    requires RepairInv(s) && Runs(s, steps, t) && FullyReported(s, steps)
    ensures RepairInv(t)
    decreases |steps|
  {
    hide Next, RepairInv;
    if steps != [] {
      StepKeepsRepairs(s, steps[0]);
      RunKeepsRepairs(Next(s, steps[0]).value, steps[1..], t);
    }
  }

  /** With full reports there is at most one server repair, so at most two drafts more than user revisions. */
  lemma BoundedDrafts(steps: seq<Step>, t: State)
    requires Runs(INITIAL, steps, t) && FullyReported(INITIAL, steps)
    ensures t.tally.repairs <= 1
    ensures t.tally.builds <= 2 + t.tally.revisions
  {
    hide Next;
    RunKeepsRepairs(INITIAL, steps, t);
    RunKeeps(INITIAL, steps, t);
  }

  /** The answer to a draft that makes the server repair it. */
  predicate Repairs(step: Step) {
    step.Build? && step.draft.Repairable? && RepairAttempt(step.draft.reported) < REPAIR_LIMIT
  }

  /** After the first repair no repairable answer reports fewer attempts than the limit. */
  ghost predicate RepairsReported(s: State, steps: seq<Step>)
    decreases |steps|
  {
    steps != [] ==>
      && (s.tally.repairs >= 1 ==> !Repairs(steps[0]))
      && (Next(s, steps[0]).Some? ==> RepairsReported(Next(s, steps[0]).value, steps[1..]))
  }

  lemma StepRepairs(s: State, step: Step)
    requires Next(s, step).Some?
    ensures Next(s, step).value.tally.repairs == s.tally.repairs + (if Repairs(step) then 1 else 0)
  {
    hide AskStep, DrainStep, SettleStep, Resolved, RepairAttempt;
  }

  lemma {:induction false} RepairsGrow(s: State, steps: seq<Step>, t: State)
    requires Runs(s, steps, t)
    ensures s.tally.repairs <= t.tally.repairs
    decreases |steps|
  {
    hide Next;
    if steps != [] {
      StepRepairs(s, steps[0]);
      RepairsGrow(Next(s, steps[0]).value, steps[1..], t);
    }
  }

  /** There is at most one server repair exactly when every repairable answer after the first one reports the limit. */
  lemma {:induction false} OneRepairExactly(s: State, steps: seq<Step>, t: State)
    requires Runs(s, steps, t) && s.tally.repairs <= 1
    ensures t.tally.repairs <= 1 <==> RepairsReported(s, steps)
    decreases |steps|
  {
    hide Next, Repairs;
    if steps != [] {
      var u := Next(s, steps[0]).value;
      StepRepairs(s, steps[0]);
      if u.tally.repairs <= 1 {
        OneRepairExactly(u, steps[1..], t);
      } else {
        RepairsGrow(u, steps[1..], t);
      }
    }
  }

  // ---------------------------------------------------------------- revisions against installs

  /** `ticket` is queued, or just popped, while registration `grant` has not drained the queue. */
  ghost predicate Contests(s: State, grant: nat, ticket: TicketId) {
    && Grant(s.runner) == Some(grant)
    && ticket in s.tickets && s.tickets[ticket].Pending?
    && (s.runner.Answered? ==> Drains(s.runner.phase))
    && (ticket in s.queue || (s.runner.Answered? && s.runner.phase == Popped(ticket)))
  }

  /** The registration is settled without an install. */
  ghost predicate Denied(s: State, grant: nat) {
    grant !in s.past.installs && (grant in s.past.revised || s.runner.Ended?)
  }

  lemma AskKeepsContest(s: State, grant: nat, ticket: TicketId)
    requires Contests(s, grant, ticket) && s.runner.Asking?
    requires AskStep(s, s.runner.stage, s.runner.approval, s.runner.grant).Some?
    ensures Contests(AskStep(s, s.runner.stage, s.runner.approval, s.runner.grant).value, grant, ticket)
  {
  }

  lemma DrainKeepsContest(s: State, grant: nat, ticket: TicketId)
    requires InstallInv(s) && Contests(s, grant, ticket) && s.runner.Answered?
    ensures var t := DrainStep(s, s.runner.phase, s.runner.grant, s.runner.decision);
            Contests(t, grant, ticket) || Denied(t, grant)
  {
  }

  lemma StepKeepsContest(s: State, step: Step, grant: nat, ticket: TicketId)
    requires InstallInv(s) && Next(s, step).Some? && step != ConsumeElsewhere(ticket)
    requires Contests(s, grant, ticket) || Denied(s, grant)
    ensures Contests(Next(s, step).value, grant, ticket) || Denied(Next(s, step).value, grant)
  {
    hide AskStep, DrainStep, SettleStep;
    StepKeepsInstall(s, step);
    if Denied(s, grant) {
      StepKeepsDenied(s, step, grant);
    } else if step.Advance? {
      if s.runner.Asking? {
        AskKeepsContest(s, grant, ticket);
      } else {
        DrainKeepsContest(s, grant, ticket);
      }
    }
  }

  lemma StepKeepsDenied(s: State, step: Step, grant: nat)
    requires Denied(s, grant) && Next(s, step).Some? && InstallInv(Next(s, step).value)
    ensures Denied(Next(s, step).value, grant)
  {
    if grant in s.past.revised {
      RevisedStays(s, step, grant);
    }
  }

  lemma RevisedStays(s: State, step: Step, grant: nat)
    requires grant in s.past.revised && Next(s, step).Some?
    ensures grant in Next(s, step).value.past.revised
  {
    hide AskStep, DrainStep, SettleStep, Resolved;
  }

  /**
   A live revision that is queued before the pop loop has drained the queue wins over the install,
   even when the user's approval came first.
   */
  lemma {:induction false} QueuedRevisionWins(s: State, steps: seq<Step>, t: State, grant: nat, ticket: TicketId)
    requires Inv(s) && Runs(s, steps, t)
    requires Contests(s, grant, ticket) || Denied(s, grant)
    requires ConsumeElsewhere(ticket) !in steps
    ensures grant !in t.past.installs
    decreases |steps|
  {
    hide Next, ApprovalInv, TallyInv, DecisionInv;
    if steps == [] {
      NotYetInstalled(s, grant);
    } else {
      var u := Next(s, steps[0]).value;
      StepKeepsContest(s, steps[0], grant, ticket);
      RunKeeps(s, steps[..1], u);
      QueuedRevisionWins(u, steps[1..], t, grant, ticket);
    }
  }

  /** The install of the registration can no longer be stopped, or has been made. */
  ghost predicate Committed(s: State, grant: nat) {
    || s.runner == Answered(Deciding, grant, AllowOnce)
    || s.runner == Answered(Installing, grant, AllowOnce)
    || (s.runner.Ended? && grant in s.past.installs)
  }

  lemma StepKeepsCommitted(s: State, step: Step, grant: nat)
    requires Committed(s, grant) && Next(s, step).Some?
    ensures Committed(Next(s, step).value, grant)
  {
    hide AskStep, DrainStep, Resolved;
  }

  /**
   Once the queue of an approved registration has been drained, every run that ends has installed it,
   whatever is submitted, queued, cancelled or consumed meanwhile.
   */
  lemma {:induction false} CommittedInstalls(s: State, steps: seq<Step>, t: State, grant: nat)
    requires Committed(s, grant) && Runs(s, steps, t) && t.runner.Ended?
    ensures grant in t.past.installs
    decreases |steps|
  {
    hide Next;
    if steps != [] {
      StepKeepsCommitted(s, steps[0], grant);
      CommittedInstalls(Next(s, steps[0]).value, steps[1..], t, grant);
    }
  }

  lemma DrainedMeansCommitted(s: State, grant: nat)
    requires InstallInv(s) && Grant(s.runner) == Some(grant) && (s.runner.Answered? ==> s.runner.decision.AllowOnce?)
    ensures grant in s.past.drained <==> Committed(s, grant)
  {
  }

  /**
   While a registration that the user has not refused is being answered, a live ticket that is in the
   queue, or just popped, prevents its install exactly if the pop loop has not drained the queue yet:
   in every run that ends and in which nobody else consumes the ticket.
   */
  lemma RevisionAgainstInstall(s: State, steps: seq<Step>, t: State, grant: nat, ticket: TicketId)
    requires Reachable(s) && Runs(s, steps, t) && t.runner.Ended? && ConsumeElsewhere(ticket) !in steps
    requires Grant(s.runner) == Some(grant) && (s.runner.Answered? ==> s.runner.decision.AllowOnce?)
    requires ticket in s.tickets && s.tickets[ticket].Pending?
    requires ticket in s.queue || (s.runner.Answered? && s.runner.phase == Popped(ticket))
    ensures grant !in t.past.installs <==> grant !in s.past.drained
  {
    hide Next, ApprovalInv, TallyInv;
    ReachableInv(s);
    DrainedMeansCommitted(s, grant);
    if grant in s.past.drained {
      CommittedInstalls(s, steps, t, grant);
    } else {
      NotYetInstalled(s, grant);
      QueuedRevisionWins(s, steps, t, grant, ticket);
    }
  }

  lemma NotYetInstalled(s: State, grant: nat)
    requires InstallInv(s) && (Grant(s.runner) == Some(grant) || Denied(s, grant))
    ensures grant !in s.past.installs
  {
  }

  // ---------------------------------------------------------------- cancellation

  /** The runner has ended, or comes to a cancellation check before it can install. */
  ghost predicate CheckAhead(r: Runner) {
    r.Answered? ==> r.phase.Clearing? || r.phase.Checking?
  }

  /** The drafts a cancelled runner may still build: one that is being built is finished. */
  function DraftsAhead(r: Runner): nat {
    if r.Building? then 1 else 0
  }

  lemma CancelledStep(s: State, step: Step)
    requires s.cancelled && CheckAhead(s.runner) && Next(s, step).Some?
    ensures var t := Next(s, step).value;
            && t.cancelled && CheckAhead(t.runner) && t.past.installs == s.past.installs
            && t.tally.builds + DraftsAhead(t.runner) <= s.tally.builds + DraftsAhead(s.runner)
            && t.tally.revisions == s.tally.revisions
  {
    hide RepairAttempt, Resolved, RunnerStep;
    if step.Advance? {
      CancelledAdvance(s);
    }
  }

  lemma CancelledAdvance(s: State)
    requires s.cancelled && CheckAhead(s.runner) && RunnerStep(s).Some?
    ensures var t := RunnerStep(s).value;
            && t.cancelled && CheckAhead(t.runner) && t.past.installs == s.past.installs
            && t.tally == s.tally && !t.runner.Building?
  {
    hide Resolved, SettleStep;
  }

  /**
   A run that is cancelled before the runner's last cancellation check installs nothing more and asks
   for no revision; and it builds no draft but the one being built.
   */
  lemma {:induction false} CancelledInstallsNothing(s: State, steps: seq<Step>, t: State)
    requires s.cancelled && Runs(s, steps, t)
    requires s.runner.Looping? || s.runner.Projecting? || s.runner.Building? || s.runner.Registering? || s.runner.Asking? || s.runner.Ended?
          || (s.runner.Answered? && (s.runner.phase.Clearing? || s.runner.phase.Checking?))
    ensures t.past.installs == s.past.installs && t.tally.revisions == s.tally.revisions
    ensures t.tally.builds <= s.tally.builds + (if s.runner.Building? then 1 else 0)
    decreases |steps|
  {
    hide Next;
    if steps != [] {
      CancelledStep(s, steps[0]);
      CancelledInstallsNothing(Next(s, steps[0]).value, steps[1..], t);
    }
  }

  /** An approved registration past the check, with nothing queued that could still stop it. */
  ghost predicate Unstopped(s: State, grant: nat) {
    || Committed(s, grant)
    || (&& s.runner.Answered? && s.runner.grant == grant && s.runner.decision.AllowOnce? && s.queue == []
        && (s.runner.phase.Popping? || (s.runner.phase.Popped? && Spent(s, s.runner.phase.ticket))))
  }

  ghost predicate Spent(s: State, ticket: TicketId) {
    ticket in s.tickets && s.tickets[ticket].Consumed?
  }

  lemma StepKeepsUnstopped(s: State, step: Step, grant: nat)
    requires Unstopped(s, grant) && Next(s, step).Some? && !step.Enqueue?
    ensures Unstopped(Next(s, step).value, grant)
  {
    hide AskStep, Resolved;
  }

  lemma {:induction false} UnstoppedInstalls(s: State, steps: seq<Step>, t: State, grant: nat)
    requires Unstopped(s, grant) && Runs(s, steps, t) && t.runner.Ended?
    requires forall step :: step in steps ==> !step.Enqueue?
    ensures grant in t.past.installs
    decreases |steps|
  {
    hide Next;
    if steps != [] {
      StepKeepsUnstopped(s, steps[0], grant);
      UnstoppedInstalls(Next(s, steps[0]).value, steps[1..], t, grant);
    }
  }

  /**
   A cancelled run installs an approved registration, with nothing queued or being popped, exactly if the
   runner has passed its last cancellation check: in every run that ends and queues no ticket.
   */
  lemma CancelAgainstInstall(s: State, steps: seq<Step>, t: State, grant: nat)
    requires Reachable(s) && Runs(s, steps, t) && t.runner.Ended? && forall step :: step in steps ==> !step.Enqueue?
    requires s.cancelled && Grant(s.runner) == Some(grant) && s.queue == []
    requires s.runner.Answered? ==> s.runner.decision.AllowOnce? && !s.runner.phase.Popped? && !s.runner.phase.Revising?
    ensures grant in t.past.installs <==>
              s.runner.Answered? && (s.runner.phase.Popping? || s.runner.phase.Deciding? || s.runner.phase.Installing?)
  {
    hide Next, ApprovalInv, TallyInv;
    ReachableInv(s);
    NotYetInstalled(s, grant);
    if CheckAhead(s.runner) {
      CancelledInstallsNothing(s, steps, t);
    } else {
      UnstoppedInstalls(s, steps, t, grant);
    }
  }

  /** At each of its checks a cancelled runner ends, and stops taking revisions. */
  lemma CheckEndsCancelled(s: State)
    requires s.cancelled
    requires s.runner.Looping? || s.runner.Projecting? || (s.runner.Answered? && s.runner.phase.Checking?)
    ensures Next(s, Advance).Some? && Next(s, Advance).value.runner.Ended? && !Next(s, Advance).value.callbackSet
  {
  }

  /** A cancellation ends the wait: three steps of the runner later the run is over, without an install. */
  lemma CancelEndsWait(s: State) returns (t: State)
    requires Reachable(s) && s.runner.Asking? && s.runner.stage.Waiting?
    ensures Runs(s, [Cancel, Advance, Advance, Advance], t)
    ensures t.runner.Ended? && t.past.installs == s.past.installs
  {
    ReachableInv(s);
    var steps := [Cancel, Advance, Advance, Advance];
    var s1 := CancelStep(s);
    var s2 := WaitStep(s1);
    hide AskStep, Inv, Resolved;
    var s3 := Next(s2, Advance).value;
    t := Next(s3, Advance).value;
    assert Runs(s3, steps[3..], t) by { assert steps[3..][1..] == []; }
    assert Runs(s2, steps[2..], t) by { assert steps[2..][1..] == steps[3..]; }
    assert Runs(s1, steps[1..], t) by { assert steps[1..][1..] == steps[2..]; }
  }

  /** But a run cancelled while its draft is built still asks for an approval, which nobody owes it any more. */
  lemma CancelledRunAsks() returns (t: State)
    ensures Reachable(t) && t.cancelled && t.callbacks == map[] && t.queue == []
    ensures t.runner == Asking(Waiting, "a", 0) && Unresolved(t, "a") && RunnerStep(t).None?
  {
    var steps := [Advance, Advance, Cancel, Build(Ready("c", "a")), Advance, Advance];
    var s1 := Next(INITIAL, steps[0]).value;
    var s2 := Next(s1, steps[1]).value;
    var s3 := Next(s2, steps[2]).value;
    var s4 := Next(s3, steps[3]).value;
    var s5 := Next(s4, steps[4]).value;
    t := Next(s5, steps[5]).value;
    assert Runs(s5, steps[5..], t) by { assert steps[5..][1..] == []; }
    assert Runs(s4, steps[4..], t) by { assert steps[4..][1..] == steps[5..]; }
    assert Runs(s3, steps[3..], t) by { assert steps[3..][1..] == steps[4..]; }
    assert Runs(s2, steps[2..], t) by { assert steps[2..][1..] == steps[3..]; }
    assert Runs(s1, steps[1..], t) by { assert steps[1..][1..] == steps[2..]; }
    assert Runs(INITIAL, steps, t);
  }

  lemma CancelStep(s: State) returns (t: State)
    requires Inv(s) && s.runner.Asking? && s.runner.stage.Waiting?
    ensures Next(s, Cancel) == Some(t) && t.cancelled && t.runner == s.runner && t.past == s.past
    ensures s.runner.approval in t.waiters && t.waiters[s.runner.approval].resolved.Some?
  {
    t := Next(s, Cancel).value;
  }

  lemma WaitStep(s: State) returns (t: State)
    requires s.cancelled && s.runner.Asking? && s.runner.stage.Waiting?
    requires s.runner.approval in s.waiters && s.waiters[s.runner.approval].resolved.Some?
    ensures Next(s, Advance) == Some(t) && t.cancelled && t.past.installs == s.past.installs
    ensures t.runner.Answered? && t.runner.phase == Clearing(s.runner.approval)
  {
    t := Next(s, Advance).value;
  }

  // ---------------------------------------------------------------- approvals and tickets

  /** In the run some call resolved the waiting registration `grant` with allow_once. */
  ghost predicate Granted(s: State, steps: seq<Step>, grant: nat)
    decreases |steps|
  {
    && steps != []
    && Next(s, steps[0]).Some?
    && (|| (steps[0].Resolve? && steps[0].decision.AllowOnce? && steps[0].approval in s.waiters
            && s.waiters[steps[0].approval] == Waiter(grant, None))
        || Granted(Next(s, steps[0]).value, steps[1..], grant))
  }

  ghost predicate AllowedSoFar(s: State, grant: nat) {
    || grant in s.past.allowed
    || exists a :: a in s.waiters && s.waiters[a] == Waiter(grant, Some(AllowOnce))
  }

  lemma AllowedStep(s: State, step: Step, grant: nat)
    requires ActiveInv(s) && Next(s, step).Some? && AllowedSoFar(Next(s, step).value, grant)
    ensures AllowedSoFar(s, grant)
         || (step.Resolve? && step.decision.AllowOnce? && step.approval in s.waiters && s.waiters[step.approval] == Waiter(grant, None))
  {
    hide DenialOwed, RepairAttempt, RunnerStep;
    if step.Advance? {
      AllowedAdvance(s, grant);
    } else {
      var t := Next(s, step).value;
      if grant !in t.past.allowed {
        var a :| a in t.waiters && t.waiters[a] == Waiter(grant, Some(AllowOnce));
        assert a in s.waiters;
      }
    }
  }

  lemma AllowedAdvance(s: State, grant: nat)
    requires ActiveInv(s) && RunnerStep(s).Some? && AllowedSoFar(RunnerStep(s).value, grant)
    ensures AllowedSoFar(s, grant)
  {
    hide DenialOwed, DrainStep, SettleStep, AskStep;
    if s.runner.Asking? {
      AllowedAsk(s, grant);
    } else if s.runner.Answered? {
      AnsweredKeepsWaiters(s);
    } else {
      var t := RunnerStep(s).value;
      if grant !in s.past.allowed {
        var a :| a in t.waiters && t.waiters[a] == Waiter(grant, Some(AllowOnce));
        assert a in s.waiters;
      }
    }
  }

  lemma AllowedAsk(s: State, grant: nat)
    requires ActiveInv(s) && s.runner.Asking?
    requires var r := AskStep(s, s.runner.stage, s.runner.approval, s.runner.grant); r.Some? && AllowedSoFar(r.value, grant)
    ensures AllowedSoFar(s, grant)
  {
    hide DenialOwed;
    var t := AskStep(s, s.runner.stage, s.runner.approval, s.runner.grant).value;
    if grant !in s.past.allowed {
      if grant in t.past.allowed {
        assert s.waiters[s.runner.approval] == Waiter(grant, Some(AllowOnce));
      } else {
        var a :| a in t.waiters && t.waiters[a] == Waiter(grant, Some(AllowOnce));
        assert a in s.waiters;
      }
    }
  }

  lemma {:induction false} AllowedThroughRun(s: State, steps: seq<Step>, t: State, grant: nat)
    requires ApprovalInv(s) && Runs(s, steps, t) && AllowedSoFar(t, grant)
    ensures AllowedSoFar(s, grant) || Granted(s, steps, grant)
    decreases |steps|
  {
    hide Next, ActiveInv, AllowedSoFar;
    if steps != [] {
      var u := Next(s, steps[0]).value;
      StepKeepsActive(s, steps[0]);
      AllowedThroughRun(u, steps[1..], t, grant);
      if AllowedSoFar(u, grant) {
        AllowedStep(s, steps[0], grant);
      }
    }
  }

  /** Nothing is installed unless, while that registration was waited for, a call resolved it with allow_once. */
  lemma InstallNeedsApproval(steps: seq<Step>, t: State)
    requires Runs(INITIAL, steps, t) && t.past.installs != []
    ensures Granted(INITIAL, steps, t.past.installs[0])
  {
    assert Inv(INITIAL);
    RunKeeps(INITIAL, steps, t);
    hide Next, ApprovalInv, TallyInv;
    assert t.past.installs[0] in t.past.installs;
    AllowedThroughRun(INITIAL, steps, t, t.past.installs[0]);
  }

  /** The first resolution stands: a resolved waiter keeps its decision until the wait returns or it is registered anew. */
  lemma FirstResolutionStands(s: State, step: Step, approval: ApprovalId)
    requires approval in s.waiters && s.waiters[approval].resolved.Some? && Next(s, step).Some?
    ensures var t := Next(s, step).value;
            || (approval in t.waiters && t.waiters[approval] == s.waiters[approval])
            || (step.Advance? && s.runner.Asking? && s.runner.approval == approval && t.runner.Answered?
                && t.runner.decision == s.waiters[approval].resolved.value)
            || (step.Advance? && s.runner.Registering? && s.runner.approval == approval)
  {
    hide RepairAttempt, DrainStep, SettleStep;
    if step.Advance? && s.runner.Answered? {
      AnsweredKeepsWaiters(s);
    }
  }

  lemma AnsweredKeepsWaiters(s: State)
    requires s.runner.Answered?
    ensures RunnerStep(s).value.waiters == s.waiters && RunnerStep(s).value.past.allowed == s.past.allowed
  {
    hide DrainStep, SettleStep;
    if Drains(s.runner.phase) {
      DrainKeepsWaiters(s);
    } else {
      SettleKeepsWaiters(s);
    }
  }

  lemma DrainKeepsWaiters(s: State)
    requires s.runner.Answered? && Drains(s.runner.phase)
    ensures var t := DrainStep(s, s.runner.phase, s.runner.grant, s.runner.decision);
            t.waiters == s.waiters && t.past.allowed == s.past.allowed
  {
  }

  lemma SettleKeepsWaiters(s: State)
    requires s.runner.Answered? && !Drains(s.runner.phase)
    ensures var t := SettleStep(s, s.runner.phase, s.runner.grant, s.runner.decision);
            t.waiters == s.waiters && t.past.allowed == s.past.allowed
  {
  }

  /** The queue is first in, first out: a step leaves it, appends a new ticket or takes the head. */
  lemma QueueStep(s: State, step: Step)
    requires Next(s, step).Some?
    ensures var t := Next(s, step).value;
            || t.queue == s.queue
            || (step.Enqueue? && step.ticket !in s.queue && t.queue == s.queue + [step.ticket])
            || (step.Advance? && s.queue != [] && t.runner.Answered? && t.runner.phase == Popped(s.queue[0]) && t.queue == s.queue[1..])
  {
    hide RepairAttempt, Resolved, RunnerStep;
    if step.Advance? {
      QueueAdvance(s);
    }
  }

  lemma QueueAdvance(s: State)
    requires RunnerStep(s).Some?
    ensures var t := RunnerStep(s).value;
            t.queue == s.queue || (s.queue != [] && t.runner.Answered? && t.runner.phase == Popped(s.queue[0]) && t.queue == s.queue[1..])
  {
    hide AskStep, DrainStep, SettleStep;
    match s.runner
    case Asking(_, _, _) => AskKeepsQueue(s);
    case Answered(phase, _, _) =>
      if Drains(phase) { DrainQueue(s); } else { SettleKeepsQueue(s); }
    case _ =>
  }

  lemma AskKeepsQueue(s: State)
    requires s.runner.Asking? && AskStep(s, s.runner.stage, s.runner.approval, s.runner.grant).Some?
    ensures AskStep(s, s.runner.stage, s.runner.approval, s.runner.grant).value.queue == s.queue
  {
    hide Resolved;
  }

  lemma DrainQueue(s: State)
    requires s.runner.Answered? && Drains(s.runner.phase)
    ensures var t := DrainStep(s, s.runner.phase, s.runner.grant, s.runner.decision);
            t.queue == s.queue || (s.queue != [] && t.runner.Answered? && t.runner.phase == Popped(s.queue[0]) && t.queue == s.queue[1..])
  {
  }

  lemma SettleKeepsQueue(s: State)
    requires s.runner.Answered? && !Drains(s.runner.phase)
    ensures SettleStep(s, s.runner.phase, s.runner.grant, s.runner.decision).queue == s.queue
  {
  }

  /** The tickets that have been answered. */
  ghost function AnsweredTickets(s: State): set<TicketId> {
    set ticket | ticket in s.tickets && s.tickets[ticket].Consumed?
  }

  /** Queued tickets were accepted, and a ticket under revision is not answered yet. */
  ghost predicate TicketInv(s: State) {
    && s.callbacks.Keys <= s.tickets.Keys
    && (forall ticket :: ticket in s.queue ==> ticket in s.tickets)
    && (s.runner.Answered? && s.runner.phase.Popped? ==> s.runner.phase.ticket in s.tickets)
    && (s.runner.Answered? && s.runner.phase.Revising? ==> s.runner.phase.ticket in s.tickets && s.tickets[s.runner.phase.ticket].Pending?)
    && s.tally.revisions == |AnsweredTickets(s)|
  }

  lemma RunnerKeepsTickets(s: State)
    requires TicketInv(s) && RunnerStep(s).Some?
    ensures TicketInv(RunnerStep(s).value)
  {
    hide AskStep, DrainStep, SettleStep;
    var t := RunnerStep(s).value;
    if s.runner.Answered? {
      if Drains(s.runner.phase) { DrainKeepsTickets(s); } else { SettleKeepsTickets(s); }
    } else {
      if s.runner.Asking? {
        AskKeepsQueue(s);
        AskNext(s);
      }
      assert AnsweredTickets(t) == AnsweredTickets(s);
    }
  }

  lemma DrainKeepsTickets(s: State)
    requires TicketInv(s) && s.runner.Answered? && Drains(s.runner.phase)
    ensures TicketInv(DrainStep(s, s.runner.phase, s.runner.grant, s.runner.decision))
  {
    assert AnsweredTickets(DrainStep(s, s.runner.phase, s.runner.grant, s.runner.decision)) == AnsweredTickets(s);
  }

  lemma AskNext(s: State)
    requires s.runner.Asking? && AskStep(s, s.runner.stage, s.runner.approval, s.runner.grant).Some?
    ensures var r := AskStep(s, s.runner.stage, s.runner.approval, s.runner.grant).value.runner;
            r.Answered? ==> r.phase.Clearing?
  {
    hide Resolved;
  }

  lemma ReviseKeepsTickets(s: State)
    requires TicketInv(s) && s.runner.Answered? && s.runner.phase.Revising?
    ensures TicketInv(SettleStep(s, s.runner.phase, s.runner.grant, s.runner.decision))
  {
    var t := SettleStep(s, s.runner.phase, s.runner.grant, s.runner.decision);
    var ticket := s.runner.phase.ticket;
    assert AnsweredTickets(t) == AnsweredTickets(s) + {ticket};
    assert t.tickets.Keys == s.tickets.Keys;
  }

  lemma SettleKeepsTickets(s: State)
    requires TicketInv(s) && s.runner.Answered? && !Drains(s.runner.phase)
    ensures TicketInv(SettleStep(s, s.runner.phase, s.runner.grant, s.runner.decision))
  {
    var t := SettleStep(s, s.runner.phase, s.runner.grant, s.runner.decision);
    if s.runner.phase.Revising? {
      ReviseKeepsTickets(s);
    } else {
      assert AnsweredTickets(t) == AnsweredTickets(s);
    }
  }

  lemma StepKeepsTickets(s: State, step: Step)
    requires TicketInv(s) && Next(s, step).Some? && !step.ConsumeElsewhere?
    ensures TicketInv(Next(s, step).value)
  {
    hide RunnerStep, BuildStep, Resolved;
    if step.Advance? {
      RunnerKeepsTickets(s);
    } else if step.Build? {
      BuildKeepsTickets(s, step.draft);
    } else {
      assert AnsweredTickets(Next(s, step).value) == AnsweredTickets(s);
    }
  }

  lemma BuildKeepsTickets(s: State, draft: Draft)
    requires TicketInv(s) && BuildStep(s, draft).Some?
    ensures TicketInv(BuildStep(s, draft).value)
  {
    hide RepairAttempt;
    assert AnsweredTickets(BuildStep(s, draft).value) == AnsweredTickets(s);
  }

  lemma {:induction false} RunKeepsTickets(s: State, steps: seq<Step>, t: State)
    requires TicketInv(s) && Runs(s, steps, t) && forall step :: step in steps ==> !step.ConsumeElsewhere?
    ensures TicketInv(t)
    decreases |steps|
  {
    hide Next, TicketInv;
    if steps != [] {
      StepKeepsTickets(s, steps[0]);
      RunKeepsTickets(Next(s, steps[0]).value, steps[1..], t);
    }
  }

  /**
   Where nobody else answers tickets, the loop makes one revision for each answered ticket; so there are
   no more revisions than accepted tickets, and an answered ticket is never revised again.
   */
  lemma RevisionPerTicket(steps: seq<Step>, t: State)
    requires Runs(INITIAL, steps, t) && forall step :: step in steps ==> !step.ConsumeElsewhere?
    ensures t.tally.revisions == |set ticket | ticket in t.tickets && t.tickets[ticket].Consumed?|
    ensures t.tally.revisions <= |t.tickets|
  {
    hide Next;
    assert AnsweredTickets(INITIAL) == {};
    RunKeepsTickets(INITIAL, steps, t);
    SubsetSmaller(AnsweredTickets(t), t.tickets.Keys);
  }

  lemma {:induction false} SubsetSmaller(a: set<TicketId>, b: set<TicketId>)
    requires a <= b
    ensures |a| <= |b|
  {
    if a != {} {
      var x :| x in a;
      SubsetSmaller(a - {x}, b - {x});
    }
  }

  /** A ticket id is accepted once; it gets a callback thread exactly if the run still takes revisions. */
  lemma SubmitExactly(s: State, ticket: TicketId)
    ensures var t := Next(s, Submit(ticket)).value;
            && Next(s, Submit(ticket)).Some? && t.queue == s.queue
            && (ticket in s.tickets ==> t == s)
            && (ticket !in s.tickets ==>
                  && ticket in t.tickets && t.tickets[ticket].Pending?
                  && (s.callbackSet ==> ticket in t.callbacks && t.callbacks[ticket].Called?)
                  && (!s.callbackSet ==> t.callbacks == s.callbacks))
  {
  }

  lemma ClosedStep(s: State, step: Step, ticket: TicketId)
    requires !s.callbackSet && ticket !in s.callbacks && ticket !in s.queue && Next(s, step).Some?
    ensures var t := Next(s, step).value; !t.callbackSet && ticket !in t.callbacks && ticket !in t.queue
  {
    hide RunnerStep, RepairAttempt, Resolved;
    QueueStep(s, step);
    if step.Advance? {
      ClosedAdvance(s);
    }
  }

  lemma ClosedAdvance(s: State)
    requires !s.callbackSet && RunnerStep(s).Some?
    ensures !RunnerStep(s).value.callbackSet && RunnerStep(s).value.callbacks == s.callbacks
  {
    hide Resolved, SettleStep, DrainStep;
    if s.runner.Answered? {
      ClosedAnswer(s);
    }
  }

  lemma ClosedAnswer(s: State)
    requires !s.callbackSet && s.runner.Answered?
    ensures !RunnerStep(s).value.callbackSet
  {
  }

  /** After the end no revision reaches the queue that was not on its way there. */
  lemma {:induction false} ClosedForRevisions(s: State, steps: seq<Step>, t: State, ticket: TicketId)
    requires !s.callbackSet && ticket !in s.callbacks && ticket !in s.queue && Runs(s, steps, t)
    ensures ticket !in t.queue
    decreases |steps|
  {
    hide Next;
    if steps != [] {
      ClosedStep(s, steps[0], ticket);
      ClosedForRevisions(Next(s, steps[0]).value, steps[1..], t, ticket);
    }
  }

  /** In the run the control plane built this candidate. */
  ghost predicate Built(steps: seq<Step>, candidate: Candidate) {
    exists i :: 0 <= i < |steps| && steps[i].Build? && steps[i].draft.Ready? && steps[i].draft.candidate == candidate
  }

  ghost predicate KnownCandidate(s: State, candidate: Candidate) {
    candidate in s.past.candidates || (s.runner.Registering? && s.runner.candidate == candidate)
  }

  lemma CandidateStep(s: State, step: Step, candidate: Candidate)
    requires Next(s, step).Some? && KnownCandidate(Next(s, step).value, candidate)
    ensures KnownCandidate(s, candidate) || (step.Build? && step.draft.Ready? && step.draft.candidate == candidate)
  {
    hide AskStep, DrainStep, SettleStep, Resolved, RepairAttempt;
    if step.Advance? && (s.runner.Asking? || s.runner.Answered?) {
      CandidatesKept(s);
    }
  }

  lemma CandidatesKept(s: State)
    requires (s.runner.Asking? || s.runner.Answered?) && RunnerStep(s).Some?
    ensures RunnerStep(s).value.past.candidates == s.past.candidates && !RunnerStep(s).value.runner.Registering?
  {
    hide Resolved, SettleStep, DrainStep;
    if s.runner.Answered? {
      hide AskStep;
      AnsweredKeepsCandidates(s);
    }
  }

  lemma AnsweredKeepsCandidates(s: State)
    requires s.runner.Answered?
    ensures RunnerStep(s).value.past.candidates == s.past.candidates && !RunnerStep(s).value.runner.Registering?
  {
    hide SettleStep, DrainStep;
    if Drains(s.runner.phase) {
      DrainKeepsCandidates(s);
    } else {
      SettleKeepsCandidates(s);
    }
  }

  lemma DrainKeepsCandidates(s: State)
    requires s.runner.Answered? && Drains(s.runner.phase)
    ensures DrainStep(s, s.runner.phase, s.runner.grant, s.runner.decision).past.candidates == s.past.candidates
  {
  }

  lemma SettleKeepsCandidates(s: State)
    requires s.runner.Answered? && !Drains(s.runner.phase)
    ensures SettleStep(s, s.runner.phase, s.runner.grant, s.runner.decision).past.candidates == s.past.candidates
  {
  }

  /** Every registered candidate, so the installed one too, is one that the control plane answered as ready. */
  lemma {:induction false} CandidatesWereBuilt(s: State, steps: seq<Step>, t: State, candidate: Candidate)
    requires Runs(s, steps, t) && KnownCandidate(t, candidate)
    ensures KnownCandidate(s, candidate) || Built(steps, candidate)
    decreases |steps|
  {
    hide Next, KnownCandidate;
    if steps != [] {
      var u := Next(s, steps[0]).value;
      CandidatesWereBuilt(u, steps[1..], t, candidate);
      if KnownCandidate(u, candidate) {
        CandidateStep(s, steps[0], candidate);
      } else {
        var i :| 0 <= i < |steps[1..]| && steps[1..][i].Build? && steps[1..][i].draft.Ready? && steps[1..][i].draft.candidate == candidate;
        assert steps[i + 1] == steps[1..][i];
      }
    }
  }

  lemma {:induction false} RunsConcat(s: State, first: seq<Step>, t: State, second: seq<Step>, u: State)
    requires Runs(s, first, t) && Runs(t, second, u)
    ensures Runs(s, first + second, u)
    decreases |first|
  {
    hide Next;
    if first == [] {
      assert first + second == second;
    } else {
      assert (first + second)[1..] == first[1..] + second;
      RunsConcat(Next(s, first[0]).value, first[1..], t, second, u);
    }
  }

  /**
   Later than that it does not win: a revision accepted and queued after the pop loop has drained
   the queue is left behind, unconsumed, while the install goes ahead.
   */
  lemma LateRevisionMissed() returns (t: State)
    ensures Reachable(t) && t.runner.Ended? && t.past.installs == [0]
    ensures t.queue == ["r"] && "r" in t.tickets && t.tickets["r"].Pending?
  {
    hide Next;
    var first := [Advance, Advance, Build(Ready("c", "a")), Advance, Advance, Resolve("a", AllowOnce), Advance];
    var second := [Advance, Advance, Advance, Submit("r")];
    var third := [Enqueue("r"), Advance, Advance];
    var asked := Asked(first);
    var accepted := Accepted(asked, second);
    t := Missed(accepted, third);
    hide *;
    RunsConcat(INITIAL, first, asked, second, accepted);
    RunsConcat(INITIAL, first + second, accepted, third, t);
    ReachedBy(first + second + third, t);
  }

  lemma ReachedBy(steps: seq<Step>, t: State)
    requires Runs(INITIAL, steps, t)
    ensures Reachable(t)
  {
  }

  lemma Accepted(s: State, steps: seq<Step>) returns (t: State)
    requires steps == [Advance, Advance, Advance, Submit("r")]
    requires s.runner == Answered(Clearing("a"), 0, AllowOnce) && s.queue == [] && s.tickets == map[] && s.callbacks == map[]
    requires s.callbackSet && !s.cancelled && s.active == Some("a") && s.past.installs == []
    ensures Runs(s, steps, t)
    ensures t.runner == Answered(Deciding, 0, AllowOnce) && t.queue == [] && t.past.installs == [] && t.active == None
    ensures t.tickets == map["r" := Pending] && t.callbacks == map["r" := Called]
  {
    var s1 := Next(s, steps[0]).value;
    var s2 := Next(s1, steps[1]).value;
    var s3 := Next(s2, steps[2]).value;
    t := Next(s3, steps[3]).value;
    assert Runs(s3, steps[3..], t) by { assert steps[3..][1..] == []; }
    assert Runs(s2, steps[2..], t) by { assert steps[2..][1..] == steps[3..]; }
    assert Runs(s1, steps[1..], t) by { assert steps[1..][1..] == steps[2..]; }
  }

  lemma Missed(s: State, steps: seq<Step>) returns (t: State)
    requires steps == [Enqueue("r"), Advance, Advance]
    requires s.runner == Answered(Deciding, 0, AllowOnce) && s.queue == [] && s.past.installs == [] && s.active == None
    requires s.tickets == map["r" := Pending] && s.callbacks == map["r" := Called]
    ensures Runs(s, steps, t)
    ensures t.runner.Ended? && t.past.installs == [0] && t.queue == ["r"] && t.tickets == s.tickets
  {
    var s1 := Next(s, steps[0]).value;
    var s2 := Next(s1, steps[1]).value;
    t := Next(s2, steps[2]).value;
    assert Runs(s2, steps[2..], t) by { assert steps[2..][1..] == []; }
    assert Runs(s1, steps[1..], t) by { assert steps[1..][1..] == steps[2..]; }
  }

  /** The bound needs the full reports: when activations are withheld, the server repairs again. */
  lemma WithheldReportsRepairAgain() returns (t: State)
    ensures Reachable(t) && t.tally.repairs == 2
  {
    var steps := [Advance, Advance, Build(Repairable([])), Advance, Advance, Build(Repairable([]))];
    var s1 := Next(INITIAL, steps[0]).value;
    var s2 := Next(s1, steps[1]).value;
    var s3 := Next(s2, steps[2]).value;
    var s4 := Next(s3, steps[3]).value;
    var s5 := Next(s4, steps[4]).value;
    t := Next(s5, steps[5]).value;
    assert Runs(s5, steps[5..], t) by { assert steps[5..][1..] == []; }
    assert Runs(s4, steps[4..], t) by { assert steps[4..][1..] == steps[5..]; }
    assert Runs(s3, steps[3..], t) by { assert steps[3..][1..] == steps[4..]; }
    assert Runs(s2, steps[2..], t) by { assert steps[2..][1..] == steps[3..]; }
    assert Runs(s1, steps[1..], t) by { assert steps[1..][1..] == steps[2..]; }
    assert Runs(INITIAL, steps, t);
  }

  /** A run up to the point where the user's approval has been received. */
  lemma Asked(begin: seq<Step>) returns (t: State)
    requires begin == [Advance, Advance, Build(Ready("c", "a")), Advance, Advance, Resolve("a", AllowOnce), Advance]
    ensures Runs(INITIAL, begin, t)
    ensures t.runner == Answered(Clearing("a"), 0, AllowOnce) && t.queue == [] && t.tickets == map[] && t.callbacks == map[]
    ensures t.callbackSet && !t.cancelled && t.active == Some("a") && t.past.installs == []
  {
    var s1 := Next(INITIAL, begin[0]).value;
    var s2 := Next(s1, begin[1]).value;
    var s3 := Next(s2, begin[2]).value;
    var s4 := Next(s3, begin[3]).value;
    var s5 := Next(s4, begin[4]).value;
    var s6 := Next(s5, begin[5]).value;
    t := Next(s6, begin[6]).value;
    assert Runs(s6, begin[6..], t) by { assert begin[6..][1..] == []; }
    assert Runs(s5, begin[5..], t) by { assert begin[5..][1..] == begin[6..]; }
    assert Runs(s4, begin[4..], t) by { assert begin[4..][1..] == begin[5..]; }
    assert Runs(s3, begin[3..], t) by { assert begin[3..][1..] == begin[4..]; }
    assert Runs(s2, begin[2..], t) by { assert begin[2..][1..] == begin[3..]; }
    assert Runs(s1, begin[1..], t) by { assert begin[1..][1..] == begin[2..]; }
  }
}
