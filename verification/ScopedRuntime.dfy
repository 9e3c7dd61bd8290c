/**
 The reducer of branch runtime events: each event is resolved to one scope of the session run, and
 changes that scope or nothing.
 */
module ScopedRuntime {
  import opened Common
  import opened Json
  import opened Text

  datatype Scope = Scope(
    scopeId: string, sessionRunId: string, branchBindingId: string, agentRunId: string, revision: int, status: string,
    pendingNextTurns: seq<Dict>, pendingApprovals: seq<Dict>, pendingUserInputs: seq<Dict>,
    operations: map<string, Dict>, activeActivationId: string, streamCursor: Option<int>)

  type Scopes = map<string, Scope>

  datatype Model = Model(selectedScopeId: string, scopes: Scopes)

  /** An absent pending turn is the empty one; an absent agent run id is empty text. */
  datatype Event = Event(
    kind: string, sessionRunId: string, branchBindingId: string, agentRunId: string, scopeId: string, status: string,
    pendingNextTurn: Dict, operationId: string)

  function ScopeIdFor(sessionRunId: string, branchBindingId: string): string {
    Strip(sessionRunId) + ":" + Strip(branchBindingId)
  }

  function TargetOf(e: Event): string {
    if Strip(e.scopeId) != "" then Strip(e.scopeId) else ScopeIdFor(e.sessionRunId, e.branchBindingId)
  }

  /** The event names a session run and a branch, and speaks for the scope's agent run. */
  predicate Admitted(s: Scope, e: Event) {
    && Strip(e.sessionRunId) != "" && Strip(e.branchBindingId) != ""
    && Strip(e.agentRunId) != "" && e.agentRunId == s.agentRunId
  }

  /** `_resolve_scope`. */
  function ResolveScope(m: Model, e: Event): Option<Scope> {
    if TargetOf(e) in m.scopes && Admitted(m.scopes[TargetOf(e)], e) then Some(m.scopes[TargetOf(e)]) else None
  }

  /** The scope after an event of a kind that changes it. */
  function Changed(s: Scope, e: Event): Option<Scope> {
    if e.kind == "terminal" then
      Some(s.(status := if Strip(e.status) != "" then Strip(e.status) else s.status, revision := s.revision + 1))
    else if e.kind == "pending_next_turn" then
      if e.pendingNextTurn == map[] then None
      else Some(s.(revision := s.revision + 1, pendingNextTurns := s.pendingNextTurns + [e.pendingNextTurn]))
    else if e.kind in {"operation_failure", "operation_success"} then
      if Strip(e.operationId) == "" || Strip(e.operationId) !in s.operations then None
      else Some(s.(revision := s.revision + 1, operations := s.operations - {Strip(e.operationId)}))
    else None
  }

  /** `_replace_scope`: the scope is stored under its own id. */
  function ReplaceScope(m: Model, s: Scope): Model {
    m.(scopes := m.scopes[s.scopeId := s])
  }

  /** `reduce_branch_runtime_event`. */
  function Reduce(m: Model, e: Event): Model {
    match ResolveScope(m, e)
    case None => m
    case Some(s) =>
      match Changed(s, e)
      case None => m
      case Some(t) => ReplaceScope(m, t)
  }

  function ReduceAll(m: Model, es: seq<Event>): Model {
    if es == [] then m else Reduce(ReduceAll(m, es[..|es| - 1]), es[|es| - 1])
  }

  // ---------------------------------------------------------------- one scope on its own

  predicate Accepts(s: Scope, e: Event) {
    Admitted(s, e) && Changed(s, e).Some?
  }

  function ReduceScope(s: Scope, e: Event): Scope {
    if Accepts(s, e) then Changed(s, e).value else s
  }

  function ReduceScopeAll(s: Scope, es: seq<Event>): Scope {
    if es == [] then s else ReduceScope(ReduceScopeAll(s, es[..|es| - 1]), es[|es| - 1])
  }

  /** The events of a run that resolve to a scope. */
  function EventsFor(es: seq<Event>, scopeId: string): seq<Event> {
    if es == [] then []
    else EventsFor(es[..|es| - 1], scopeId) + (if TargetOf(es[|es| - 1]) == scopeId then [es[|es| - 1]] else [])
  }

  function AcceptedCount(s: Scope, es: seq<Event>): nat {
    if es == [] then 0
    else AcceptedCount(s, es[..|es| - 1]) + (if Accepts(ReduceScopeAll(s, es[..|es| - 1]), es[|es| - 1]) then 1 else 0)
  }

  /** Every scope is stored under its own id. */
  ghost predicate Keyed(m: Model) {
    forall k :: k in m.scopes ==> m.scopes[k].scopeId == k
  }

  /** In a keyed model a step changes the scope the event resolves to, as that scope would change alone. */
  lemma ReduceKeyed(m: Model, e: Event)
    requires Keyed(m)
    ensures var n := Reduce(m, e);
            && Keyed(n) && n.selectedScopeId == m.selectedScopeId && n.scopes.Keys == m.scopes.Keys
            && forall k :: k in m.scopes ==> n.scopes[k] == if k == TargetOf(e) then ReduceScope(m.scopes[k], e) else m.scopes[k]
  {
    hide TargetOf, Admitted, Strip;
  }

  /**
   What an event does to the scope `key`: nothing unless the event names the scope, by its id or else by
   session run and branch, and speaks for its agent run; then a terminal event sets the status, a pending
   turn is appended, and a settled operation is removed, each counting one revision.
   */
  lemma EventEffect(m: Model, e: Event, key: string)
    requires Keyed(m) && key in m.scopes
    ensures var s, t := m.scopes[key], Reduce(m, e).scopes[key];
            var named := key == if Strip(e.scopeId) != "" then Strip(e.scopeId) else Strip(e.sessionRunId) + ":" + Strip(e.branchBindingId);
            var heard := named && Strip(e.sessionRunId) != "" && Strip(e.branchBindingId) != ""
                      && Strip(e.agentRunId) != "" && e.agentRunId == s.agentRunId;
            var turn := heard && e.kind == "pending_next_turn" && e.pendingNextTurn != map[];
            var settled := heard && (e.kind == "operation_failure" || e.kind == "operation_success")
                        && Strip(e.operationId) != "" && Strip(e.operationId) in s.operations;
            var ended := heard && e.kind == "terminal";
            && t.status == (if ended && Strip(e.status) != "" then Strip(e.status) else s.status)
            && t.pendingNextTurns == (if turn then s.pendingNextTurns + [e.pendingNextTurn] else s.pendingNextTurns)
            && t.operations == (if settled then s.operations - {Strip(e.operationId)} else s.operations)
            && t.revision == (if ended || turn || settled then s.revision + 1 else s.revision)
            && t.scopeId == s.scopeId && t.sessionRunId == s.sessionRunId && t.branchBindingId == s.branchBindingId && t.agentRunId == s.agentRunId
            && t.pendingApprovals == s.pendingApprovals && t.pendingUserInputs == s.pendingUserInputs
            && t.activeActivationId == s.activeActivationId && t.streamCursor == s.streamCursor
  {
    ReduceKeyed(m, e);
    hide Strip, Reduce;
  }

  lemma ReduceScopeAppend(s: Scope, es: seq<Event>, e: Event)
    ensures ReduceScopeAll(s, es + [e]) == ReduceScope(ReduceScopeAll(s, es), e)
  {
    assert (es + [e])[..|es|] == es;
  }

  /** Isolation: a run leaves every scope as if only the events resolving to it had run, on it alone. */
  lemma {:induction false} ScopesIsolated(m: Model, es: seq<Event>)
    requires Keyed(m)
    ensures var n := ReduceAll(m, es);
            && Keyed(n) && n.selectedScopeId == m.selectedScopeId && n.scopes.Keys == m.scopes.Keys
            && forall k :: k in m.scopes ==> n.scopes[k] == ReduceScopeAll(m.scopes[k], EventsFor(es, k))
  {
    hide TargetOf, Reduce, ReduceScope, Keyed;
    if es != [] {
      var init, e := es[..|es| - 1], es[|es| - 1];
      ScopesIsolated(m, init);
      ReduceKeyed(ReduceAll(m, init), e);
      forall k | k in m.scopes ensures ReduceAll(m, es).scopes[k] == ReduceScopeAll(m.scopes[k], EventsFor(es, k)) {
        var seen := EventsFor(init, k);
        ReduceScopeAppend(m.scopes[k], seen, e);
        assert seen + [] == seen;
      }
    }
  }

  /** Events that resolve to different scopes may be reduced in either order. */
  lemma EventsCommute(m: Model, e: Event, f: Event)
    requires Keyed(m) && TargetOf(e) != TargetOf(f)
    ensures Reduce(Reduce(m, e), f) == Reduce(Reduce(m, f), e)
  {
    hide TargetOf, Reduce, ReduceScope, Keyed;
    ReduceKeyed(m, e);
    ReduceKeyed(m, f);
    ReduceKeyed(Reduce(m, e), f);
    ReduceKeyed(Reduce(m, f), e);
    var x, y := Reduce(Reduce(m, e), f), Reduce(Reduce(m, f), e);
    assert x.scopes == y.scopes by {
      assert x.scopes.Keys == y.scopes.Keys;
    }
  }

  /** What no event touches: whose scope it is, and what waits for approval or input. */
  predicate SameFrame(s: Scope, t: Scope) {
    && s.scopeId == t.scopeId && s.sessionRunId == t.sessionRunId && s.branchBindingId == t.branchBindingId
    && s.agentRunId == t.agentRunId && s.pendingApprovals == t.pendingApprovals
    && s.pendingUserInputs == t.pendingUserInputs && s.activeActivationId == t.activeActivationId
    && s.streamCursor == t.streamCursor
  }

  /**
   Over any run a scope's revision has grown by exactly the number of accepted events, its pending
   turns are only extended, its operations only removed, and its frame is untouched.
   */
  lemma {:induction false} RevisionsCount(s: Scope, es: seq<Event>)
    ensures var t := ReduceScopeAll(s, es);
            && t.revision == s.revision + AcceptedCount(s, es)
            && s.pendingNextTurns <= t.pendingNextTurns
            && (forall o :: o in t.operations ==> o in s.operations && t.operations[o] == s.operations[o])
            && SameFrame(s, t)
  {
    hide Admitted, Strip;
    if es != [] {
      RevisionsCount(s, es[..|es| - 1]);
    }
  }

  /** The same, read off the whole model. */
  lemma ModelRevisions(m: Model, es: seq<Event>, k: string)
    requires Keyed(m) && k in m.scopes
    ensures k in ReduceAll(m, es).scopes
    ensures var t := ReduceAll(m, es).scopes[k];
            && t.revision == m.scopes[k].revision + AcceptedCount(m.scopes[k], EventsFor(es, k))
            && m.scopes[k].pendingNextTurns <= t.pendingNextTurns
            && SameFrame(m.scopes[k], t)
  {
    hide ReduceAll, EventsFor, AcceptedCount, SameFrame;
    ScopesIsolated(m, es);
    RevisionsCount(m.scopes[k], EventsFor(es, k));
  }

  // ---------------------------------------------------------------- what a run adds up to

  /** The events of a kind that speak for the scope's agent run. */
  predicate Ends(s: Scope, e: Event) {
    Admitted(s, e) && e.kind == "terminal"
  }

  predicate AddsTurn(s: Scope, e: Event) {
    Admitted(s, e) && e.kind == "pending_next_turn" && e.pendingNextTurn != map[]
  }

  predicate Settles(s: Scope, e: Event) {
    Admitted(s, e) && e.kind in {"operation_failure", "operation_success"} && Strip(e.operationId) != ""
  }

  function Terminals(s: Scope, es: seq<Event>): nat {
    if es == [] then 0 else Terminals(s, es[..|es| - 1]) + (if Ends(s, es[|es| - 1]) then 1 else 0)
  }

  function Turns(s: Scope, es: seq<Event>): seq<Dict> {
    if es == [] then []
    else Turns(s, es[..|es| - 1]) + (if AddsTurn(s, es[|es| - 1]) then [es[|es| - 1].pendingNextTurn] else [])
  }

  /** The last status given by a terminal event, or the scope's own. */
  function LastStatus(s: Scope, es: seq<Event>): string {
    if es == [] then s.status
    else if Ends(s, es[|es| - 1]) && Strip(es[|es| - 1].status) != "" then Strip(es[|es| - 1].status)
    else LastStatus(s, es[..|es| - 1])
  }

  function Settled(s: Scope, es: seq<Event>): set<string> {
    if es == [] then {}
    else Settled(s, es[..|es| - 1]) + (if Settles(s, es[|es| - 1]) then {Strip(es[|es| - 1].operationId)} else {})
  }

  /** How many operations are open. */
  function Open(operations: map<string, Dict>): nat {
    |operations|
  }

  lemma RemovedCount(m: map<string, Dict>, k: string)
    ensures Open(m - {k}) == Open(m) - (if k in m then 1 else 0)
  {
    assert (m - {k}).Keys == m.Keys - {k};
    assert |m - {k}| == |(m - {k}).Keys| && |m| == |m.Keys|;
  }

  lemma SettleAddsUp(u: Scope, e: Event)
    requires Settles(u, e)
    ensures var t := ReduceScope(u, e);
            t.operations == u.operations - {Strip(e.operationId)}
            && t == u.(operations := t.operations, revision := u.revision + Open(u.operations) - Open(t.operations))
  {
    hide Strip, Admitted, Open;
    var id := Strip(e.operationId);
    RemovedCount(u.operations, id);
    if id !in u.operations {
      assert u.operations - {id} == u.operations;
    }
  }

  lemma OtherAddsUp(u: Scope, e: Event)
    requires !Settles(u, e)
    ensures ReduceScope(u, e) ==
              if Ends(u, e) then u.(status := if Strip(e.status) != "" then Strip(e.status) else u.status, revision := u.revision + 1)
              else if AddsTurn(u, e) then u.(revision := u.revision + 1, pendingNextTurns := u.pendingNextTurns + [e.pendingNextTurn])
              else u
  {
    hide Strip, Admitted;
  }

  lemma SameAgent(s: Scope, u: Scope, e: Event)
    requires u.agentRunId == s.agentRunId
    ensures Ends(u, e) == Ends(s, e) && AddsTurn(u, e) == AddsTurn(s, e) && Settles(u, e) == Settles(s, e)
    ensures !(Ends(s, e) && AddsTurn(s, e)) && !(Ends(s, e) && Settles(s, e)) && !(AddsTurn(s, e) && Settles(s, e))
  {
    hide Strip;
  }

  /**
   The order of a run matters only within its turns and its statuses: the operations left are those
   never settled, and the revision counts the terminal events, the turns and the operations that went.
   */
  lemma {:induction false} RunAddsUp(s: Scope, es: seq<Event>)
    ensures var t := ReduceScopeAll(s, es);
            && t.status == LastStatus(s, es)
            && t.pendingNextTurns == s.pendingNextTurns + Turns(s, es)
            && t.operations == s.operations - Settled(s, es)
            && t.revision == s.revision + Terminals(s, es) + |Turns(s, es)| + Open(s.operations) - Open(t.operations)
            && t.agentRunId == s.agentRunId
  {
    hide Strip, ReduceScope, Ends, AddsTurn, Settles, Open;
    if es != [] {
      var init, e := es[..|es| - 1], es[|es| - 1];
      RunAddsUp(s, init);
      var u := ReduceScopeAll(s, init);
      SameAgent(s, u, e);
      if Settles(s, e) {
        SettleAddsUp(u, e);
        assert s.operations - Settled(s, init) - {Strip(e.operationId)} == s.operations - (Settled(s, init) + {Strip(e.operationId)});
      } else {
        OtherAddsUp(u, e);
      }
    }
  }

  /** An accepted event reaches the scope it resolves to exactly when that scope is stored under its own id. */
  lemma MiskeyedMissed(m: Model, e: Event)
    requires ResolveScope(m, e).Some? && Accepts(ResolveScope(m, e).value, e)
    ensures var k := TargetOf(e);
            Reduce(m, e).scopes[k] != m.scopes[k] <==> m.scopes[k].scopeId == k
  {
    hide TargetOf, Admitted, Strip;
  }

  // ---------------------------------------------------------------- scope ids

  lemma {:induction false} FirstColon(a: string, x: string, b: string, y: string)
    requires ':' !in a && ':' !in b && a + ":" + x == b + ":" + y
    ensures a == b && x == y
    decreases |a|
  {
    var s, t := a + ":" + x, b + ":" + y;
    assert s[0] == t[0];
    if a == "" || b == "" {
      assert a == "" && b == "";
      assert s[1..] == x && t[1..] == y;
    } else {
      assert s[1..] == a[1..] + ":" + x && t[1..] == b[1..] + ":" + y;
      FirstColon(a[1..], x, b[1..], y);
      assert a == [a[0]] + a[1..] && b == [b[0]] + b[1..];
    }
  }

  /** Session runs and branches have scopes of their own as long as session run ids hold no colon. */
  lemma ScopeIdsDistinct(run: string, binding: string, otherRun: string, otherBinding: string)
    requires ':' !in Strip(run) && ':' !in Strip(otherRun)
    ensures ScopeIdFor(run, binding) == ScopeIdFor(otherRun, otherBinding)
            <==> Strip(run) == Strip(otherRun) && Strip(binding) == Strip(otherBinding)
  {
    hide Strip;
    if ScopeIdFor(run, binding) == ScopeIdFor(otherRun, otherBinding) {
      FirstColon(Strip(run), Strip(binding), Strip(otherRun), Strip(otherBinding));
    }
  }

  /** One session run id goes on, after a colon, with text that the other's branch id begins with. */
  ghost predicate Shifted(run: string, binding: string, otherRun: string, otherBinding: string) {
    exists m :: otherRun == run + ":" + m && binding == m + ":" + otherBinding
  }

  lemma ShiftedSame(run: string, m: string, otherBinding: string)
    ensures run + ":" + (m + ":" + otherBinding) == (run + ":" + m) + ":" + otherBinding
  {
  }

  lemma SameTextShifted(run: string, binding: string, otherRun: string, otherBinding: string)
    requires run + ":" + binding == otherRun + ":" + otherBinding && |run| < |otherRun|
    ensures Shifted(run, binding, otherRun, otherBinding)
  {
    var s := run + ":" + binding;
    var n := |run| + 1;
    assert otherRun == s[..|otherRun|] && run == s[..|run|] && s[|run|] == ':';
    var m := otherRun[n..];
    assert otherRun == run + ":" + m;
    assert binding == s[n..];
    assert s == run + ":" + m + ":" + otherBinding;
    assert binding == m + ":" + otherBinding;
  }

  /** Two pairs of ids share a scope exactly when they are the same pair or one is the other shifted over a colon. */
  lemma ScopeIdsShared(run: string, binding: string, otherRun: string, otherBinding: string)
    ensures var a, b, c, d := Strip(run), Strip(binding), Strip(otherRun), Strip(otherBinding);
            ScopeIdFor(run, binding) == ScopeIdFor(otherRun, otherBinding) <==> (a == c && b == d) || Shifted(a, b, c, d) || Shifted(c, d, a, b)
  {
    hide Strip;
    var a, b, c, d := Strip(run), Strip(binding), Strip(otherRun), Strip(otherBinding);
    if a + ":" + b == c + ":" + d {
      if |a| < |c| {
        SameTextShifted(a, b, c, d);
      } else if |c| < |a| {
        SameTextShifted(c, d, a, b);
      } else {
        var s := a + ":" + b;
        assert a == s[..|a|] && c == s[..|c|] && b == s[|a| + 1..] && d == s[|c| + 1..];
      }
    }
    if Shifted(a, b, c, d) {
      var m :| c == a + ":" + m && b == m + ":" + d;
      ShiftedSame(a, m, d);
    }
    if Shifted(c, d, a, b) {
      var m :| a == c + ":" + m && d == m + ":" + b;
      ShiftedSame(c, m, b);
    }
  }

  /** With a colon they may share one. */
  lemma ScopeIdsCollide()
    ensures ScopeIdFor("a:b", "c") == ScopeIdFor("a", "b:c")
  {
    StripFixpoint("a:b");
    StripFixpoint("c");
    StripFixpoint("a");
    StripFixpoint("b:c");
    hide Strip;
    assert "a:b" + ":" + "c" == "a" + ":" + "b:c";
  }
}
