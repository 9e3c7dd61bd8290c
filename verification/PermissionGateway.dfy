/**
 The permission pipeline for one tool or task action: hard policies, agent boundary, mode whitelist,
 capability enforcement, lifecycle hooks, execution policy, approval rules and runtime profile, in
 this order, with warnings collected on the way.
 */
module PermissionGateway {
  import opened Common
  import opened Json
  import opened Text
  import Approval = ApprovalEngine

  datatype Action = Allow | Warn | RequireApproval | BlockedReview | Deny

  datatype Subject = Subject(agentId: string, triggerSource: string, interactive: bool, runtimeProfileId: string)

  datatype Target = Target(
    kind: string, name: string, toolSource: string, registryPath: string, componentId: string,
    mcpServer: Option<string>, mcpTool: Option<string>)

  datatype AgentConfig = AgentConfig(
    visibility: string, systemFlows: seq<string>, canRunTaskflow: bool, canCallEphemeral: bool, canCallPersistent: bool)

  datatype Request = Request(
    subject: Subject, target: Target, toolCall: Option<Dict>, effective: Dict, approval: Option<Approval.Config>,
    runtimeProfile: Dict, agent: Option<AgentConfig>, enforce: bool, metadata: Dict, outputs: seq<Json>)

  datatype Decision = Decision(
    action: Action, authorized: bool, warning: string, capability: string, policy: string, approvalAction: string,
    rule: Option<Approval.Rule>)

  /** `PermissionDecision.allowed`. */
  predicate Allowed(d: Decision) {
    d.action in {Allow, Warn, RequireApproval}
  }

  /** What a hard policy says of a call. */
  datatype Verdict = Verdict(allowed: bool, warning: string, requiresApproval: bool)

  type Policy = Dict -> Option<Verdict>

  /** The hard policies, and the element that iterating over a set of strings meets first. */
  datatype Gateway = Gateway(policies: seq<Policy>, first: set<string> -> string)

  function Plain(action: Action, authorized: bool, capability: string, policy: string): Decision {
    Decision(action, authorized, "", capability, policy, "", None)
  }

  /** `_approval_or_background_block`. */
  function ApprovalOrBlock(r: Request, capability: string, policy: string): Decision {
    if r.subject.interactive then Plain(RequireApproval, true, capability, policy)
    else Plain(BlockedReview, false, capability, policy)
  }

  function Join(items: seq<string>): string {
    if items == [] then "" else if |items| == 1 then items[0] else items[0] + "; " + Join(items[1..])
  }

  // ---------------------------------------------------------------- hard policies

  function HardStage(policies: seq<Policy>, r: Request): Option<Decision> {
    if r.toolCall.None? || policies == [] then None
    else
      match policies[0](r.toolCall.value)
      case None => HardStage(policies[1..], r)
      case Some(v) =>
        if !v.allowed then Some(Plain(Deny, false, "", "system_hard_deny"))
        else if v.requiresApproval then Some(ApprovalOrBlock(r, "", "system_hard_policy"))
        else if v.warning != "" then Some(Plain(Warn, true, "", "system_hard_policy").(warning := v.warning))
        else HardStage(policies[1..], r)
  }

  // ---------------------------------------------------------------- agent and mode

  function SourceFlow(source: string): string {
    var value := Strip(source);
    if value == "capability-ingest" then "capability_ingest"
    else if value == "" then "manual" else value
  }

  /** `_evaluate_agent_config`. */
  function AgentStage(r: Request): Decision {
    match r.agent
    case None => Plain(Allow, true, "", "")
    case Some(a) =>
      var source := SourceFlow(r.subject.triggerSource);
      if a.visibility != "user" then
        if source !in a.systemFlows then Plain(Deny, false, "", "agent.system_flow_only") else Plain(Allow, true, "", "")
      else if source == "taskflow" && !a.canRunTaskflow then Plain(Deny, false, "", "agent.taskflow_eligible")
      else if source == "agent_call_ephemeral" && !a.canCallEphemeral then Plain(Deny, false, "", "agent.callable_scopes.ephemeral")
      else if source == "agent_call_persistent" && !a.canCallPersistent then Plain(Deny, false, "", "agent.callable_scopes.persistent")
      else Plain(Allow, true, "", "")
  }

  /** `_string_set`. */
  function StringSet(v: Json): set<string> {
    (set x | x in Items(v) :: Strip(PyStr(x))) - {""}
  }

  /** `_evaluate_mode_policy`. */
  function ModeStage(r: Request): Option<Decision> {
    var tools := StringSet(Get(r.metadata, "mode_tools"));
    if TrimmedText(Get(r.metadata, "active_mode")) == "" || tools == {} || "*" in tools || r.target.name in tools then None
    else Some(Plain(Deny, false, "", "mode.tool_whitelist"))
  }

  // ---------------------------------------------------------------- lifecycle hooks

  function HookDecision(output: Dict): string {
    Lower(Strip(PyStr(Or(Get(output, "decision"), Str("none")))))
  }

  predicate ContinuesFlow(output: Dict) {
    match Get(output, "continue_flow")
    case Bool(b) => b
    case Null => true
    case Str(s) => Lower(Strip(s)) !in {"false", "0", "no", "off"}
    case v => Truthy(v)
  }

  predicate IsTerminal(output: Dict) {
    HookDecision(output) in {"deny", "defer"} || !ContinuesFlow(output)
  }

  function HookStage(outputs: seq<Json>, r: Request, capability: string): Option<Decision> {
    if outputs == [] then None
    else if !outputs[0].Obj? then HookStage(outputs[1..], r, capability)
    else
      var output := outputs[0].fields;
      if IsTerminal(output) then
        Some(Plain(Deny, false, capability, "lifecycle_hook:" + (if HookDecision(output) == "defer" then "defer" else "deny")))
      else if HookDecision(output) == "ask" then Some(ApprovalOrBlock(r, capability, "lifecycle_hook:ask"))
      else HookStage(outputs[1..], r, capability)
  }

  // ---------------------------------------------------------------- capabilities

  predicate IsMcp(t: Target) {
    t.toolSource == "mcp" || t.kind in {"mcp", "mcp_tool"}
  }

  function TextOf(o: Option<string>): string {
    if o.Some? then Strip(o.value) else ""
  }

  function McpCandidates(t: Target): set<string> {
    var server := TextOf(t.mcpServer);
    var tool := Strip(if t.mcpTool.Some? && t.mcpTool.value != "" then t.mcpTool.value else t.name);
    {Strip(t.registryPath), Strip(t.componentId)}
    + (if server == "" then {} else {"mcp:" + server})
    + (if server == "" || tool == "" then {} else {"mcp:" + server + ":" + tool})
    - {""}
  }

  /** `_target_candidates`. */
  function Candidates(t: Target): set<string> {
    if IsMcp(t) then McpCandidates(t)
    else
      var name, kind := Strip(t.name), Strip(t.kind);
      {name, Strip(t.registryPath), Strip(t.componentId)}
      + (if name != "" && (t.toolSource in {"builtin", "builtin_tool"} || kind in {"builtin", "builtin_tool", "tool"})
         then {"builtin:" + name, "builtin_tool:" + name} else {})
      + (if name != "" && (kind == "environment_requirement" || t.toolSource == "environment_requirement")
         then {"envreq:executable:" + name} else {})
      + (if name != "" && kind == "skill" then {"skill:" + name} else {})
      - {""}
  }

  predicate IsBuiltin(t: Target) {
    t.toolSource in {"builtin", "builtin_tool"} || t.kind in {"builtin", "builtin_tool", "tool"}
  }

  function Metadata(spec: Dict): Dict {
    AsDict(Get(spec, "metadata"))
  }

  function ToolId(spec: Dict): string {
    TrimmedText(Get(spec, "tool_id"))
  }

  function SpecName(spec: Dict): string {
    TrimmedText(Get(spec, "name"))
  }

  function TargetRef(spec: Dict): string {
    var own := TrimmedText(Get(spec, "target_tool_ref"));
    if own != "" then own else TrimmedText(Get(Metadata(spec), "target_tool_ref"))
  }

  function SourceType(spec: Dict): string {
    TrimmedText(Or(Get(spec, "source_type"), Get(Metadata(spec), "source_type")))
  }

  /** Metadata without a component id reads as the text None. */
  function SpecComponent(spec: Dict): string {
    if Get(spec, "metadata").Obj? then Strip(PyStr(Get(Metadata(spec), "component_id"))) else ""
  }

  function McpSpecNames(spec: Dict): set<string> {
    var server := TrimmedText(Or(Get(Metadata(spec), "server_name"), Get(Metadata(spec), "mcp_server")));
    {ToolId(spec), TargetRef(spec)} + (if server != "" && SpecName(spec) != "" then {"mcp:" + server + ":" + SpecName(spec)} else {})
  }

  /** The tool spec is one for the target. */
  predicate SpecNames(spec: Dict, t: Target) {
    var names := {ToolId(spec), TargetRef(spec), SpecName(spec)};
    if IsBuiltin(t) then
      && SourceType(spec) == "builtin_tool" && SpecComponent(spec) != "" && SpecComponent(spec) == Strip(t.componentId)
      && Candidates(t) * names != {}
    else if IsMcp(t) || SourceType(spec) in {"mcp_tool", "local_mcp", "remote_mcp"} then Candidates(t) * (McpSpecNames(spec) - {""}) != {}
    else Candidates(t) * names != {}
  }

  /** `_tool_spec_match`. */
  function SpecMatch(specs: seq<Json>, t: Target): string {
    if specs == [] then ""
    else if specs[0].Obj? && SpecNames(specs[0].fields, t) then
      var spec := specs[0].fields;
      if ToolId(spec) != "" then ToolId(spec) else if TargetRef(spec) != "" then TargetRef(spec) else SpecName(spec)
    else SpecMatch(specs[1..], t)
  }

  function Colons(s: string): nat {
    if s == "" then 0 else (if s[0] == ':' then 1 else 0) + Colons(s[1..])
  }

  /** The builtin grant is one for the target; without a prefix it stands for both. */
  predicate BuiltinGrants(grant: string, t: Target) {
    || grant in Candidates(t)
    || (':' !in grant && ("builtin:" + grant in Candidates(t) || "builtin_tool:" + grant in Candidates(t)))
  }

  /** The grants of single MCP tools that are grants for the target. */
  function McpGrants(effective: Dict, t: Target): set<string> {
    set x | x in StringSet(Get(effective, "mcp_tools")) && Colons(x) >= 2 && x in McpCandidates(t)
  }

  predicate ServerGranted(effective: Dict, t: Target) {
    TextOf(t.mcpServer) != "" && TextOf(t.mcpServer) in StringSet(Get(effective, "mcp_servers"))
  }

  predicate IsExecutable(v: Json, name: string) {
    && v.Obj? && name != "" && TrimmedText(Get(v.fields, "kind")) == "executable"
    && (name == TrimmedText(Get(v.fields, "name")) || name == TrimmedText(Get(v.fields, "command")))
  }

  /** `_executable_requirement_match`. */
  function ExecutableMatch(requirements: seq<Json>, name: string): string {
    if requirements == [] then ""
    else if IsExecutable(requirements[0], name) then
      var item := requirements[0].fields;
      PyStr(Or(Get(item, "id"), Str("envreq:executable:" + TrimmedText(Get(item, "name")))))
    else ExecutableMatch(requirements[1..], name)
  }

  /** `_capability_match`; empty when nothing grants the target. */
  function CapabilityMatch(first: set<string> -> string, effective: Dict, t: Target): string {
    var spec := SpecMatch(Items(Get(effective, "tool_specs")), t);
    if spec != "" then spec
    else if IsBuiltin(t) then
      if Strip(t.name) != "" && exists x :: x in StringSet(Get(effective, "builtin_tool_grants")) && BuiltinGrants(x, t)
      then "builtin_tool:" + Strip(t.name) else ""
    else if IsMcp(t) then
      if McpGrants(effective, t) != {} then first(McpGrants(effective, t))
      else if ServerGranted(effective, t) then "mcp:" + TextOf(t.mcpServer) else ""
    else if t.kind == "environment_requirement" || t.toolSource == "environment_requirement" then
      ExecutableMatch(Items(Get(effective, "environment_requirements")), Strip(t.name))
    else if t.kind == "skill" && t.name in StringSet(Get(effective, "skills")) then "skill:" + t.name
    else ""
  }

  /** Something in the effective capabilities is a grant for the target. */
  ghost predicate Granted(effective: Dict, t: Target) {
    || (exists v :: v in Items(Get(effective, "tool_specs")) && v.Obj? && SpecNames(v.fields, t))
    || (if IsBuiltin(t) then
          Strip(t.name) != "" && exists x :: x in StringSet(Get(effective, "builtin_tool_grants")) && BuiltinGrants(x, t)
        else if IsMcp(t) then McpGrants(effective, t) != {} || ServerGranted(effective, t)
        else if t.kind == "environment_requirement" || t.toolSource == "environment_requirement" then
          exists v :: v in Items(Get(effective, "environment_requirements")) && IsExecutable(v, Strip(t.name))
        else t.kind == "skill" && t.name in StringSet(Get(effective, "skills")))
  }

  // ---------------------------------------------------------------- execution policy

  function ListedPolicy(policies: seq<Json>, candidates: set<string>): Option<string> {
    if policies == [] then None
    else if policies[0].Obj? && TrimmedText(Get(policies[0].fields, "target")) in candidates - {""}
    then Some(TrimmedText(Get(policies[0].fields, "policy")))
    else ListedPolicy(policies[1..], candidates)
  }

  /** `_tool_spec_execution_policy`. */
  function SpecPolicy(specs: seq<Json>, capability: string): Option<string> {
    if capability == "" || specs == [] then None
    else if specs[0].Obj? && TrimmedText(Get(specs[0].fields, "tool_id")) == capability then
      var policy := TrimmedText(Get(AsDict(Get(specs[0].fields, "permission")), "policy"));
      if policy == "" || policy == "inherit" then None else Some(policy)
    else SpecPolicy(specs[1..], capability)
  }

  /** `_matching_execution_policy`, reduced to the policy's value. */
  function MatchedPolicy(r: Request, capability: string): Option<string> {
    var listed := ListedPolicy(Items(Get(r.effective, "execution_policies")), Candidates(r.target));
    var matched := if listed.Some? then listed else SpecPolicy(Items(Get(r.effective, "tool_specs")), capability);
    if matched.Some? then Some(Lower(matched.value)) else None
  }

  function PolicyStage(r: Request, policy: Option<string>, capability: string): Option<Decision> {
    match policy
    case None => None
    case Some(value) =>
      var rule := "execution_policy:" + (if value == "" then "inherit" else value);
      if value == "deny" then Some(Plain(Deny, false, capability, rule))
      else if value == "allow" then Some(Plain(Allow, true, capability, rule))
      else if value == "require_user" then Some(ApprovalOrBlock(r, capability, rule))
      else None
  }

  function PolicyWarnings(r: Request, policy: Option<string>): seq<string> {
    if policy == Some("escalate") then [r.target.name + " matched escalate execution policy"] else []
  }

  // ---------------------------------------------------------------- approval and runtime profile

  function ApprovalSource(t: Target): string {
    var source := Strip(t.toolSource);
    if source in {"builtin_tool", "builtin"} then "builtin"
    else if source == "mcp" || t.kind in {"mcp", "mcp_tool"} then "mcp"
    else if t.kind in {"builtin", "builtin_tool", "tool"} then "builtin"
    else "unknown"
  }

  function ApprovalContext(r: Request): Approval.Context {
    Approval.Context(r.target.name, ApprovalSource(r.target), r.target.mcpServer, None,
                     if r.subject.runtimeProfileId == "" then None else Some(r.subject.runtimeProfileId))
  }

  /** `_evaluate_approval` on the rule the engine chose. */
  function ApprovalStage(r: Request, m: Approval.Match, capability: string, warnings: seq<string>): Option<Decision> {
    if m.action == "deny" then
      Some(Decision(Deny, false, "", capability, "approval_policy:deny", m.action, m.rule))
    else if m.action == "warn" then
      Some(Decision(Warn, true, Join(warnings + [r.target.name + " matched warning approval policy"]), capability,
                    "approval_policy:warn", m.action, m.rule))
    else if m.action == "require_approval" then Some(ApprovalOrBlock(r, capability, "approval_policy:require_approval"))
    else if m.action == "allow" then
      Some(Decision(if warnings == [] then Allow else Warn, true, Join(warnings), capability, "approval_policy:allow", m.action, m.rule))
    else None
  }

  function RuntimeStage(r: Request, capability: string): Option<Decision> {
    var mode := Lower(TrimmedText(Get(r.runtimeProfile, "approval_mode")));
    if mode in {"full", "manual", "strict"} then Some(ApprovalOrBlock(r, capability, "runtime_profile:" + mode)) else None
  }

  // ---------------------------------------------------------------- the pipeline

  function AfterPolicy(r: Request, capability: string, warnings: seq<string>): Decision {
    var approval := if r.approval.None? then None
                    else ApprovalStage(r, Approval.Outcome(r.approval.value, ApprovalContext(r)), capability, warnings);
    if approval.Some? then approval.value
    else if RuntimeStage(r, capability).Some? then RuntimeStage(r, capability).value
    else if warnings != [] then Plain(Warn, true, capability, "").(warning := Join(warnings))
    else Plain(Allow, true, capability, "")
  }

  function AfterGrant(r: Request, capability: string, warnings: seq<string>): Decision {
    var hook := HookStage(r.outputs, r, capability);
    var policy := MatchedPolicy(r, capability);
    var decided := PolicyStage(r, policy, capability);
    if hook.Some? then hook.value
    else if decided.Some? then decided.value
    else AfterPolicy(r, capability, warnings + PolicyWarnings(r, policy))
  }

  function Grant(g: Gateway, r: Request): string {
    if r.enforce then CapabilityMatch(g.first, r.effective, r.target) else ""
  }

  function AfterHard(g: Gateway, r: Request, warnings: seq<string>): Decision {
    if AgentStage(r).action != Allow then AgentStage(r)
    else if ModeStage(r).Some? then ModeStage(r).value
    else if r.enforce && Grant(g, r) == "" then Plain(Deny, false, "", "effective_capabilities")
    else AfterGrant(r, Grant(g, r), warnings)
  }

  function HardWarnings(hard: Option<Decision>): seq<string> {
    if hard.Some? && hard.value.action == Warn then [hard.value.warning] else []
  }

  function Decide(g: Gateway, r: Request): Decision {
    var hard := HardStage(g.policies, r);
    if hard.Some? && hard.value.action != Warn && hard.value.action != Allow then hard.value
    else AfterHard(g, r, HardWarnings(hard))
  }

  /** The loop of `_evaluate_hard_policies`. */
  method EvaluateHardPolicies(g: Gateway, r: Request) returns (d: Option<Decision>)
    ensures d == HardStage(g.policies, r)
  {
    if r.toolCall.None? {
      return None;
    }
    assert g.policies[0..] == g.policies;
    for i := 0 to |g.policies|
      invariant HardStage(g.policies, r) == HardStage(g.policies[i..], r)
    {
      assert g.policies[i..][1..] == g.policies[i + 1..];
      var verdict := g.policies[i](r.toolCall.value);
      if verdict.Some? {
        if !verdict.value.allowed {
          return Some(Plain(Deny, false, "", "system_hard_deny"));
        }
        if verdict.value.requiresApproval {
          return Some(ApprovalOrBlock(r, "", "system_hard_policy"));
        }
        if verdict.value.warning != "" {
          return Some(Plain(Warn, true, "", "system_hard_policy").(warning := verdict.value.warning));
        }
      }
    }
    return None;
  }

  /** The loop of `_evaluate_lifecycle_outputs`. */
  method EvaluateLifecycleOutputs(r: Request, capability: string) returns (d: Option<Decision>)
    ensures d == HookStage(r.outputs, r, capability)
  {
    hide HookDecision, IsTerminal;
    assert r.outputs[0..] == r.outputs;
    for i := 0 to |r.outputs|
      invariant HookStage(r.outputs, r, capability) == HookStage(r.outputs[i..], r, capability)
    {
      assert r.outputs[i..][1..] == r.outputs[i + 1..];
      if r.outputs[i].Obj? {
        var output := r.outputs[i].fields;
        if IsTerminal(output) {
          return Some(Plain(Deny, false, capability, "lifecycle_hook:" + (if HookDecision(output) == "defer" then "defer" else "deny")));
        }
        if HookDecision(output) == "ask" {
          return Some(ApprovalOrBlock(r, capability, "lifecycle_hook:ask"));
        }
      }
    }
    return None;
  }

  /** `evaluate`. */
  method Evaluate(g: Gateway, r: Request) returns (d: Decision)
    ensures d == Decide(g, r)
  {
    hide HardStage, AgentStage, ModeStage, HookStage, MatchedPolicy, PolicyStage, ApprovalStage, RuntimeStage, Join, CapabilityMatch;
    var warnings: seq<string> := [];
    var hard := EvaluateHardPolicies(g, r);
    if hard.Some? {
      if hard.value.action == Warn {
        warnings := warnings + [hard.value.warning];
      } else if hard.value.action != Allow {
        return hard.value;
      }
    }
    var agent := AgentStage(r);
    if agent.action != Allow {
      return agent;
    }
    var mode := ModeStage(r);
    if mode.Some? {
      return mode.value;
    }
    var capability := "";
    if r.enforce {
      capability := CapabilityMatch(g.first, r.effective, r.target);
      if capability == "" {
        return Plain(Deny, false, "", "effective_capabilities");
      }
    }
    var hook := EvaluateLifecycleOutputs(r, capability);
    if hook.Some? {
      return hook.value;
    }
    var policy := MatchedPolicy(r, capability);
    var decided := PolicyStage(r, policy, capability);
    if decided.Some? {
      return decided.value;
    }
    if policy == Some("escalate") {
      warnings := warnings + [r.target.name + " matched escalate execution policy"];
    }
    assert warnings == HardWarnings(hard) + PolicyWarnings(r, policy);
    if r.approval.Some? {
      var chosen := Approval.Evaluate(r.approval.value, ApprovalContext(r));
      var approval := ApprovalStage(r, chosen, capability, warnings);
      if approval.Some? {
        return approval.value;
      }
    }
    var runtime := RuntimeStage(r, capability);
    if runtime.Some? {
      return runtime.value;
    }
    if warnings != [] {
      return Plain(Warn, true, capability, "").(warning := Join(warnings));
    }
    return Plain(Allow, true, capability, "");
  }

  // ---------------------------------------------------------------- authorised means allowed

  lemma {:induction false} HardConsistent(policies: seq<Policy>, r: Request)
    ensures var d := HardStage(policies, r);
            d.Some? ==> d.value.authorized == Allowed(d.value) && d.value.action != Allow && d.value.capability == ""
                        && (d.value.action == Warn ==> d.value.warning != "")
                        && (d.value.action == RequireApproval || d.value.action == BlockedReview ==> d.value == ApprovalOrBlock(r, "", "system_hard_policy"))
  {
    if r.toolCall.Some? && policies != [] {
      HardConsistent(policies[1..], r);
    }
  }

  lemma {:induction false} HookConsistent(outputs: seq<Json>, r: Request, capability: string)
    ensures var d := HookStage(outputs, r, capability);
            d.Some? ==> d.value.authorized == Allowed(d.value) && d.value.action in {RequireApproval, BlockedReview, Deny}
                        && d.value.capability == capability
  {
    hide IsTerminal, HookDecision;
    if outputs != [] {
      HookConsistent(outputs[1..], r, capability);
    }
  }

  lemma AfterPolicyConsistent(r: Request, capability: string, warnings: seq<string>)
    ensures var d := AfterPolicy(r, capability, warnings);
            d.authorized == Allowed(d) && d.capability == capability
  {
    hide Join, Lower, TrimmedText, Get, Approval.Outcome, ApprovalContext;
  }

  lemma PolicyConsistent(r: Request, policy: Option<string>, capability: string)
    ensures var d := PolicyStage(r, policy, capability);
            d.Some? ==> d.value.authorized == Allowed(d.value) && d.value.capability == capability
  {
  }

  lemma AfterGrantConsistent(r: Request, capability: string, warnings: seq<string>)
    ensures var d := AfterGrant(r, capability, warnings);
            d.authorized == Allowed(d) && d.capability == capability
  {
    hide HookStage, MatchedPolicy, PolicyWarnings, PolicyStage, AfterPolicy;
    var policy := MatchedPolicy(r, capability);
    HookConsistent(r.outputs, r, capability);
    PolicyConsistent(r, policy, capability);
    AfterPolicyConsistent(r, capability, warnings + PolicyWarnings(r, policy));
  }

  lemma AgentConsistent(r: Request)
    ensures AgentStage(r).action == Allow || (AgentStage(r).action == Deny && !AgentStage(r).authorized)
    ensures ModeStage(r).Some? ==> ModeStage(r).value.action == Deny && !ModeStage(r).value.authorized
  {
    hide SourceFlow, StringSet, TrimmedText;
  }

  /** Iterating over a set meets one of its elements first. */
  ghost predicate Iterates(g: Gateway) {
    forall s: set<string> {:trigger g.first(s)} :: s != {} ==> g.first(s) in s
  }

  lemma {:induction false} SpecMatchExact(specs: seq<Json>, t: Target)
    ensures SpecMatch(specs, t) != "" <==> exists v :: v in specs && v.Obj? && SpecNames(v.fields, t)
  {
    hide SpecNames, ToolId, TargetRef, SpecName;
    if specs != [] {
      SpecMatchExact(specs[1..], t);
      if specs[0].Obj? && SpecNames(specs[0].fields, t) {
        NamedSpecHasName(specs[0].fields, t);
      }
    }
  }

  lemma NoBlankCandidate(t: Target)
    ensures "" !in Candidates(t) && "" !in McpCandidates(t)
  {
    hide Strip, IsMcp, TextOf;
  }

  /** A spec that names a target has a text to name it by. */
  lemma NamedSpecHasName(spec: Dict, t: Target)
    requires SpecNames(spec, t)
    ensures ToolId(spec) != "" || TargetRef(spec) != "" || SpecName(spec) != ""
  {
    NoBlankCandidate(t);
    hide Candidates, ToolId, TargetRef, SpecName, SpecComponent, SourceType, Strip, TrimmedText, IsBuiltin, IsMcp;
    var names := {ToolId(spec), TargetRef(spec), SpecName(spec)};
    if Candidates(t) * names != {} {
      var x :| x in Candidates(t) * names;
    } else {
      var x :| x in Candidates(t) * (McpSpecNames(spec) - {""});
    }
  }

  lemma {:induction false} ExecutableMatchExact(requirements: seq<Json>, name: string)
    ensures ExecutableMatch(requirements, name) != "" <==> exists v :: v in requirements && IsExecutable(v, name)
  {
    hide IsExecutable;
    if requirements != [] {
      ExecutableMatchExact(requirements[1..], name);
      if IsExecutable(requirements[0], name) {
        assert requirements[0].Obj? by { ExecutableIsDict(requirements[0], name); }
        TruthyHasText(Get(requirements[0].fields, "id"), "envreq:executable:" + TrimmedText(Get(requirements[0].fields, "name")));
      }
    }
  }

  lemma ExecutableIsDict(v: Json, name: string)
    requires IsExecutable(v, name)
    ensures v.Obj?
  {
  }

  lemma TruthyHasText(v: Json, other: string)
    requires other != ""
    ensures PyStr(Or(v, Str(other))) != ""
  {
    hide Print;
  }

  /** The search answers a text exactly when something grants the target. */
  lemma MatchExact(g: Gateway, effective: Dict, t: Target)
    requires Iterates(g)
    ensures CapabilityMatch(g.first, effective, t) != "" <==> Granted(effective, t)
  {
    hide SpecMatch, ExecutableMatch, IsExecutable, SpecNames, BuiltinGrants, StringSet, McpCandidates, Candidates, Colons, Strip, IsBuiltin, IsMcp;
    SpecMatchExact(Items(Get(effective, "tool_specs")), t);
    ExecutableMatchExact(Items(Get(effective, "environment_requirements")), Strip(t.name));
    NoBlankCandidate(t);
    assert "" !in McpGrants(effective, t);
    assert "skill:" + t.name != "" && "mcp:" + TextOf(t.mcpServer) != "" && "builtin_tool:" + Strip(t.name) != "";
  }

  /**
   In every decision, authorised says the same as allowed; and when capabilities are enforced, the
   target of whatever is allowed is granted by the effective capabilities and the decision names the
   grant, but for what a hard policy already put up for approval.
   */
  lemma AllowedIsGranted(g: Gateway, r: Request)
    requires Iterates(g)
    ensures var d := Decide(g, r);
            && d.authorized == Allowed(d)
            && (r.enforce && Allowed(d) ==>
                  (Granted(r.effective, r.target) && d.capability == Grant(g, r) != "")
                  || (HardStage(g.policies, r) == Some(d) && d.action == RequireApproval && d.capability == ""))
            && (r.enforce && d.action in {Allow, Warn} ==> Granted(r.effective, r.target) && d.capability == Grant(g, r) != "")
  {
    hide HardStage, AgentStage, ModeStage, AfterGrant, CapabilityMatch, Granted, Iterates;
    MatchExact(g, r.effective, r.target);
    HardConsistent(g.policies, r);
    AgentConsistent(r);
    AfterGrantConsistent(r, Grant(g, r), HardWarnings(HardStage(g.policies, r)));
  }

  // ---------------------------------------------------------------- what each stage says, on the request's fields

  /** The decision a lifecycle output states. */
  ghost predicate Says(output: Dict, decision: string) {
    Lower(TrimmedText(Get(output, "decision"))) == decision
  }

  /** The output denies or defers, or its `continue_flow` is false, one of the negative texts, or empty. */
  ghost predicate Refuses(output: Dict) {
    var flow := Get(output, "continue_flow");
    || Says(output, "deny") || Says(output, "defer")
    || flow == Bool(false) || flow == Int(0) || flow == List([]) || flow == Obj(map[])
    || (flow.Str? && Lower(Strip(flow.s)) in {"false", "0", "no", "off"})
  }

  /** Some dictionary output refuses and none before it asks. */
  ghost predicate HookRefuses(outputs: seq<Json>) {
    exists i :: 0 <= i < |outputs| && outputs[i].Obj? && Refuses(outputs[i].fields)
             && forall j :: 0 <= j < i && outputs[j].Obj? ==> !Says(outputs[j].fields, "ask")
  }

  /** Some dictionary output asks without refusing, and none before it refuses. */
  ghost predicate HookReviews(outputs: seq<Json>) {
    exists i :: 0 <= i < |outputs| && outputs[i].Obj? && Says(outputs[i].fields, "ask")
             && forall j :: 0 <= j <= i && outputs[j].Obj? ==> !Refuses(outputs[j].fields)
  }

  lemma HookDecisionText(output: Dict)
    ensures Truthy(Get(output, "decision")) ==> HookDecision(output) == Lower(TrimmedText(Get(output, "decision")))
    ensures !Truthy(Get(output, "decision")) ==> HookDecision(output) == "none" && Lower(TrimmedText(Get(output, "decision"))) == ""
  {
    StripFixpoint("none");
    assert Lower("none") == "none" && Lower(Strip("")) == "";
    hide Strip, Lower, Print, Truthy;
  }

  lemma HookTexts(output: Dict)
    ensures IsTerminal(output) <==> Refuses(output)
    ensures HookDecision(output) == "ask" <==> Says(output, "ask")
    ensures HookDecision(output) == "defer" <==> Says(output, "defer")
  {
    HookDecisionText(output);
    hide Strip, Lower, TrimmedText, HookDecision;
  }

  lemma RefusesStep(outputs: seq<Json>)
    requires outputs != []
    ensures HookRefuses(outputs) <==>
              || (outputs[0].Obj? && Refuses(outputs[0].fields))
              || (HookRefuses(outputs[1..]) && !(outputs[0].Obj? && Says(outputs[0].fields, "ask")))
  {
    hide Refuses, Says;
    var rest := outputs[1..];
    if HookRefuses(outputs) {
      var i :| 0 <= i < |outputs| && outputs[i].Obj? && Refuses(outputs[i].fields)
            && forall j :: 0 <= j < i && outputs[j].Obj? ==> !Says(outputs[j].fields, "ask");
      if i > 0 {
        assert rest[i - 1] == outputs[i];
        assert forall j :: 0 <= j < i - 1 ==> rest[j] == outputs[j + 1];
      }
    }
    if HookRefuses(rest) && !(outputs[0].Obj? && Says(outputs[0].fields, "ask")) {
      var i :| 0 <= i < |rest| && rest[i].Obj? && Refuses(rest[i].fields)
            && forall j :: 0 <= j < i && rest[j].Obj? ==> !Says(rest[j].fields, "ask");
      assert outputs[i + 1] == rest[i];
      assert forall j :: 0 < j <= i ==> outputs[j] == rest[j - 1];
    }
  }

  lemma ReviewsStep(outputs: seq<Json>)
    requires outputs != []
    ensures HookReviews(outputs) <==>
              && !(outputs[0].Obj? && Refuses(outputs[0].fields))
              && ((outputs[0].Obj? && Says(outputs[0].fields, "ask")) || HookReviews(outputs[1..]))
  {
    hide Refuses, Says;
    var rest := outputs[1..];
    if HookReviews(outputs) {
      var i :| 0 <= i < |outputs| && outputs[i].Obj? && Says(outputs[i].fields, "ask")
            && forall j :: 0 <= j <= i && outputs[j].Obj? ==> !Refuses(outputs[j].fields);
      if i > 0 {
        assert rest[i - 1] == outputs[i];
        assert forall j :: 0 <= j <= i - 1 ==> rest[j] == outputs[j + 1];
      }
    }
    if HookReviews(rest) && !(outputs[0].Obj? && Refuses(outputs[0].fields)) {
      var i :| 0 <= i < |rest| && rest[i].Obj? && Says(rest[i].fields, "ask")
            && forall j :: 0 <= j <= i && rest[j].Obj? ==> !Refuses(rest[j].fields);
      assert outputs[i + 1] == rest[i];
      assert forall j :: 0 < j <= i + 1 ==> outputs[j] == rest[j - 1];
    }
  }

  /**
   The lifecycle hooks deny an action exactly if some output refuses it and none before asks; they want
   a review exactly if some output asks, without refusing, and none before refuses.
   */
  lemma {:induction false} HooksExactly(outputs: seq<Json>, r: Request, capability: string)
    ensures var d := HookStage(outputs, r, capability);
            && (d.Some? && d.value.action == Deny <==> HookRefuses(outputs))
            && (d == Some(ApprovalOrBlock(r, capability, "lifecycle_hook:ask")) <==> HookReviews(outputs))
            && (d.None? <==> !HookRefuses(outputs) && !HookReviews(outputs))
  {
    hide IsTerminal, HookDecision, Refuses, Says, HookRefuses, HookReviews;
    if outputs == [] {
      NoHook();
    } else {
      RefusesStep(outputs);
      ReviewsStep(outputs);
      if outputs[0].Obj? {
        HookTexts(outputs[0].fields);
        HookConsistent(outputs, r, capability);
      }
      HooksExactly(outputs[1..], r, capability);
    }
  }

  lemma NoHook()
    ensures !HookRefuses([]) && !HookReviews([])
  {
  }

  /** The action is triggered by the flow; no text means manual, and one flow has a second spelling. */
  ghost predicate ComesFrom(r: Request, flow: string) {
    var source := Strip(r.subject.triggerSource);
    || (source == "" && flow == "manual")
    || (source == "capability-ingest" && flow == "capability_ingest")
    || (source != "" && source != "capability-ingest" && source == flow)
  }

  /** An agent that is not the user's allows its system flows only; one that is refuses the calls it is not set up for. */
  ghost predicate AgentRefuses(r: Request) {
    r.agent.Some? &&
    var a := r.agent.value;
    || (a.visibility != "user" && forall flow :: flow in a.systemFlows ==> !ComesFrom(r, flow))
    || (a.visibility == "user" &&
        ((!a.canRunTaskflow && ComesFrom(r, "taskflow")) || (!a.canCallEphemeral && ComesFrom(r, "agent_call_ephemeral"))
         || (!a.canCallPersistent && ComesFrom(r, "agent_call_persistent"))))
  }

  lemma AgentExactly(r: Request)
    ensures AgentStage(r).action == Allow <==> !AgentRefuses(r)
  {
    hide Strip;
    if r.agent.Some? {
      assert forall flow :: flow in r.agent.value.systemFlows && ComesFrom(r, flow) ==> flow == SourceFlow(r.subject.triggerSource);
      assert ComesFrom(r, SourceFlow(r.subject.triggerSource));
    }
  }

  /** A mode is active and lists tools by name, without the wildcard, and this one is not among them. */
  ghost predicate ModeRefuses(r: Request) {
    var listed := Items(Get(r.metadata, "mode_tools"));
    && TrimmedText(Get(r.metadata, "active_mode")) != ""
    && (exists x :: x in listed && Strip(PyStr(x)) != "")
    && forall x :: x in listed && Strip(PyStr(x)) != "" ==> Strip(PyStr(x)) != "*" && Strip(PyStr(x)) != r.target.name
  }

  lemma ModeExactly(r: Request)
    ensures ModeStage(r).Some? <==> ModeRefuses(r)
  {
    hide Strip, PyStr, TrimmedText;
    var listed := Items(Get(r.metadata, "mode_tools"));
    var tools := StringSet(Get(r.metadata, "mode_tools"));
    assert forall x :: x in listed && Strip(PyStr(x)) != "" ==> Strip(PyStr(x)) in tools;
    if tools != {} {
      var name :| name in tools;
      assert exists x :: x in listed && Strip(PyStr(x)) == name;
    }
  }

  /** The hard policy decides or warns. */
  ghost predicate Speaks(v: Option<Verdict>) {
    v.Some? && (!v.value.allowed || v.value.requiresApproval || v.value.warning != "")
  }

  /** The first hard policy to speak of the call says `v`. */
  ghost predicate HardSays(policies: seq<Policy>, call: Dict, v: Verdict) {
    exists i :: 0 <= i < |policies| && policies[i](call) == Some(v) && Speaks(Some(v))
             && forall j :: 0 <= j < i ==> !Speaks(policies[j](call))
  }

  lemma HardSaysStep(policies: seq<Policy>, call: Dict, v: Verdict)
    requires policies != []
    ensures HardSays(policies, call, v) <==>
              if Speaks(policies[0](call)) then policies[0](call) == Some(v) else HardSays(policies[1..], call, v)
  {
    hide Speaks;
    var rest := policies[1..];
    if HardSays(policies, call, v) {
      var i :| 0 <= i < |policies| && policies[i](call) == Some(v) && Speaks(Some(v)) && forall j :: 0 <= j < i ==> !Speaks(policies[j](call));
      if i > 0 {
        assert rest[i - 1] == policies[i];
        assert forall j :: 0 <= j < i - 1 ==> rest[j] == policies[j + 1];
      }
    }
    if HardSays(rest, call, v) && !Speaks(policies[0](call)) {
      var i :| 0 <= i < |rest| && rest[i](call) == Some(v) && Speaks(Some(v)) && forall j :: 0 <= j < i ==> !Speaks(rest[j](call));
      assert policies[i + 1] == rest[i];
      forall j | 0 <= j < i + 1 ensures !Speaks(policies[j](call)) {
        if j > 0 { assert policies[j] == rest[j - 1]; }
      }
    }
    if Speaks(policies[0](call)) && policies[0](call) == Some(v) {
      assert policies[0](call) == Some(v) && Speaks(Some(v));
    }
  }

  /** What the hard policies answer: the first one to speak refuses, asks for approval or warns; else they say nothing. */
  lemma {:induction false} HardExactly(policies: seq<Policy>, r: Request, v: Verdict)
    requires r.toolCall.Some?
    ensures HardSays(policies, r.toolCall.value, v) ==>
              HardStage(policies, r) == Some(
                if !v.allowed then Plain(Deny, false, "", "system_hard_deny")
                else if v.requiresApproval then ApprovalOrBlock(r, "", "system_hard_policy")
                else Plain(Warn, true, "", "system_hard_policy").(warning := v.warning))
    ensures HardStage(policies, r).Some? <==> exists w :: HardSays(policies, r.toolCall.value, w)
  {
    hide HardSays;
    if policies == [] {
      forall w ensures !HardSays(policies, r.toolCall.value, w) { SilentNone(r.toolCall.value, w); }
    } else {
      var call := r.toolCall.value;
      HardExactly(policies[1..], r, v);
      HardSaysStep(policies, call, v);
      if Speaks(policies[0](call)) {
        HardSaysStep(policies, call, policies[0](call).value);
      } else {
        forall w ensures HardSays(policies, call, w) <==> HardSays(policies[1..], call, w) { HardSaysStep(policies, call, w); }
      }
    }
  }

  lemma SilentNone(call: Dict, w: Verdict)
    ensures !HardSays([], call, w)
  {
  }

  // ---------------------------------------------------------------- the matched execution policy, on the fields

  /** The policy is listed for one of the target's names. */
  ghost predicate ListedFor(policy: Json, t: Target) {
    policy.Obj? && TrimmedText(Get(policy.fields, "target")) != "" && TrimmedText(Get(policy.fields, "target")) in Candidates(t)
  }

  ghost predicate StatesPolicy(spec: Json, capability: string, value: string) {
    && spec.Obj? && TrimmedText(Get(spec.fields, "tool_id")) == capability
    && TrimmedText(Get(AsDict(Get(spec.fields, "permission")), "policy")) == value
  }

  /** `value` is what the first policy listed for the target says. */
  ghost predicate ListedSays(policies: seq<Json>, t: Target, value: string) {
    exists i :: 0 <= i < |policies| && ListedFor(policies[i], t) && TrimmedText(Get(policies[i].fields, "policy")) == value
             && forall j :: 0 <= j < i ==> !ListedFor(policies[j], t)
  }

  /** `value` is the permission of the first tool spec with the capability's id, unless it is blank or inherited. */
  ghost predicate SpecSays(specs: seq<Json>, capability: string, value: string) {
    && capability != "" && value != "" && value != "inherit"
    && exists i :: 0 <= i < |specs| && StatesPolicy(specs[i], capability, value)
                && forall j :: 0 <= j < i ==> !(specs[j].Obj? && TrimmedText(Get(specs[j].fields, "tool_id")) == capability)
  }

  /** The policy that applies, in lower case: a listed one for the target, else the tool spec's own. */
  ghost predicate PolicyIs(r: Request, capability: string, value: string) {
    exists text :: value == Lower(text) &&
      (|| ListedSays(Items(Get(r.effective, "execution_policies")), r.target, text)
       || (&& (forall p :: p in Items(Get(r.effective, "execution_policies")) ==> !ListedFor(p, r.target))
           && SpecSays(Items(Get(r.effective, "tool_specs")), capability, text)))
  }

  lemma {:induction false} ListedExactly(policies: seq<Json>, t: Target, value: string)
    ensures ListedPolicy(policies, Candidates(t)) == Some(value) <==> ListedSays(policies, t, value)
    ensures ListedPolicy(policies, Candidates(t)).None? <==> forall p :: p in policies ==> !ListedFor(p, t)
  {
    hide Candidates, TrimmedText, Get;
    if policies != [] {
      var rest := policies[1..];
      ListedExactly(rest, t, value);
      assert forall p :: p in policies <==> p == policies[0] || p in rest;
      if ListedFor(policies[0], t) {
        assert policies[0].Obj?;
      } else {
        if ListedSays(policies, t, value) {
          var i :| 0 <= i < |policies| && ListedFor(policies[i], t) && TrimmedText(Get(policies[i].fields, "policy")) == value
                && forall j :: 0 <= j < i ==> !ListedFor(policies[j], t);
          assert rest[i - 1] == policies[i];
          assert forall j :: 0 <= j < i - 1 ==> rest[j] == policies[j + 1];
        }
        if ListedSays(rest, t, value) {
          var i :| 0 <= i < |rest| && ListedFor(rest[i], t) && TrimmedText(Get(rest[i].fields, "policy")) == value
                && forall j :: 0 <= j < i ==> !ListedFor(rest[j], t);
          assert policies[i + 1] == rest[i];
          forall j | 0 <= j < i + 1 ensures !ListedFor(policies[j], t) {
            if j > 0 { assert policies[j] == rest[j - 1]; }
          }
        }
      }
    }
  }

  ghost predicate SpecOf(spec: Json, capability: string) {
    spec.Obj? && TrimmedText(Get(spec.fields, "tool_id")) == capability
  }

  lemma {:induction false} SpecExactly(specs: seq<Json>, capability: string, value: string)
    ensures SpecPolicy(specs, capability) == Some(value) <==> SpecSays(specs, capability, value)
  {
    hide TrimmedText, Get;
    if specs != [] && capability != "" {
      var rest := specs[1..];
      SpecExactly(rest, capability, value);
      if SpecOf(specs[0], capability) {
        assert SpecSays(specs, capability, value) ==> StatesPolicy(specs[0], capability, value);
      } else {
        if SpecSays(specs, capability, value) {
          var i :| 0 <= i < |specs| && StatesPolicy(specs[i], capability, value)
                && forall j :: 0 <= j < i ==> !(specs[j].Obj? && TrimmedText(Get(specs[j].fields, "tool_id")) == capability);
          assert rest[i - 1] == specs[i];
          assert forall j :: 0 <= j < i - 1 ==> rest[j] == specs[j + 1];
        }
        if SpecSays(rest, capability, value) {
          var i :| 0 <= i < |rest| && StatesPolicy(rest[i], capability, value)
                && forall j :: 0 <= j < i ==> !(rest[j].Obj? && TrimmedText(Get(rest[j].fields, "tool_id")) == capability);
          assert specs[i + 1] == rest[i];
          forall j | 0 <= j < i + 1 ensures !SpecOf(specs[j], capability) {
            if j > 0 { assert specs[j] == rest[j - 1]; }
          }
        }
      }
    }
  }

  /** The matched execution policy is the first listed one for the target, else that of the capability's tool spec. */
  lemma PolicyExactly(r: Request, capability: string, value: string)
    ensures MatchedPolicy(r, capability) == Some(value) <==> PolicyIs(r, capability, value)
  {
    var policies, specs := Items(Get(r.effective, "execution_policies")), Items(Get(r.effective, "tool_specs"));
    hide Candidates, TrimmedText, Get, ListedPolicy, SpecPolicy, ListedSays, SpecSays, Lower, ListedFor;
    forall text ensures ListedPolicy(policies, Candidates(r.target)) == Some(text) <==> ListedSays(policies, r.target, text) {
      ListedExactly(policies, r.target, text);
    }
    forall text ensures SpecPolicy(specs, capability) == Some(text) <==> SpecSays(specs, capability, text) {
      SpecExactly(specs, capability, text);
    }
    ListedExactly(policies, r.target, "");
  }

  // ---------------------------------------------------------------- the decision, on the request's fields

  ghost predicate HardVerdict(g: Gateway, r: Request, v: Verdict) {
    r.toolCall.Some? && HardSays(g.policies, r.toolCall.value, v)
  }

  /** A stage before the execution policy refuses the action. */
  ghost predicate Barred(r: Request) {
    || AgentRefuses(r) || ModeRefuses(r)
    || (r.enforce && !Granted(r.effective, r.target))
    || HookRefuses(r.outputs)
  }

  /** What becomes of a demand for approval. */
  ghost function Review(r: Request): Action {
    if r.subject.interactive then RequireApproval else BlockedReview
  }

  /** What the approval rules and the runtime profile make of an action that nothing decided before. */
  ghost function ByRules(r: Request, warned: bool): Action {
    var chosen := if r.approval.Some? then Approval.Outcome(r.approval.value, ApprovalContext(r)).action else "";
    var mode := Lower(TrimmedText(Get(r.runtimeProfile, "approval_mode")));
    if chosen == "deny" then Deny
    else if chosen == "require_approval" then Review(r)
    else if chosen == "warn" then Warn
    else if chosen != "allow" && mode in {"full", "manual", "strict"} then Review(r)
    else if warned then Warn
    else Allow
  }

  /** The answer of the pipeline after the hard policies. */
  ghost function Answer(g: Gateway, r: Request, warned: bool): Action {
    var capability := Grant(g, r);
    if Barred(r) then Deny
    else if HookReviews(r.outputs) then Review(r)
    else if PolicyIs(r, capability, "deny") then Deny
    else if PolicyIs(r, capability, "allow") then Allow
    else if PolicyIs(r, capability, "require_user") then Review(r)
    else ByRules(r, warned || PolicyIs(r, capability, "escalate"))
  }

  lemma RulesExactly(r: Request, capability: string, warnings: seq<string>)
    ensures AfterPolicy(r, capability, warnings).action == ByRules(r, warnings != [])
  {
    hide Join, Lower, TrimmedText, Get, Approval.Outcome, ApprovalContext;
  }

  lemma PolicyValue(r: Request, capability: string, value: string)
    ensures PolicyIs(r, capability, value) <==> MatchedPolicy(r, capability) == Some(value)
  {
    hide *;
    PolicyExactly(r, capability, value);
  }

  lemma AnswerAfterGrant(r: Request, capability: string, warnings: seq<string>)
    ensures var action := AfterGrant(r, capability, warnings).action;
            && (HookRefuses(r.outputs) ==> action == Deny)
            && (!HookRefuses(r.outputs) && HookReviews(r.outputs) ==> action == Review(r))
            && (!HookRefuses(r.outputs) && !HookReviews(r.outputs) ==>
                  action == (if MatchedPolicy(r, capability) == Some("deny") then Deny
                             else if MatchedPolicy(r, capability) == Some("allow") then Allow
                             else if MatchedPolicy(r, capability) == Some("require_user") then Review(r)
                             else ByRules(r, warnings != [] || MatchedPolicy(r, capability) == Some("escalate"))))
  {
    hide HookStage, MatchedPolicy, AfterPolicy, ByRules, HookRefuses, HookReviews;
    HooksExactly(r.outputs, r, capability);
    var policy := MatchedPolicy(r, capability);
    RulesExactly(r, capability, warnings + PolicyWarnings(r, policy));
  }

  lemma AnswerAfterHard(g: Gateway, r: Request, warnings: seq<string>)
    requires Iterates(g)
    ensures AfterHard(g, r, warnings).action == Answer(g, r, warnings != [])
  {
    hide HookStage, MatchedPolicy, AfterGrant, ByRules, HookRefuses, HookReviews, AgentStage, ModeStage;
    hide CapabilityMatch, Granted, PolicyIs, AgentRefuses, ModeRefuses, Iterates;
    var capability := Grant(g, r);
    AgentConsistent(r);
    AgentExactly(r);
    ModeExactly(r);
    MatchExact(g, r.effective, r.target);
    PolicyValue(r, capability, "deny");
    PolicyValue(r, capability, "allow");
    PolicyValue(r, capability, "require_user");
    PolicyValue(r, capability, "escalate");
    AnswerAfterGrant(r, capability, warnings);
  }

  /**
   The whole decision: what the first hard policy to speak refuses or puts up for approval; else, with
   its warning or none, the answer of the later stages as told by the request's own fields. It is
   authorised exactly if it allows, warns or asks the user.
   */
  lemma DecisionExactly(g: Gateway, r: Request)
    requires Iterates(g)
    ensures forall v :: HardVerdict(g, r, v) ==>
              Decide(g, r).action == if !v.allowed then Deny else if v.requiresApproval then Review(r) else Answer(g, r, true)
    ensures (forall v :: !HardVerdict(g, r, v)) ==> Decide(g, r).action == Answer(g, r, false)
    ensures Decide(g, r).authorized <==> Decide(g, r).action in {Allow, Warn, RequireApproval}
  {
    hide HardStage, AfterHard, Answer, HardSays, CapabilityMatch, Granted;
    AllowedIsGranted(g, r);
    forall v | HardVerdict(g, r, v)
      ensures Decide(g, r).action == if !v.allowed then Deny else if v.requiresApproval then Review(r) else Answer(g, r, true)
    {
      HardExactly(g.policies, r, v);
      AnswerAfterHard(g, r, [v.warning]);
    }
    if forall v :: !HardVerdict(g, r, v) {
      NoHardVerdict(g, r);
      AnswerAfterHard(g, r, []);
    }
  }

  lemma NoHardVerdict(g: Gateway, r: Request)
    requires forall v :: !HardVerdict(g, r, v)
    ensures HardStage(g.policies, r).None?
  {
    if r.toolCall.Some? {
      HardExactly(g.policies, r, Verdict(true, "", false));
      hide HardStage, HardSays;
      assert forall w :: HardSays(g.policies, r.toolCall.value, w) ==> HardVerdict(g, r, w);
    }
  }

  // ---------------------------------------------------------------- which names grant a target

  /** A text of the list, stripped. */
  ghost predicate Names(v: Json, text: string) {
    exists x :: x in Items(v) && Strip(PyStr(x)) == text
  }

  lemma StringSetExactly(v: Json, text: string)
    ensures text in StringSet(v) <==> text != "" && Names(v, text)
  {
    hide Strip, PyStr;
  }

  /** A builtin tool without registry path and component id. */
  ghost predicate PlainBuiltin(t: Target) {
    && (t.toolSource in {"builtin", "builtin_tool"} || (t.toolSource == "" && t.kind in {"builtin", "builtin_tool", "tool"}))
    && t.kind in {"builtin", "builtin_tool", "tool"}
    && Strip(t.name) != "" && ':' !in Strip(t.name) && Strip(t.registryPath) == "" && Strip(t.componentId) == ""
  }

  lemma BuiltinCandidates(t: Target)
    requires PlainBuiltin(t)
    ensures IsBuiltin(t) && !IsMcp(t)
    ensures var name := Strip(t.name); Candidates(t) == {name, "builtin:" + name, "builtin_tool:" + name}
  {
    StripFixpoint(t.kind);
    hide Strip;
  }

  lemma BuiltinGrantNames(t: Target, grant: string)
    requires PlainBuiltin(t)
    ensures var name := Strip(t.name); BuiltinGrants(grant, t) <==> grant in {name, "builtin:" + name, "builtin_tool:" + name}
  {
    BuiltinCandidates(t);
    var name := Strip(t.name);
    hide Strip, Candidates;
    var p, q := "builtin:", "builtin_tool:";
    assert (p + grant)[7] == ':' && (q + name)[7] == '_' && (q + grant)[7] == '_' && (p + name)[7] == ':';
    assert p + grant == p + name ==> grant == (p + grant)[8..] == (p + name)[8..] == name;
    assert q + grant == q + name ==> grant == (q + grant)[13..] == (q + name)[13..] == name;
    assert ':' in p + grant && ':' in q + grant;
  }

  /**
   A plain builtin tool, for which no tool spec speaks, is granted exactly if the builtin grants list its
   name, bare or with one of the two prefixes. (A tool spec needs the tool's component id.)
   */
  lemma BuiltinGranted(effective: Dict, t: Target)
    requires PlainBuiltin(t)
    ensures var name, grants := Strip(t.name), Get(effective, "builtin_tool_grants");
            Granted(effective, t) <==> Names(grants, name) || Names(grants, "builtin:" + name) || Names(grants, "builtin_tool:" + name)
  {
    BuiltinCandidates(t);
    var name, grants := Strip(t.name), Get(effective, "builtin_tool_grants");
    assert forall spec :: !SpecNames(spec, t) by {
      hide Candidates, SourceType, SpecComponent, ToolId, TargetRef, SpecName, Strip;
    }
    hide Strip, SpecNames, Candidates, StringSet, Names, BuiltinGrants, PlainBuiltin;
    forall x ensures x in StringSet(grants) && BuiltinGrants(x, t) <==>
        x != "" && Names(grants, x) && x in {name, "builtin:" + name, "builtin_tool:" + name} {
      StringSetExactly(grants, x);
      BuiltinGrantNames(t, x);
    }
    BuiltinGrantFound(grants, t);
  }

  lemma BuiltinGrantFound(grants: Json, t: Target)
    requires var name := Strip(t.name);
             name != "" && forall x :: x in StringSet(grants) && BuiltinGrants(x, t) <==>
               x != "" && Names(grants, x) && x in {name, "builtin:" + name, "builtin_tool:" + name}
    ensures var name := Strip(t.name);
            (exists x :: x in StringSet(grants) && BuiltinGrants(x, t)) <==>
              Names(grants, name) || Names(grants, "builtin:" + name) || Names(grants, "builtin_tool:" + name)
  {
    hide Strip, StringSet, BuiltinGrants, Names;
    var name := Strip(t.name);
    if Names(grants, name) {
      assert name in StringSet(grants) && BuiltinGrants(name, t);
    } else if Names(grants, "builtin:" + name) {
      assert "builtin:" + name in StringSet(grants) && BuiltinGrants("builtin:" + name, t);
    } else if Names(grants, "builtin_tool:" + name) {
      assert "builtin_tool:" + name in StringSet(grants) && BuiltinGrants("builtin_tool:" + name, t);
    }
  }

  /** A tool of a server, told by server and tool name alone. */
  ghost predicate PlainMcp(t: Target) {
    && (t.toolSource == "mcp" || t.kind in {"mcp", "mcp_tool"}) && !IsBuiltin(t)
    && t.mcpServer.Some? && Strip(t.mcpServer.value) != "" && ':' !in Strip(t.mcpServer.value)
    && t.mcpTool.Some? && Strip(t.mcpTool.value) != ""
    && Strip(t.registryPath) == "" && Strip(t.componentId) == ""
  }

  lemma {:induction false} ColonsOfJoined(a: string, b: string)
    ensures Colons(a + b) == Colons(a) + Colons(b)
    ensures Colons(a) == 0 <==> ':' !in a
  {
    if a == "" {
      assert a + b == b;
    } else {
      assert (a + b)[1..] == a[1..] + b;
      assert a == [a[0]] + a[1..];
      ColonsOfJoined(a[1..], b);
    }
  }

  lemma McpToolGrant(t: Target, grant: string)
    requires PlainMcp(t)
    ensures var server, tool := Strip(t.mcpServer.value), Strip(t.mcpTool.value);
            Colons(grant) >= 2 && grant in McpCandidates(t) <==> grant == "mcp:" + server + ":" + tool
  {
    var server, tool := Strip(t.mcpServer.value), Strip(t.mcpTool.value);
    assert t.mcpTool.value != "" by { assert Strip("") == ""; }
    hide Strip;
    ColonsOfJoined("mcp:", server);
    ColonsOfJoined("mcp:" + server, ":");
    ColonsOfJoined("mcp:" + server + ":", tool);
    ColonsOfJoined(server, "");
    assert Colons("mcp:") == 1 && Colons(":") == 1;
    assert ("mcp:" + server + ":" + tool)[0] == 'm';
  }

  /** Such a tool, for which no tool spec speaks, is granted exactly if it is listed itself or its server is. */
  lemma McpGranted(effective: Dict, t: Target)
    requires PlainMcp(t) && forall v :: v in Items(Get(effective, "tool_specs")) && v.Obj? ==> !SpecNames(v.fields, t)
    ensures var server, tool := Strip(t.mcpServer.value), Strip(t.mcpTool.value);
            Granted(effective, t) <==>
              Names(Get(effective, "mcp_tools"), "mcp:" + server + ":" + tool) || Names(Get(effective, "mcp_servers"), server)
  {
    var server, tool := Strip(t.mcpServer.value), Strip(t.mcpTool.value);
    var listed := Get(effective, "mcp_tools");
    hide Strip, SpecNames, Candidates, McpCandidates, StringSet, Names, Colons;
    StringSetExactly(Get(effective, "mcp_servers"), server);
    StringSetExactly(listed, "mcp:" + server + ":" + tool);
    McpToolGrant(t, "mcp:" + server + ":" + tool);
    if McpGrants(effective, t) != {} {
      var x :| x in McpGrants(effective, t);
      McpToolGrant(t, x);
    }
    if Names(listed, "mcp:" + server + ":" + tool) {
      assert "mcp:" + server + ":" + tool in McpGrants(effective, t);
    }
  }

  /** A tool spec speaks for a builtin tool exactly if it is a builtin spec of its component that has one of its names. */
  lemma BuiltinSpecExactly(spec: Dict, t: Target)
    requires IsBuiltin(t)
    ensures var data := AsDict(Get(spec, "metadata"));
            var ref := Get(spec, "target_tool_ref");
            SpecNames(spec, t) <==>
              && Get(spec, "metadata").Obj? && Strip(t.componentId) != "" && Strip(PyStr(Get(data, "component_id"))) == Strip(t.componentId)
              && TrimmedText(if Truthy(Get(spec, "source_type")) then Get(spec, "source_type") else Get(data, "source_type")) == "builtin_tool"
              && (|| TrimmedText(Get(spec, "tool_id")) in Candidates(t) || TrimmedText(Get(spec, "name")) in Candidates(t)
                  || (TrimmedText(ref) != "" && TrimmedText(ref) in Candidates(t))
                  || (TrimmedText(ref) == "" && TrimmedText(Get(data, "target_tool_ref")) in Candidates(t)))
  {
    hide Strip, PyStr, TrimmedText, Candidates;
    var names := {ToolId(spec), TargetRef(spec), SpecName(spec)};
    assert Candidates(t) * names != {} <==> exists x :: x in Candidates(t) && x in names by {
      if x :| x in Candidates(t) && x in names { assert x in Candidates(t) * names; }
    }
  }

  /** An environment requirement, for which no tool spec speaks, is granted exactly if an executable of its name is required. */
  lemma RequirementGranted(effective: Dict, t: Target)
    requires (t.kind == "environment_requirement" || t.toolSource == "environment_requirement") && !IsBuiltin(t) && !IsMcp(t)
    requires forall v :: v in Items(Get(effective, "tool_specs")) && v.Obj? ==> !SpecNames(v.fields, t)
    ensures var name := Strip(t.name);
            Granted(effective, t) <==>
              name != "" && exists v :: v in Items(Get(effective, "environment_requirements")) && v.Obj?
                                     && TrimmedText(Get(v.fields, "kind")) == "executable"
                                     && (TrimmedText(Get(v.fields, "name")) == name || TrimmedText(Get(v.fields, "command")) == name)
  {
    hide Strip, TrimmedText, SpecNames;
    if v :| v in Items(Get(effective, "environment_requirements")) && IsExecutable(v, Strip(t.name)) {
    }
  }

  /** Warnings are shown one after the other, with a semicolon between. */
  lemma {:induction false} JoinAppend(items: seq<string>, last: string)
    ensures Join(items + [last]) == if items == [] then last else Join(items) + "; " + last
  {
    if |items| > 1 {
      assert (items + [last])[1..] == items[1..] + [last];
      JoinAppend(items[1..], last);
    } else if |items| == 1 {
      assert (items + [last])[1..] == [last];
    } else {
      assert items + [last] == [last];
    }
  }

  /** What the approval rules see of a request: the tool, its server, the runtime profile and one of three sources. */
  lemma RulesSee(r: Request)
    ensures var c, source := ApprovalContext(r), Strip(r.target.toolSource);
            var builtin := source == "builtin" || source == "builtin_tool";
            var mcp := source == "mcp" || r.target.kind == "mcp" || r.target.kind == "mcp_tool";
            && c.toolName == r.target.name && c.mcpServer == r.target.mcpServer && c.effectClass == None
            && (c.profile == None <==> r.subject.runtimeProfileId == "")
            && (c.profile.Some? ==> c.profile.value == r.subject.runtimeProfileId)
            && (c.toolSource == "mcp" <==> mcp && !builtin)
            && (c.toolSource == "builtin" <==> builtin || (!mcp && r.target.kind in {"builtin", "builtin_tool", "tool"}))
            && c.toolSource in {"builtin", "mcp", "unknown"}
  {
    hide Strip;
  }

  /** The grant named for a tool spec is the first of its id, its reference and its name that is not blank. */
  lemma {:induction false} SpecGrantNamed(specs: seq<Json>, t: Target, i: nat)
    requires i < |specs| && specs[i].Obj? && SpecNames(specs[i].fields, t)
    requires forall j :: 0 <= j < i ==> !(specs[j].Obj? && SpecNames(specs[j].fields, t))
    ensures var spec := specs[i].fields;
            SpecMatch(specs, t) == if ToolId(spec) != "" then ToolId(spec) else if TargetRef(spec) != "" then TargetRef(spec) else SpecName(spec)
  {
    hide SpecNames, ToolId, TargetRef, SpecName;
    if i > 0 {
      assert specs[1..][i - 1] == specs[i];
      assert forall j :: 0 <= j < i - 1 ==> specs[1..][j] == specs[j + 1];
      SpecGrantNamed(specs[1..], t, i - 1);
    }
  }

  // ---------------------------------------------------------------- interaction

  function Background(r: Request): Request {
    r.(subject := r.subject.(interactive := false))
  }

  function Blocked(d: Decision): Decision {
    if d.action == RequireApproval then d.(action := BlockedReview, authorized := false) else d
  }

  function BlockedOpt(d: Option<Decision>): Option<Decision> {
    if d.Some? then Some(Blocked(d.value)) else None
  }

  lemma {:induction false} HardBackground(policies: seq<Policy>, r: Request)
    requires r.subject.interactive
    ensures HardStage(policies, Background(r)) == BlockedOpt(HardStage(policies, r))
  {
    if r.toolCall.Some? && policies != [] {
      HardBackground(policies[1..], r);
    }
  }

  lemma {:induction false} HookBackground(outputs: seq<Json>, r: Request, capability: string)
    requires r.subject.interactive
    ensures HookStage(outputs, Background(r), capability) == BlockedOpt(HookStage(outputs, r, capability))
  {
    hide IsTerminal, HookDecision;
    if outputs != [] {
      HookBackground(outputs[1..], r, capability);
    }
  }

  lemma PolicyBackground(r: Request, capability: string, warnings: seq<string>)
    requires r.subject.interactive
    ensures AfterPolicy(Background(r), capability, warnings) == Blocked(AfterPolicy(r, capability, warnings))
  {
    hide Join, Lower, TrimmedText, Get, Approval.Outcome, ApprovalSource;
    assert ApprovalContext(Background(r)) == ApprovalContext(r);
  }

  lemma GrantBackground(r: Request, capability: string, warnings: seq<string>)
    requires r.subject.interactive
    ensures AfterGrant(Background(r), capability, warnings) == Blocked(AfterGrant(r, capability, warnings))
  {
    hide HookStage, AfterPolicy, ListedPolicy, SpecPolicy, Candidates, Lower;
    var b, policy := Background(r), MatchedPolicy(r, capability);
    assert MatchedPolicy(b, capability) == policy && PolicyWarnings(b, policy) == PolicyWarnings(r, policy);
    HookBackground(r.outputs, r, capability);
    PolicyBackground(r, capability, warnings + PolicyWarnings(r, policy));
  }

  /** Without a user at hand the decision is the same, but that a demand for approval becomes a block. */
  lemma BackgroundOnlyBlocks(g: Gateway, r: Request)
    requires r.subject.interactive
    ensures Decide(g, Background(r)) == Blocked(Decide(g, r))
  {
    hide HardStage, AfterGrant, SourceFlow, StringSet, TrimmedText;
    HardBackground(g.policies, r);
    HardConsistent(g.policies, r);
    AgentConsistent(r);
    GrantBackground(r, Grant(g, r), HardWarnings(HardStage(g.policies, r)));
  }

  // ---------------------------------------------------------------- warnings

  lemma WarnedNeverPlain(r: Request, capability: string, warnings: seq<string>)
    requires warnings != []
    ensures AfterPolicy(r, capability, warnings).action != Allow
  {
    hide Join, Lower, TrimmedText, Get, Approval.Outcome, ApprovalContext;
  }

  /** A matched escalation never ends in a plain allow. */
  lemma EscalationWarns(g: Gateway, r: Request)
    requires MatchedPolicy(r, Grant(g, r)) == Some("escalate")
    ensures Decide(g, r).action != Allow
  {
    hide HardStage, HookStage, AgentStage, ModeStage, MatchedPolicy, AfterPolicy;
    HardConsistent(g.policies, r);
    AgentConsistent(r);
    HookConsistent(r.outputs, r, Grant(g, r));
    var warnings := HardWarnings(HardStage(g.policies, r)) + PolicyWarnings(r, Some("escalate"));
    assert warnings != [];
    WarnedNeverPlain(r, Grant(g, r), warnings);
  }

  /** The stages before the execution policy let the action through. */
  predicate ReachesPolicy(g: Gateway, r: Request) {
    && AgentStage(r).action == Allow && ModeStage(r).None?
    && (r.enforce ==> Grant(g, r) != "")
    && HookStage(r.outputs, r, Grant(g, r)).None?
  }

  /** A hard warning ends in a plain allow exactly when the matched execution policy says allow. */
  lemma WarnedPlainAllow(g: Gateway, r: Request)
    requires HardStage(g.policies, r).Some? && HardStage(g.policies, r).value.action == Warn
    ensures Decide(g, r).action == Allow <==> ReachesPolicy(g, r) && MatchedPolicy(r, Grant(g, r)) == Some("allow")
  {
    hide HardStage, HookStage, AgentStage, ModeStage, MatchedPolicy, AfterPolicy, Grant;
    AgentConsistent(r);
    HookConsistent(r.outputs, r, Grant(g, r));
    var policy := MatchedPolicy(r, Grant(g, r));
    WarnedNeverPlain(r, Grant(g, r), HardWarnings(HardStage(g.policies, r)) + PolicyWarnings(r, policy));
  }

  /** The first hook output that decides anything asks for a review. */
  predicate HookAsks(outputs: seq<Json>) {
    outputs != [] &&
    if outputs[0].Obj? && IsTerminal(outputs[0].fields) then false
    else (outputs[0].Obj? && HookDecision(outputs[0].fields) == "ask") || HookAsks(outputs[1..])
  }

  /** The action the approval rules choose, if there are any rules to choose from. */
  function ApprovalAction(r: Request): string {
    if r.approval.Some? then Approval.Outcome(r.approval.value, ApprovalContext(r)).action else ""
  }

  predicate StrictProfile(r: Request) {
    Lower(TrimmedText(Get(r.runtimeProfile, "approval_mode"))) in {"full", "manual", "strict"}
  }

  /** After an execution policy that decides nothing, the approval rules or the runtime profile want the user asked. */
  predicate RulesAsk(r: Request) {
    ApprovalAction(r) == "require_approval" || (ApprovalAction(r) !in {"deny", "warn", "allow"} && StrictProfile(r))
  }

  /** Some stage that is reached after the hard policies wants the user asked. */
  predicate AsksUser(g: Gateway, r: Request) {
    && AgentStage(r).action == Allow && ModeStage(r).None? && (r.enforce ==> Grant(g, r) != "")
    && (HookAsks(r.outputs)
        || (HookStage(r.outputs, r, Grant(g, r)).None?
            && var policy := MatchedPolicy(r, Grant(g, r));
               policy == Some("require_user") || (policy != Some("deny") && policy != Some("allow") && RulesAsk(r))))
  }

  /** The decision still shows the warning. */
  predicate Carries(d: Decision, warning: string) {
    d.action == Warn && warning <= d.warning
  }

  lemma JoinStarts(items: seq<string>)
    requires items != []
    ensures items[0] <= Join(items)
  {
  }

  lemma {:induction false} HookAsksExactly(outputs: seq<Json>, r: Request, capability: string)
    ensures HookAsks(outputs) ==> HookStage(outputs, r, capability) == Some(ApprovalOrBlock(r, capability, "lifecycle_hook:ask"))
    ensures !HookAsks(outputs) && HookStage(outputs, r, capability).Some? ==> HookStage(outputs, r, capability).value.action == Deny
  {
    hide IsTerminal, HookDecision;
    if outputs != [] {
      HookAsksExactly(outputs[1..], r, capability);
    }
  }

  lemma ApprovalCarries(r: Request, m: Approval.Match, capability: string, warnings: seq<string>)
    requires warnings != []
    ensures var d := ApprovalStage(r, m, capability, warnings);
            && (d.None? <==> m.action !in {"deny", "warn", "require_approval", "allow"})
            && (d.Some? && Allowed(d.value) && m.action == "require_approval" ==> !Carries(d.value, warnings[0]) && d.value.warning == "")
            && (d.Some? && Allowed(d.value) && m.action != "require_approval" ==> Carries(d.value, warnings[0]))
  {
    JoinStarts(warnings);
    JoinStarts(warnings + [r.target.name + " matched warning approval policy"]);
    hide Join;
  }

  lemma RulesCarry(r: Request, capability: string, warnings: seq<string>)
    requires warnings != []
    ensures var d := AfterPolicy(r, capability, warnings);
            Allowed(d) ==> (Carries(d, warnings[0]) <==> !RulesAsk(r)) && (RulesAsk(r) ==> d.warning == "")
  {
    JoinStarts(warnings);
    hide Join, Lower, TrimmedText, Get, Approval.Outcome, ApprovalContext, ApprovalStage;
    if r.approval.Some? {
      ApprovalCarries(r, Approval.Outcome(r.approval.value, ApprovalContext(r)), capability, warnings);
    }
  }

  lemma LaterCarry(r: Request, capability: string, warnings: seq<string>)
    requires warnings != [] && warnings[0] != ""
    ensures var d, policy := AfterGrant(r, capability, warnings), MatchedPolicy(r, capability);
            var asks := HookAsks(r.outputs)
              || (HookStage(r.outputs, r, capability).None? && (policy == Some("require_user") || (policy != Some("deny") && policy != Some("allow") && RulesAsk(r))));
            var allows := HookStage(r.outputs, r, capability).None? && policy == Some("allow");
            Allowed(d) ==> (Carries(d, warnings[0]) <==> !asks && !allows) && (asks || allows ==> d.warning == "")
  {
    hide HookStage, HookAsks, MatchedPolicy, AfterPolicy, RulesAsk;
    HookAsksExactly(r.outputs, r, capability);
    var policy := MatchedPolicy(r, capability);
    RulesCarry(r, capability, warnings + PolicyWarnings(r, policy));
  }

  /**
   An allowed action that a hard policy warned of still shows that warning exactly when no later stage
   wants the user asked and the matched execution policy does not say allow; otherwise the decision
   shows no warning at all.
   */
  lemma HardWarningKept(g: Gateway, r: Request)
    requires HardStage(g.policies, r).Some? && HardStage(g.policies, r).value.action == Warn
    requires Allowed(Decide(g, r))
    ensures var d, warning := Decide(g, r), HardStage(g.policies, r).value.warning;
            && (Carries(d, warning) <==> !AsksUser(g, r) && !(ReachesPolicy(g, r) && MatchedPolicy(r, Grant(g, r)) == Some("allow")))
            && (Carries(d, warning) || d.warning == "")
  {
    hide HardStage, HookStage, HookAsks, AgentStage, ModeStage, MatchedPolicy, AfterGrant, RulesAsk, Grant;
    HardConsistent(g.policies, r);
    AgentConsistent(r);
    LaterCarry(r, Grant(g, r), [HardStage(g.policies, r).value.warning]);
  }

  /** A demand for approval drops it: the decision is authorised and shows no warning, with no execution policy matched. */
  lemma ApprovalDropsWarning(first: set<string> -> string)
    ensures var g := Gateway([call => Some(Verdict(true, "w", false))], first);
            var r := Request(Subject("", "manual", true, ""), Target("tool", "t", "builtin", "", "", None, None), Some(map[]), map[],
                             Some(Approval.Config("require_approval", [])), map[], None, false, map[], []);
            && HardStage(g.policies, r).Some? && HardStage(g.policies, r).value.warning == "w"
            && MatchedPolicy(r, Grant(g, r)).None?
            && Decide(g, r) == Plain(RequireApproval, true, "", "approval_policy:require_approval")
  {
    hide Candidates;
    assert TrimmedText(Null) == "";
  }

  // ---------------------------------------------------------------- one more hard policy

  lemma {:induction false} HardAppend(policies: seq<Policy>, p: Policy, r: Request)
    ensures HardStage(policies + [p], r) == if HardStage(policies, r).Some? then HardStage(policies, r) else HardStage([p], r)
  {
    if policies == [] {
      assert policies + [p] == [p];
    } else {
      assert (policies + [p])[1..] == policies[1..] + [p];
      HardAppend(policies[1..], p, r);
    }
  }

  lemma WarningsDoNotDecide(g: Gateway, r: Request, warnings: seq<string>, others: seq<string>)
    ensures AfterHard(g, r, warnings).authorized == AfterHard(g, r, others).authorized
  {
    hide HookStage, MatchedPolicy, PolicyStage, AgentStage, ModeStage, RuntimeStage, Join, PolicyWarnings, Approval.Outcome, ApprovalContext;
  }

  /** The policy wants the user asked. */
  predicate DemandsApproval(p: Policy, r: Request) {
    r.toolCall.Some? && p(r.toolCall.value).Some? && p(r.toolCall.value).value.allowed && p(r.toolCall.value).value.requiresApproval
  }

  /**
   A further hard policy can only restrict, but for one case: where no earlier hard policy speaks, its
   demand for approval is answered before the stages that would refuse the action.
   */
  lemma FurtherHardPolicy(g: Gateway, r: Request, p: Policy)
    requires !Decide(g, r).authorized
    ensures Decide(g.(policies := g.policies + [p]), r).authorized
            <==> HardStage(g.policies, r).None? && DemandsApproval(p, r) && r.subject.interactive
  {
    hide AfterHard;
    var more := g.(policies := g.policies + [p]);
    HardAppend(g.policies, p, r);
    HardConsistent(g.policies, r);
    assert HardStage([p][1..], r) == None;
    WarningsDoNotDecide(g, r, [], HardWarnings(HardStage(more.policies, r)));
    SameLater(g, more, r, HardWarnings(HardStage(more.policies, r)));
  }

  lemma SameLater(g: Gateway, more: Gateway, r: Request, warnings: seq<string>)
    requires more.first == g.first
    ensures AfterHard(more, r, warnings) == AfterHard(g, r, warnings)
  {
    hide AgentStage, ModeStage, AfterGrant;
  }

  // ---------------------------------------------------------------- the rules the gateway meets

  /** The gateway never states an effect class, so the choice among rules is settled by the order of two kinds of rule. */
  lemma GatewayPassesOverTool(r: Request, i: nat, t: nat)
    requires r.approval.Some?
    requires var rules := r.approval.value.rules; t < |rules| && rules[t].toolName.Some? && Approval.Matches(rules[t], ApprovalContext(r))
    requires Approval.IsChoice(r.approval.value.rules, ApprovalContext(r), i)
    ensures r.approval.value.rules[i].toolName.None? <==> Approval.ServerFirst(r.approval.value.rules, ApprovalContext(r))
  {
    Approval.ToolRulePassedOver(r.approval.value.rules, ApprovalContext(r), i, t);
  }

  /** A full server rule listed before a rule that allows the tool refuses the tool. */
  lemma ToolRuleRefused(first: set<string> -> string)
    ensures var server := Approval.Rule(None, Some("mcp"), Some("s"), None, Some("p"), "deny");
            var tool := Approval.Rule(Some("t"), None, None, None, None, "allow");
            var r := Request(Subject("", "manual", true, "p"), Target("mcp", "t", "mcp", "", "", Some("s"), None), None, map[],
                             Some(Approval.Config("require_approval", [server, tool])), map[], None, false, map[], []);
            && Approval.Matches(tool, ApprovalContext(r))
            && Approval.Outcome(r.approval.value, ApprovalContext(r)) == Approval.Match("deny", Some(server))
            && Decide(Gateway([], first), r).action == Deny
  {
    var server := Approval.Rule(None, Some("mcp"), Some("s"), None, Some("p"), "deny");
    var tool := Approval.Rule(Some("t"), None, None, None, None, "allow");
    var r := Request(Subject("", "manual", true, "p"), Target("mcp", "t", "mcp", "", "", Some("s"), None), None, map[],
                     Some(Approval.Config("require_approval", [server, tool])), map[], None, false, map[], []);
    assert ApprovalSource(r.target) == "mcp" by { StripFixpoint("mcp"); }
    ServerBeforeTool(server, tool, ApprovalContext(r));
    assert TrimmedText(Null) == "";
    hide Candidates, ApprovalSource, Approval.Outcome, Approval.Matches;
  }

  lemma ServerBeforeTool(server: Approval.Rule, tool: Approval.Rule, c: Approval.Context)
    requires Approval.Matches(server, c) && Approval.Specificity(tool) <= Approval.Specificity(server)
    ensures Approval.Outcome(Approval.Config("require_approval", [server, tool]), c) == Approval.Match(server.action, Some(server))
  {
    hide Approval.Matches, Approval.Specificity;
    var rules := [server, tool];
    assert rules[..1] == [server] && [server][..0] == [];
    assert Approval.Ranked([server]) == [server];
    assert Approval.Ranked(rules) == Approval.Insert(tool, [server]) == [server, tool];
  }
}
