/** Ranking of approval rules: a stable sort by specificity, then the first rule that matches. */
module ApprovalEngine {
  import opened Common

  datatype Rule = Rule(
    toolName: Option<string>, toolSource: Option<string>, mcpServer: Option<string>, effectClass: Option<string>,
    profile: Option<string>, action: string)

  datatype Context = Context(
    toolName: string, toolSource: string, mcpServer: Option<string>, effectClass: Option<string>, profile: Option<string>)

  datatype Config = Config(defaultMode: string, rules: seq<Rule>)

  datatype Match = Match(action: string, rule: Option<Rule>)

  function Points(o: Option<string>, n: nat): nat {
    if o.Some? then n else 0
  }

  /** `_specificity`. */
  function Specificity(r: Rule): nat {
    Points(r.toolSource, 1) + Points(r.mcpServer, 2) + Points(r.toolName, 4) + Points(r.effectClass, 1) + Points(r.profile, 1)
  }

  /** `_matches`: every field the rule gives is the context's. */
  predicate Matches(r: Rule, c: Context) {
    && (r.toolName.Some? ==> r.toolName.value == c.toolName)
    && (r.toolSource.Some? ==> r.toolSource.value == c.toolSource)
    && (r.mcpServer.Some? ==> r.mcpServer == c.mcpServer)
    && (r.effectClass.Some? ==> r.effectClass == c.effectClass)
    && (r.profile.Some? ==> r.profile == c.profile)
  }

  /** Giving one more field restricts a rule to the contexts that have this value there. */
  lemma MatchesByField(r: Rule, c: Context, v: string)
    ensures Matches(Rule(None, None, None, None, None, r.action), c)
    ensures r.toolName.None? ==> (Matches(r.(toolName := Some(v)), c) <==> Matches(r, c) && c.toolName == v)
    ensures r.toolSource.None? ==> (Matches(r.(toolSource := Some(v)), c) <==> Matches(r, c) && c.toolSource == v)
    ensures r.mcpServer.None? ==> (Matches(r.(mcpServer := Some(v)), c) <==> Matches(r, c) && c.mcpServer == Some(v))
    ensures r.effectClass.None? ==> (Matches(r.(effectClass := Some(v)), c) <==> Matches(r, c) && c.effectClass == Some(v))
    ensures r.profile.None? ==> (Matches(r.(profile := Some(v)), c) <==> Matches(r, c) && c.profile == Some(v))
  {
  }

  function Insert(r: Rule, s: seq<Rule>): seq<Rule> {
    if s == [] || Specificity(s[|s| - 1]) >= Specificity(r) then s + [r]
    else Insert(r, s[..|s| - 1]) + [s[|s| - 1]]
  }

  /** `sorted(rules, key=_specificity, reverse=True)`, which keeps the order of equals. */
  function Ranked(rules: seq<Rule>): seq<Rule> {
    if rules == [] then [] else Insert(rules[|rules| - 1], Ranked(rules[..|rules| - 1]))
  }

  function FirstMatch(s: seq<Rule>, c: Context): Option<Rule> {
    if s == [] then None
    else if Matches(s[0], c) then Some(s[0])
    else FirstMatch(s[1..], c)
  }

  function Outcome(config: Config, c: Context): Match {
    var r := FirstMatch(Ranked(config.rules), c);
    if r.Some? then Match(r.value.action, r) else Match(config.defaultMode, None)
  }

  /** The earliest of the matching rules of the highest specificity. */
  ghost predicate IsChoice(rules: seq<Rule>, c: Context, i: nat) {
    && i < |rules| && Matches(rules[i], c)
    && forall j :: 0 <= j < |rules| && Matches(rules[j], c)
         ==> Specificity(rules[j]) < Specificity(rules[i]) || (Specificity(rules[j]) == Specificity(rules[i]) && i <= j)
  }

  /** `evaluate`. */
  method Evaluate(config: Config, c: Context) returns (m: Match)
    ensures m == Outcome(config, c)
    ensures m.rule.None? ==> m.action == config.defaultMode && forall r :: r in config.rules ==> !Matches(r, c)
    ensures m.rule.Some? ==> exists i: nat :: IsChoice(config.rules, c, i) && m.rule.value == config.rules[i] && m.action == config.rules[i].action
  {
    hide Matches, Specificity, Ranked;
    var ranked := Ranked(config.rules);
    RankedChoice(config.rules, c);
    var i := 0;
    while i < |ranked|
      invariant i <= |ranked|
      invariant FirstMatch(ranked, c) == FirstMatch(ranked[i..], c)
    {
      if Matches(ranked[i], c) {
        return Match(ranked[i].action, Some(ranked[i]));
      }
      assert ranked[i..][1..] == ranked[i + 1..];
      i := i + 1;
    }
    return Match(config.defaultMode, None);
  }

  ghost predicate Descending(s: seq<Rule>) {
    forall i, j :: 0 <= i < j < |s| ==> Specificity(s[i]) >= Specificity(s[j])
  }

  lemma {:induction false} FirstOfAppend(s: seq<Rule>, r: Rule, c: Context)
    ensures FirstMatch(s + [r], c) == if FirstMatch(s, c).Some? then FirstMatch(s, c) else if Matches(r, c) then Some(r) else None
  {
    hide Matches;
    if s == [] {
      assert (s + [r])[1..] == [];
    } else {
      assert (s + [r])[1..] == s[1..] + [r];
      FirstOfAppend(s[1..], r, c);
    }
  }

  lemma {:induction false} FirstIsMatch(s: seq<Rule>, c: Context)
    ensures FirstMatch(s, c).Some? ==> FirstMatch(s, c).value in s && Matches(FirstMatch(s, c).value, c)
  {
    hide Matches;
    if s != [] && !Matches(s[0], c) {
      FirstIsMatch(s[1..], c);
    }
  }

  /** The new rule is found first exactly when it matches and outranks what was found first before. */
  lemma {:induction false} FirstOfInsert(r: Rule, s: seq<Rule>, c: Context)
    requires Descending(s)
    ensures Descending(Insert(r, s)) && (forall x :: x in Insert(r, s) <==> x == r || x in s)
    ensures var best := FirstMatch(s, c);
            FirstMatch(Insert(r, s), c)
            == if Matches(r, c) && (best.None? || Specificity(best.value) < Specificity(r)) then Some(r) else best
  {
    hide Matches, Specificity;
    FirstIsMatch(s, c);
    if s == [] || Specificity(s[|s| - 1]) >= Specificity(r) {
      FirstOfAppend(s, r, c);
    } else {
      var init, last := s[..|s| - 1], s[|s| - 1];
      assert s == init + [last];
      FirstOfInsert(r, init, c);
      FirstIsMatch(init, c);
      FirstOfAppend(init, last, c);
      FirstOfAppend(Insert(r, init), last, c);
      assert forall x :: x in init ==> x in s && Specificity(x) >= Specificity(last);
      DescendingAppend(Insert(r, init), last);
    }
  }

  lemma DescendingAppend(s: seq<Rule>, r: Rule)
    requires Descending(s) && forall x :: x in s ==> Specificity(x) >= Specificity(r)
    ensures Descending(s + [r])
  {
    hide Specificity;
    forall i | 0 <= i < |s| ensures Specificity((s + [r])[i]) >= Specificity(r) {
      assert s[i] in s;
    }
  }

  /** Sorting and taking the first match chooses the earliest matching rule of maximal specificity. */
  lemma {:induction false} RankedChoice(rules: seq<Rule>, c: Context)
    ensures Descending(Ranked(rules))
    ensures var first := FirstMatch(Ranked(rules), c);
            && (first.None? ==> forall r :: r in rules ==> !Matches(r, c))
            && (first.Some? ==> exists i: nat :: IsChoice(rules, c, i) && rules[i] == first.value)
  {
    hide Matches, Specificity;
    if rules != [] {
      var n := |rules| - 1;
      var init, last := rules[..n], rules[n];
      RankedChoice(init, c);
      FirstOfInsert(last, Ranked(init), c);
      var best := FirstMatch(Ranked(init), c);
      assert rules == init + [last];
      hide Descending, FirstMatch, IsChoice, Insert;
      if best.None? {
        FirstChoice(init, last, c);
        assert forall r :: r in rules <==> r in init || r == last;
      } else {
        var i: nat :| IsChoice(init, c, i) && init[i] == best.value;
        ChoiceGrows(init, last, c, i);
      }
    }
  }

  lemma FirstChoice(init: seq<Rule>, last: Rule, c: Context)
    requires forall r :: r in init ==> !Matches(r, c)
    ensures Matches(last, c) ==> IsChoice(init + [last], c, |init|)
  {
    hide Matches, Specificity;
    forall j | 0 <= j < |init| ensures !Matches((init + [last])[j], c) {
      assert init[j] in init;
    }
  }

  lemma ChoiceGrows(init: seq<Rule>, last: Rule, c: Context, i: nat)
    requires IsChoice(init, c, i)
    ensures var rules := init + [last];
            && rules[i] == init[i]
            && if Matches(last, c) && Specificity(init[i]) < Specificity(last) then IsChoice(rules, c, |init|) else IsChoice(rules, c, i)
  {
    hide Matches, Specificity;
    forall j | 0 <= j < |init| ensures init[j] == (init + [last])[j] {
    }
  }

  /** A rule for one tool of one server outranks every rule that names no tool. */
  lemma ToolOfServerOutranks(r: Rule, other: Rule)
    requires r.toolName.Some? && r.mcpServer.Some? && other.toolName.None?
    ensures Specificity(r) > Specificity(other)
  {
  }

  /** How many of source, effect class and profile a rule gives. */
  function Details(r: Rule): nat {
    Points(r.toolSource, 1) + Points(r.effectClass, 1) + Points(r.profile, 1)
  }

  /**
   Any other rule for a tool is met or outranked by a rule that names none exactly when the latter names
   a server and the former does not, and gives at least two, or three, details more.
   */
  lemma ToolOutrankedExactly(r: Rule, other: Rule)
    requires r.toolName.Some? && other.toolName.None?
    ensures Specificity(r) <= Specificity(other) <==> r.mcpServer.None? && other.mcpServer.Some? && Details(other) >= Details(r) + 2
    ensures Specificity(r) < Specificity(other) <==> r.mcpServer.None? && other.mcpServer.Some? && Details(other) == 3 && Details(r) == 0
  {
  }

  /** The rule gives a tool and nothing else. */
  predicate ToolAlone(r: Rule) {
    r.toolName.Some? && r.mcpServer.None? && Details(r) == 0
  }

  /** The rule gives source, server and profile, and nothing else. */
  predicate ServerInFull(r: Rule) {
    r.toolName.None? && r.toolSource.Some? && r.mcpServer.Some? && r.profile.Some? && r.effectClass.None?
  }

  /** In a context without an effect class, only such rules meet, and they tie. */
  lemma MatchingRanks(r: Rule, other: Rule, c: Context)
    requires c.effectClass.None? && Matches(r, c) && Matches(other, c) && r.toolName.Some? && other.toolName.None?
    ensures Specificity(r) >= Specificity(other)
    ensures Specificity(r) == Specificity(other) <==> ToolAlone(r) && ServerInFull(other)
  {
  }

  /** Before every matching rule for a tool, which gives nothing else, stands a matching full server rule. */
  ghost predicate ServerFirst(rules: seq<Rule>, c: Context) {
    forall j :: 0 <= j < |rules| && rules[j].toolName.Some? && Matches(rules[j], c) ==>
      ToolAlone(rules[j]) && exists p :: 0 <= p < j && ServerInFull(rules[p]) && Matches(rules[p], c)
  }

  /**
   In a context without an effect class, where some rule for the tool matches, a rule that names no tool
   is chosen exactly in that case.
   */
  lemma ToolRulePassedOver(rules: seq<Rule>, c: Context, i: nat, t: nat)
    requires c.effectClass.None? && IsChoice(rules, c, i)
    requires t < |rules| && rules[t].toolName.Some? && Matches(rules[t], c)
    ensures rules[i].toolName.None? <==> ServerFirst(rules, c)
  {
    hide Matches, Specificity, ToolAlone, ServerInFull;
    if rules[i].toolName.None? {
      forall j | 0 <= j < |rules| && rules[j].toolName.Some? && Matches(rules[j], c)
        ensures ToolAlone(rules[j]) && i < j && ServerInFull(rules[i])
      {
        MatchingRanks(rules[j], rules[i], c);
      }
    } else if ServerFirst(rules, c) {
      var p :| 0 <= p < i && ServerInFull(rules[p]) && Matches(rules[p], c);
      ServerNamesNoTool(rules[p]);
      MatchingRanks(rules[i], rules[p], c);
    }
  }

  lemma ServerNamesNoTool(r: Rule)
    requires ServerInFull(r)
    ensures r.toolName.None?
  {
  }
}
