/** The plausibility rules of new/backend/app/rules_engine.py: rules are
    read from a YAML document, and a transaction context raises one issue
    per rule whose condition holds. Conditions are Python expressions run
    by `eval`; here a condition is evaluated by `run`, a parameter that
    yields the value's truthiness or reports that evaluation raised. */
module RulesEngine {
  import opened Common

  datatype Rule = Rule(id: string, description: string, condition: string, severity: string)

  /** What evaluating a condition in a context gives: an exception, or a
      value of the given truthiness. */
  datatype Outcome = Raised | Value(truthy: bool)

  /** `Rule.eval`: the truthiness of the condition's value; a condition
      that raises counts as not holding. */
  function Eval<C>(r: Rule, ctx: C, run: (string, C) -> Outcome): (holds: bool)
    ensures holds <==> run(r.condition, ctx).Value? && run(r.condition, ctx).truthy
    ensures run(r.condition, ctx) == Raised ==> !holds
  {
    match run(r.condition, ctx)
    case Raised => false
    case Value(b) => b
  }

  /** One entry under `rules:` in the YAML document, keys to values. */
  type Entry = map<string, string>

  function Get(e: Entry, key: string, default: string): (v: string)
    ensures key in e ==> v == e[key]
    ensures key !in e ==> v == default
  {
    if key in e then e[key] else default
  }

  /** The rule an entry describes, with `''` for a missing description and
      `'info'` for a missing severity; None when `id` or `condition` is
      missing, where the lookup raises KeyError. */
  function RuleOf(e: Entry): (r: Option<Rule>)
    ensures r.Some? <==> "id" in e && "condition" in e
    ensures r.Some? ==> r.value.id == e["id"] && r.value.condition == e["condition"]
    ensures r.Some? ==> r.value.description == (if "description" in e then e["description"] else "")
    ensures r.Some? ==> r.value.severity == (if "severity" in e then e["severity"] else "info")
  {
    if "id" in e && "condition" in e then
      Some(Rule(e["id"], Get(e, "description", ""), e["condition"], Get(e, "severity", "info")))
    else None
  }

  function RulesOf(entries: seq<Entry>): (r: Option<seq<Rule>>)
    ensures r.Some? <==> forall i :: 0 <= i < |entries| ==> RuleOf(entries[i]).Some?
    ensures r.Some? ==> |r.value| == |entries|
    ensures r.Some? ==> forall i :: 0 <= i < |entries| ==> RuleOf(entries[i]) == Some(r.value[i])
  {
    if |entries| == 0 then Some([])
    else
      match RulesOf(entries[..|entries| - 1])
      case None => None
      case Some(rs) =>
        match RuleOf(entries[|entries| - 1])
        case None => None
        case Some(last) => Some(rs + [last])
  }

  /** `load_rules`: the rules under the document's `rules` key, in order;
      a document without that key has no rules; None when some entry
      lacks `id` or `condition` and loading raises. */
  function LoadRules(doc: map<string, seq<Entry>>): (r: Option<seq<Rule>>)
    ensures "rules" !in doc ==> r == Some([])
    ensures "rules" in doc ==> r == RulesOf(doc["rules"])
  {
    RulesOf(if "rules" in doc then doc["rules"] else [])
  }

  /** An issue: the rule's id, description and severity. */
  datatype Issue = Issue(id: string, description: string, severity: string)

  function IssueOf(r: Rule): (i: Issue)
    ensures i.id == r.id && i.description == r.description && i.severity == r.severity
  {
    Issue(r.id, r.description, r.severity)
  }

  /** The issues raised by `rules` in `ctx`, in rule order. */
  function IssuesOf<C>(rules: seq<Rule>, ctx: C, run: (string, C) -> Outcome): seq<Issue> {
    if |rules| == 0 then []
    else
      var last := rules[|rules| - 1];
      IssuesOf(rules[..|rules| - 1], ctx, run) + (if Eval(last, ctx, run) then [IssueOf(last)] else [])
  }

  /** The issues of the rules `rs`, one each, in order. */
  function IssuesFor(rs: seq<Rule>): (r: seq<Issue>)
    ensures |r| == |rs| && forall i :: 0 <= i < |rs| ==> r[i] == IssueOf(rs[i])
  {
    seq(|rs|, i requires 0 <= i < |rs| => IssueOf(rs[i]))
  }

  /** There are never more issues than rules. */
  lemma {:induction false} IssuesBound<C>(rules: seq<Rule>, ctx: C, run: (string, C) -> Outcome)
    ensures |IssuesOf(rules, ctx, run)| <= |rules|
  {
    if |rules| > 0 {
      IssuesBound(rules[..|rules| - 1], ctx, run);
    }
  }

  /** Rules are evaluated independently: the issues of two rule lists
      one after the other are those of each, concatenated. */
  lemma {:induction false} IssuesAppend<C>(a: seq<Rule>, b: seq<Rule>, ctx: C, run: (string, C) -> Outcome)
    ensures IssuesOf(a + b, ctx, run) == IssuesOf(a, ctx, run) + IssuesOf(b, ctx, run)
    decreases |b|
  {
    if |b| == 0 {
      assert a + b == a;
    } else {
      var b' := b[..|b| - 1];
      assert (a + b)[..|a + b| - 1] == a + b';
      IssuesAppend(a, b', ctx, run);
    }
  }

  /** A rule whose condition raises adds no issue and does not stop the
      rules after it. */
  lemma RaisingRuleSkipped<C>(before: seq<Rule>, r: Rule, after: seq<Rule>, ctx: C, run: (string, C) -> Outcome)
    requires run(r.condition, ctx) == Raised
    ensures IssuesOf(before + [r] + after, ctx, run) == IssuesOf(before + after, ctx, run)
  {
    IssuesAppend(before + [r], after, ctx, run);
    IssuesAppend(before, [r], ctx, run);
    IssuesAppend(before, after, ctx, run);
    assert [r][..0] == [];
  }

  /** The issues are exactly those of the rules that hold, in rule order. */
  lemma {:induction false} IssuesOfHolding<C>(rules: seq<Rule>, ctx: C, run: (string, C) -> Outcome)
    ensures IssuesOf(rules, ctx, run) == IssuesFor(Filter(rules, (r: Rule) => Eval(r, ctx, run)))
  {
    if |rules| > 0 {
      var n := |rules| - 1;
      var last := rules[n];
      var p := (r: Rule) => Eval(r, ctx, run);
      IssuesOfHolding(rules[..n], ctx, run);
      FilterSnoc(rules, n, p);
      assert rules[..n + 1] == rules;
      var held := Filter(rules[..n], p);
      if Eval(last, ctx, run) {
        assert IssuesFor(held + [last]) == IssuesFor(held) + [IssueOf(last)];
      }
    }
  }

  /** An issue is raised exactly when some rule holds that carries its id,
      description and severity. */
  lemma IssuesMembers<C>(rules: seq<Rule>, ctx: C, run: (string, C) -> Outcome)
    ensures forall i :: i in IssuesOf(rules, ctx, run) <==>
      exists r :: r in rules && Eval(r, ctx, run) && IssueOf(r) == i
  {
    IssuesOfHolding(rules, ctx, run);
    var held := Filter(rules, (r: Rule) => Eval(r, ctx, run));
    forall i | i in IssuesOf(rules, ctx, run)
      ensures exists r :: r in rules && Eval(r, ctx, run) && IssueOf(r) == i
    {
      var k :| 0 <= k < |held| && IssuesFor(held)[k] == i;
      assert held[k] in held;
    }
    forall r | r in rules && Eval(r, ctx, run)
      ensures IssueOf(r) in IssuesOf(rules, ctx, run)
    {
      var k :| 0 <= k < |held| && held[k] == r;
      assert IssuesFor(held)[k] == IssueOf(r);
    }
  }

  /** `evaluate_rules`: runs every rule in order and collects an issue for
      each rule that holds. */
  method EvaluateRules<C>(rules: seq<Rule>, ctx: C, run: (string, C) -> Outcome) returns (issues: seq<Issue>)
    ensures issues == IssuesOf(rules, ctx, run)
  {
    issues := [];
    for i := 0 to |rules|
      invariant issues == IssuesOf(rules[..i], ctx, run)
    {
      assert rules[..i + 1][..i] == rules[..i];
      if Eval(rules[i], ctx, run) {
        issues := issues + [Issue(rules[i].id, rules[i].description, rules[i].severity)];
      }
    }
    assert rules[..|rules|] == rules;
  }
}
