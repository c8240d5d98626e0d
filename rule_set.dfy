/**
 * apply_quality_rules: every rule of the list is evaluated against its
 * column, or skipped when the table has no such column; the passed and
 * failed rules are counted and the pass percentage is taken over all rules,
 * skipped ones included.
 */
module RuleSet {
  import opened Wrappers
  import opened Numbers
  import opened Frames
  import opened Reports
  import opened RuleJson
  import opened Models
  import opened RuleCondition

  /** The entry for one rule, given its parsed definition. */
  function EntryFor(t: Table, rule: RuleRecord, d: RuleDefinition, rt: Runtime): RuleEntry
  {
    match Lookup(t.columns, d.column)
    case None => Skipped(rule.id, rule.name, d.column)
    case Some(c) => Evaluated(rule.id, rule.name, rule.ruleType, ApplyRuleCondition(c, d.condition, d.value, rt))
  }

  /** What one pass of the loop makes of a rule, None when its stored
      definition does not parse. */
  type Step = RuleRecord -> Option<RuleEntry>

  /** The loop body of apply_quality_rules on this table. */
  function RuleStep(t: Table, rt: Runtime): Step
  {
    (rule: RuleRecord) =>
      match Decode(rule.definitionText)
      case None => None
      case Some(d) => Some(EntryFor(t, rule, d, rt))
  }

  /** The entries of a list of rules in order, or None as soon as one step
      fails (json.loads raises out of the loop). */
  function Entries(rules: seq<RuleRecord>, step: Step): Option<seq<RuleEntry>>
  {
    if rules == [] then Some([])
    else
      match Entries(rules[..|rules| - 1], step)
      case None => None
      case Some(es) =>
        match step(rules[|rules| - 1])
        case None => None
        case Some(e) => Some(es + [e])
  }

  predicate IsPassed(e: RuleEntry)
  {
    e.Evaluated? && e.outcome.passed
  }

  predicate IsFailed(e: RuleEntry)
  {
    e.Evaluated? && !e.outcome.passed
  }

  predicate IsSkipped(e: RuleEntry)
  {
    e.Skipped?
  }

  /** `round(passed / rule_count * 100, 2)`, left at 0 for no rules. */
  function PassPercentage(passed: nat, ruleCount: nat): real
  {
    if ruleCount > 0 then Round2(Percent(passed, ruleCount)) else 0.0
  }

  /** What apply_quality_rules returns for the rules as stored. */
  function RuleSetOf(t: Table, rules: seq<RuleRecord>, rt: Runtime): Result<RuleSetResult, AssessmentError>
  {
    match Entries(rules, RuleStep(t, rt))
    case None => Err(InvalidRuleDefinition)
    case Some(es) =>
      var passed := Count(es, IsPassed);
      Ok(RuleSetResult(|rules|, passed, Count(es, IsFailed), PassPercentage(passed, |rules|), es))
  }

  lemma {:induction false} EntriesPrefixFails(rules: seq<RuleRecord>, i: nat, step: Step)
    requires i <= |rules| && Entries(rules[..i], step).None?
    ensures Entries(rules, step).None?
    decreases |rules| - i
  {
    if i < |rules| {
      assert rules[..i + 1][..i] == rules[..i];
      EntriesPrefixFails(rules, i + 1, step);
    } else {
      assert rules[..i] == rules;
    }
  }

  /** One step of the loop: the entries of one more rule. */
  lemma EntriesStep(rules: seq<RuleRecord>, i: nat, es: seq<RuleEntry>, e: RuleEntry, step: Step)
    requires i < |rules| && Entries(rules[..i], step) == Some(es)
    requires step(rules[i]) == Some(e)
    ensures Entries(rules[..i + 1], step) == Some(es + [e])
  {
    assert rules[..i + 1][..i] == rules[..i];
  }

  lemma CountsStep(es: seq<RuleEntry>, e: RuleEntry)
    ensures Count(es + [e], IsPassed) == Count(es, IsPassed) + (if IsPassed(e) then 1 else 0)
    ensures Count(es + [e], IsFailed) == Count(es, IsFailed) + (if IsFailed(e) then 1 else 0)
  {
    assert (es + [e])[..|es|] == es;
  }

  /** The body of the loop for one rule: its definition is read, then the
      rule is skipped when the table lacks the column and evaluated
      otherwise; None where json.loads raises. */
  method EvaluateRule(t: Table, rule: DataQualityRule, rt: Runtime) returns (entry: Option<RuleEntry>)
    ensures entry == RuleStep(t, rt)(rule.Record())
  {
    var d := rule.GetRuleDefinition();
    if d.None? {
      return None;
    }
    var definition := d.value;
    var column := Lookup(t.columns, definition.column);
    if column.None? {
      entry := Some(Skipped(rule.id, rule.name, definition.column));
    } else {
      var outcome := ApplyRuleCondition(column.value, definition.condition, definition.value, rt);
      entry := Some(Evaluated(rule.id, rule.name, rule.ruleType, outcome));
    }
  }

  /** The result of the whole loop, once every rule has its entry. */
  lemma RuleSetOfEntries(t: Table, rules: seq<RuleRecord>, rt: Runtime, es: seq<RuleEntry>, passed: nat, failed: nat)
    requires Entries(rules, RuleStep(t, rt)) == Some(es)
    requires passed == Count(es, IsPassed) && failed == Count(es, IsFailed)
    ensures RuleSetOf(t, rules, rt) == Ok(RuleSetResult(|rules|, passed, failed, PassPercentage(passed, |rules|), es))
  {
  }

  /** One more rule through the loop body. */
  lemma LoopStep(rules: seq<RuleRecord>, i: nat, es: seq<RuleEntry>, e: RuleEntry, step: Step, passed: nat, failed: nat)
    requires i < |rules| && Entries(rules[..i], step) == Some(es)
    requires step(rules[i]) == Some(e)
    requires passed == Count(es, IsPassed) && failed == Count(es, IsFailed)
    ensures Entries(rules[..i + 1], step) == Some(es + [e])
    ensures passed + (if IsPassed(e) then 1 else 0) == Count(es + [e], IsPassed)
    ensures failed + (if IsFailed(e) then 1 else 0) == Count(es + [e], IsFailed)
  {
    EntriesStep(rules, i, es, e, step);
    CountsStep(es, e);
  }

  /** A rule whose step fails makes the whole list fail. */
  lemma LoopFails(rules: seq<RuleRecord>, i: nat, es: seq<RuleEntry>, step: Step)
    requires i < |rules| && Entries(rules[..i], step) == Some(es)
    requires step(rules[i]).None?
    ensures Entries(rules, step).None?
  {
    assert rules[..i + 1][..i] == rules[..i];
    EntriesPrefixFails(rules, i + 1, step);
  }

  /** The loop of apply_quality_rules: counts as it goes and appends one
      entry per rule. */
  method ApplyQualityRules(t: Table, rules: seq<DataQualityRule>, rt: Runtime) returns (r: Result<RuleSetResult, AssessmentError>)
    ensures r == RuleSetOf(t, Records(rules), rt)
  {
    var records := Records(rules);
    ghost var step := RuleStep(t, rt);
    var passed, failed := 0, 0;
    var details: seq<RuleEntry> := [];
    for i := 0 to |rules|
      invariant Entries(records[..i], step) == Some(details)
      invariant passed == Count(details, IsPassed) && failed == Count(details, IsFailed)
    {
      var entry := EvaluateRule(t, rules[i], rt);
      assert records[i] == rules[i].Record();
      if entry.None? {
        LoopFails(records, i, details, step);
        return Err(InvalidRuleDefinition);
      }
      var e := entry.value;
      LoopStep(records, i, details, e, step, passed, failed);
      if e.Evaluated? {
        if e.outcome.passed {
          passed := passed + 1;
        } else {
          failed := failed + 1;
        }
      }
      details := details + [e];
    }
    assert records[..|rules|] == records;
    RuleSetOfEntries(t, records, rt, details, passed, failed);
    r := Ok(RuleSetResult(|rules|, passed, failed, PassPercentage(passed, |rules|), details));
  }

  lemma {:induction false} EntriesDefined(rules: seq<RuleRecord>, step: Step)
    ensures Entries(rules, step).Some? <==> forall i :: 0 <= i < |rules| ==> step(rules[i]).Some?
  {
    if rules != [] {
      var n := |rules| - 1;
      var init := rules[..n];
      EntriesDefined(init, step);
      assert forall i :: 0 <= i < n ==> init[i] == rules[i];
    }
  }

  /** Whenever every step succeeds, there is one entry per rule in input
      order, made from that rule. */
  lemma {:induction false} EntriesPointwise(rules: seq<RuleRecord>, step: Step)
    requires Entries(rules, step).Some?
    ensures forall i :: 0 <= i < |rules| ==> step(rules[i]).Some?
    ensures var es := Entries(rules, step).value;
      && |es| == |rules|
      && forall i :: 0 <= i < |rules| ==> es[i] == step(rules[i]).value
  {
    EntriesDefined(rules, step);
    if rules != [] {
      var n := |rules| - 1;
      var init := rules[..n];
      EntriesPointwise(init, step);
      var es := Entries(init, step).value;
      var all := Entries(rules, step).value;
      assert all == es + [step(rules[n]).value];
      forall i | 0 <= i < |rules|
        ensures all[i] == step(rules[i]).value
      {
        if i < n {
          assert init[i] == rules[i];
        }
      }
    }
  }

  /** A rule's step fails exactly when its definition does not parse; a
      rule is skipped exactly when the table lacks its column; either way
      the entry names the rule. */
  lemma RuleStepCases(t: Table, rt: Runtime, rule: RuleRecord)
    ensures RuleStep(t, rt)(rule).Some? <==> Decode(rule.definitionText).Some?
    ensures RuleStep(t, rt)(rule).Some? ==>
      var e := RuleStep(t, rt)(rule).value;
      && e.ruleId == rule.id && e.ruleName == rule.name
      && (e.Skipped? <==> !HasColumn(t, Decode(rule.definitionText).value.column))
  {
  }

  /** The counts partition the rules, the pass percentage is a percentage
      over all rules (0 when there are none), a rule is skipped exactly
      when its column is missing, and the run fails exactly when some
      stored definition does not parse. */
  lemma RuleSetCounts(t: Table, rules: seq<RuleRecord>, rt: Runtime)
    ensures RuleSetOf(t, rules, rt).Ok? <==> forall i :: 0 <= i < |rules| ==> Decode(rules[i].definitionText).Some?
    ensures RuleSetOf(t, rules, rt).Ok? ==>
      var r := RuleSetOf(t, rules, rt).value;
      && r.ruleCount == |rules| == |r.details|
      && r.passedRules + r.failedRules + Count(r.details, IsSkipped) == r.ruleCount
      && 0.0 <= r.passPercentage <= 100.0
      && (rules == [] ==> r.passPercentage == 0.0)
      && forall i :: 0 <= i < |rules| ==>
           && r.details[i].ruleId == rules[i].id && r.details[i].ruleName == rules[i].name
           && (r.details[i].Skipped? <==> !HasColumn(t, Decode(rules[i].definitionText).value.column))
  {
    EntriesDefined(rules, RuleStep(t, rt));
    forall i | 0 <= i < |rules|
      ensures RuleStep(t, rt)(rules[i]).Some? <==> Decode(rules[i].definitionText).Some?
    {
      RuleStepCases(t, rt, rules[i]);
    }
    if RuleSetOf(t, rules, rt).Ok? {
      EntriesPointwise(rules, RuleStep(t, rt));
      var r := RuleSetOf(t, rules, rt).value;
      var es := r.details;
      forall i | 0 <= i < |rules|
        ensures es[i].ruleId == rules[i].id && es[i].ruleName == rules[i].name
        ensures es[i].Skipped? <==> !HasColumn(t, Decode(rules[i].definitionText).value.column)
      {
        RuleStepCases(t, rt, rules[i]);
      }
      CountDisjointUnion(es, IsPassed, IsFailed, (e: RuleEntry) => e.Evaluated?);
      CountPartition(es, IsSkipped, (e: RuleEntry) => e.Evaluated?);
      PercentBounds(r.passedRules, |rules|);
      Round2Percent(Percent(r.passedRules, |rules|));
    }
  }
}
