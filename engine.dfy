/** The rule engine: `Validate` runs every rule in order and collects every failure. */
module Engine {
  import opened Values
  import opened Text
  import opened Resolver

  /** `ValidationRule` without its Description, which nothing reads. */
  datatype ValidationRule = ValidationRule(field: string, validations: seq<ValidationFunc>)

  /** The item `Validate` appends for one validator result: nothing for the zero item, otherwise
      the result with its Field overwritten by the rule's field. */
  function Stamp(field: string, result: ValidationErrorItem): (items: seq<ValidationErrorItem>)
    ensures |items| <= 1
    ensures items == [] <==> result == Pass
    ensures items != [] ==> items[0].field == field && items[0].message == result.message
  {
    if result == Pass then [] else [result.(field := field)]
  }

  /** Every validator may be applied to the value (none of them would panic on it). */
  ghost predicate Applicable(value: Value, validations: seq<ValidationFunc>) {
    forall j | 0 <= j < |validations| :: validations[j].requires(value)
  }

  /** The rule's validators accept the value its field resolves to, when it resolves. */
  ghost predicate RuleApplicable(data: Data, rule: ValidationRule) {
    ResolveField(data, rule.field).Ok? ==> Applicable(ResolveField(data, rule.field).value, rule.validations)
  }

  /** Every rule's validators accept the value that rule resolves to; stated from the back, as
      `Errors` consumes the rules (`RulesApplicableEvery` reads it rule by rule). */
  ghost predicate RulesApplicable(data: Data, rules: seq<ValidationRule>) {
    rules == [] ||
    (RulesApplicable(data, rules[..|rules| - 1]) && RuleApplicable(data, rules[|rules| - 1]))
  }

  /** The applicability condition holds exactly when it holds for every rule in the list. */
  lemma {:induction false} RulesApplicableEvery(data: Data, rules: seq<ValidationRule>)
    ensures RulesApplicable(data, rules) <==> forall i | 0 <= i < |rules| :: RuleApplicable(data, rules[i])
  {
    if rules != [] {
      var init := rules[..|rules| - 1];
      RulesApplicableEvery(data, init);
      assert forall i | 0 <= i < |init| :: init[i] == rules[i];
    }
  }

  /** Every prefix of an applicable rule list is applicable. */
  lemma ApplicablePrefix(data: Data, rules: seq<ValidationRule>, k: nat)
    requires RulesApplicable(data, rules) && k <= |rules|
    ensures RulesApplicable(data, rules[..k])
  {
    RulesApplicableEvery(data, rules);
    RulesApplicableEvery(data, rules[..k]);
    assert forall i | 0 <= i < k :: rules[..k][i] == rules[i];
  }

  /** The items the inner loop appends for one resolved value: every validator runs, in order. */
  function RunValidations(field: string, value: Value, validations: seq<ValidationFunc>): seq<ValidationErrorItem>
    requires Applicable(value, validations)
  {
    if validations == [] then []
    else
      var last := |validations| - 1;
      RunValidations(field, value, validations[..last]) + Stamp(field, validations[last](value))
  }

  /** The items one rule contributes: the resolver's error alone, or its validators' failures. */
  function RuleErrors(data: Data, rule: ValidationRule): seq<ValidationErrorItem>
    requires RuleApplicable(data, rule)
  {
    match ResolveField(data, rule.field)
    case Err(message) => [ValidationErrorItem(rule.field, message)]
    case Ok(value) => RunValidations(rule.field, value, rule.validations)
  }

  /** What `Validate` returns: the rules' contributions concatenated in rule order. */
  function Errors(data: Data, rules: seq<ValidationRule>): seq<ValidationErrorItem>
    requires RulesApplicable(data, rules)
  {
    if rules == [] then []
    else
      var last := |rules| - 1;
      Errors(data, rules[..last]) + RuleErrors(data, rules[last])
  }

  /** One more validator: the prefix through j yields the prefix before j, then j's item. */
  lemma RunValidationsStep(field: string, value: Value, validations: seq<ValidationFunc>, j: nat)
    requires Applicable(value, validations) && j < |validations|
    ensures Applicable(value, validations[..j]) && Applicable(value, validations[..j + 1])
    ensures RunValidations(field, value, validations[..j + 1]) ==
              RunValidations(field, value, validations[..j]) + Stamp(field, validations[j](value))
  {
    var prefix := validations[..j + 1];
    assert prefix[..j] == validations[..j] && prefix[j] == validations[j];
  }

  /** One more rule: the prefix through k yields the prefix before k, then rule k's items. */
  lemma ErrorsStep(data: Data, rules: seq<ValidationRule>, k: nat)
    requires RulesApplicable(data, rules) && k < |rules|
    ensures RuleApplicable(data, rules[k])
    ensures RulesApplicable(data, rules[..k]) && RulesApplicable(data, rules[..k + 1])
    ensures Errors(data, rules[..k + 1]) == Errors(data, rules[..k]) + RuleErrors(data, rules[k])
  {
    ApplicablePrefix(data, rules, k);
    RulesApplicableEvery(data, rules);
    assert rules[..k + 1] == rules[..k] + [rules[k]];
    ErrorsSnoc(data, rules[..k], rules[k]);
  }

  /** The inner loop of `Validate`: run every validator on the resolved value, in order, and keep
      each non-zero result stamped with the rule's field. */
  method RunRule(field: string, value: Value, validations: seq<ValidationFunc>) returns (items: seq<ValidationErrorItem>)
    requires Applicable(value, validations)
    ensures items == RunValidations(field, value, validations)
  {
    items := [];
    for j := 0 to |validations|
      invariant items == RunValidations(field, value, validations[..j])
    {
      RunValidationsStep(field, value, validations, j);
      var validationErr := validations[j](value);
      if validationErr != Pass {
        validationErr := validationErr.(field := field);
        items := items + [validationErr];
      }
    }
    assert validations[..|validations|] == validations;
  }

  /** `Validate`: resolve each rule's field; on failure append the resolver's error and skip the
      validators; otherwise run every validator and append each non-zero result, stamped with the
      rule's field. */
  method Validate(data: Data, rules: seq<ValidationRule>) returns (validationErrs: seq<ValidationErrorItem>)
    requires RulesApplicable(data, rules)
    ensures validationErrs == Errors(data, rules)
  {
    validationErrs := [];
    for k := 0 to |rules|
      invariant RulesApplicable(data, rules[..k])
      invariant validationErrs == Errors(data, rules[..k])
    {
      var rule := rules[k];
      ErrorsStep(data, rules, k);
      var fieldValue := GetField(data, rule.field);
      if fieldValue.Err? {
        validationErrs := validationErrs + [ValidationErrorItem(rule.field, fieldValue.error)];
      } else {
        var items := RunRule(rule.field, fieldValue.value, rule.validations);
        validationErrs := validationErrs + items;
      }
    }
    assert rules[..|rules|] == rules;
  }

  // ---------------------------------------------------------------------------------------
  // Properties of the collected list

  /** The no-panic condition holds for a concatenation of rule lists exactly when it holds for both. */
  lemma ApplicableSplit(data: Data, r1: seq<ValidationRule>, r2: seq<ValidationRule>)
    ensures RulesApplicable(data, r1 + r2) <==> RulesApplicable(data, r1) && RulesApplicable(data, r2)
  {
    var all := r1 + r2;
    RulesApplicableEvery(data, r1);
    RulesApplicableEvery(data, r2);
    RulesApplicableEvery(data, all);
    assert forall i | 0 <= i < |r1| :: all[i] == r1[i];
    assert forall i | 0 <= i < |r2| :: all[|r1| + i] == r2[i];
  }

  /** A single rule's list is that rule's contribution. */
  lemma ErrorsSingleton(data: Data, rule: ValidationRule)
    requires RuleApplicable(data, rule)
    ensures RulesApplicable(data, [rule])
    ensures Errors(data, [rule]) == RuleErrors(data, rule)
  {
    assert [rule][..0] == [];
  }

  /** Rule order is output order: the items for r1 + r2 are r1's items followed by r2's. */
  lemma {:induction false} ErrorsAppend(data: Data, r1: seq<ValidationRule>, r2: seq<ValidationRule>)
    requires RulesApplicable(data, r1) && RulesApplicable(data, r2)
    ensures RulesApplicable(data, r1 + r2)
    ensures Errors(data, r1 + r2) == Errors(data, r1) + Errors(data, r2)
  {
    ApplicableSplit(data, r1, r2);
    if r2 == [] {
      assert r1 + r2 == r1;
    } else {
      var init := r2[..|r2| - 1];
      var rule := r2[|r2| - 1];
      ErrorsAppend(data, r1, init);
      ErrorsSnoc(data, r1 + init, rule);
      ErrorsSnoc(data, init, rule);
      SplitLast(r1, r2);
      AppendAssoc(Errors(data, r1), Errors(data, init), RuleErrors(data, rule));
    }
  }

  /** Splitting off the last element of the right operand of a concatenation. */
  lemma SplitLast<T>(a: seq<T>, b: seq<T>)
    requires b != []
    ensures b == b[..|b| - 1] + [b[|b| - 1]]
    ensures a + b == (a + b[..|b| - 1]) + [b[|b| - 1]]
  {
    assert b == b[..|b| - 1] + [b[|b| - 1]];
  }

  /** Appending one rule appends its contribution. */
  lemma ErrorsSnoc(data: Data, rules: seq<ValidationRule>, rule: ValidationRule)
    requires RulesApplicable(data, rules) && RuleApplicable(data, rule)
    ensures RulesApplicable(data, rules + [rule])
    ensures Errors(data, rules + [rule]) == Errors(data, rules) + RuleErrors(data, rule)
  {
    var all := rules + [rule];
    assert all[..|all| - 1] == rules && all[|all| - 1] == rule;
  }

  /** The no-panic condition holds for a concatenation of validator lists exactly when it holds
      for both. */
  lemma ApplicableConcat(value: Value, v1: seq<ValidationFunc>, v2: seq<ValidationFunc>)
    ensures Applicable(value, v1 + v2) <==> Applicable(value, v1) && Applicable(value, v2)
  {
    var all := v1 + v2;
    assert forall j | 0 <= j < |v1| :: all[j] == v1[j];
    assert forall j | 0 <= j < |v2| :: all[|v1| + j] == v2[j];
  }

  /** Appending one validator appends its stamped result. */
  lemma RunValidationsSnoc(field: string, value: Value, validations: seq<ValidationFunc>, f: ValidationFunc)
    requires Applicable(value, validations) && f.requires(value)
    ensures Applicable(value, validations + [f])
    ensures RunValidations(field, value, validations + [f]) ==
              RunValidations(field, value, validations) + Stamp(field, f(value))
  {
    ApplicableConcat(value, validations, [f]);
    var all := validations + [f];
    assert all[..|validations|] == validations && all[|validations|] == f;
  }

  /** Validator order is output order within a rule: the items for v1 + v2 are v1's then v2's. */
  lemma {:induction false} RunValidationsAppend(field: string, value: Value, v1: seq<ValidationFunc>, v2: seq<ValidationFunc>)
    requires Applicable(value, v1) && Applicable(value, v2)
    ensures Applicable(value, v1 + v2)
    ensures RunValidations(field, value, v1 + v2) == RunValidations(field, value, v1) + RunValidations(field, value, v2)
  {
    ApplicableConcat(value, v1, v2);
    if v2 == [] {
      assert v1 + v2 == v1;
    } else {
      var init := v2[..|v2| - 1];
      var f := v2[|v2| - 1];
      SplitLast(v1, v2);
      ApplicableConcat(value, init, [f]);
      assert f.requires(value);
      RunValidationsAppend(field, value, v1, init);
      RunValidationsSnoc(field, value, v1 + init, f);
      RunValidationsSnoc(field, value, init, f);
      AppendAssoc(RunValidations(field, value, v1), RunValidations(field, value, init), Stamp(field, f(value)));
    }
  }

  /** Three validators, as the usual required/min/max rule has: each result in turn. */
  lemma RunThree(field: string, value: Value, a: ValidationFunc, b: ValidationFunc, c: ValidationFunc)
    requires a.requires(value) && b.requires(value) && c.requires(value)
    ensures Applicable(value, [a, b, c])
    ensures RunValidations(field, value, [a, b, c]) ==
              Stamp(field, a(value)) + Stamp(field, b(value)) + Stamp(field, c(value))
  {
    var vs := [a, b, c];
    assert vs[..2] == [a, b] && vs[2] == c;
    assert [a, b][..1] == [a] && [a, b][1] == b;
    assert [a][..0] == [] && [a][0] == a;
    assert RunValidations(field, value, [a]) == Stamp(field, a(value));
    assert RunValidations(field, value, [a, b]) == Stamp(field, a(value)) + Stamp(field, b(value));
  }

  /** No short-circuit: when the first and third of three validators fail and the second passes,
      the rule yields the first's message and then the third's, both under the rule's field. */
  lemma CollectsEveryFailureInOrder(field: string, value: Value, a: ValidationFunc, b: ValidationFunc, c: ValidationFunc)
    requires a.requires(value) && b.requires(value) && c.requires(value)
    requires a(value) != Pass && b(value) == Pass && c(value) != Pass
    ensures Applicable(value, [a, b, c])
    ensures RunValidations(field, value, [a, b, c]) ==
              [a(value).(field := field), c(value).(field := field)]
  {
    RunThree(field, value, a, b, c);
  }

  /** Every item a rule produces carries that rule's field. */
  lemma {:induction false} RunValidationsStamped(field: string, value: Value, validations: seq<ValidationFunc>)
    requires Applicable(value, validations)
    ensures |RunValidations(field, value, validations)| <= |validations|
    ensures forall k | 0 <= k < |RunValidations(field, value, validations)| ::
              RunValidations(field, value, validations)[k].field == field
  {
    if validations != [] {
      RunValidationsStamped(field, value, validations[..|validations| - 1]);
    }
  }

  /** A rule's items are empty exactly when every validator returns the zero item. */
  lemma {:induction false} RunValidationsEmpty(field: string, value: Value, validations: seq<ValidationFunc>)
    requires Applicable(value, validations)
    ensures RunValidations(field, value, validations) == [] <==>
              forall j | 0 <= j < |validations| :: validations[j](value) == Pass
  {
    if validations != [] {
      var last := |validations| - 1;
      var init := validations[..last];
      assert validations == init + [validations[last]];
      ApplicableConcat(value, init, [validations[last]]);
      RunValidationsEmpty(field, value, init);
      assert forall j | 0 <= j < last :: init[j] == validations[j];
    }
  }

  /** The rule passes: its field resolves and every validator returns the zero item. */
  ghost predicate RulePasses(data: Data, rule: ValidationRule) {
    match ResolveField(data, rule.field)
    case Err(_) => false
    case Ok(value) =>
      forall j | 0 <= j < |rule.validations| ::
        rule.validations[j].requires(value) && rule.validations[j](value) == Pass
  }

  /** One rule contributes nothing exactly when it passes. */
  lemma RuleErrorsEmpty(data: Data, rule: ValidationRule)
    requires RuleApplicable(data, rule)
    ensures RuleErrors(data, rule) == [] <==> RulePasses(data, rule)
  {
    if ResolveField(data, rule.field).Ok? {
      RunValidationsEmpty(rule.field, ResolveField(data, rule.field).value, rule.validations);
    }
  }

  /** Every item of one rule carries that rule's field. */
  lemma RuleErrorsStamped(data: Data, rule: ValidationRule)
    requires RuleApplicable(data, rule)
    ensures forall k | 0 <= k < |RuleErrors(data, rule)| :: RuleErrors(data, rule)[k].field == rule.field
  {
    if ResolveField(data, rule.field).Ok? {
      RunValidationsStamped(rule.field, ResolveField(data, rule.field).value, rule.validations);
    }
  }

  /** Every rule of the list passes. */
  ghost predicate AllPass(data: Data, rules: seq<ValidationRule>) {
    forall i | 0 <= i < |rules| :: RulePasses(data, rules[i])
  }

  lemma AllPassStep(data: Data, rules: seq<ValidationRule>)
    requires rules != []
    ensures AllPass(data, rules) <==>
              AllPass(data, rules[..|rules| - 1]) && RulePasses(data, rules[|rules| - 1])
  {
    var init := rules[..|rules| - 1];
    assert forall i | 0 <= i < |init| :: init[i] == rules[i];
  }

  /** The list is empty exactly when every rule passes; in particular no rules give no items. */
  lemma {:induction false} ErrorsEmptyIffAllPass(data: Data, rules: seq<ValidationRule>)
    requires RulesApplicable(data, rules)
    ensures Errors(data, rules) == [] <==> AllPass(data, rules)
  {
    if rules != [] {
      var last := |rules| - 1;
      var init := rules[..last];
      assert RulesApplicable(data, init) && RuleApplicable(data, rules[last]);
      ErrorsEmptyIffAllPass(data, init);
      RuleErrorsEmpty(data, rules[last]);
      AllPassStep(data, rules);
      assert Errors(data, rules) == Errors(data, init) + RuleErrors(data, rules[last]);
    }
  }

  /** Every item names the field of some rule: the field of the rule that produced it. */
  lemma {:induction false} ErrorsNameRuleFields(data: Data, rules: seq<ValidationRule>)
    requires RulesApplicable(data, rules)
    ensures forall k | 0 <= k < |Errors(data, rules)| ::
              exists i | 0 <= i < |rules| :: rules[i].field == Errors(data, rules)[k].field
  {
    if rules != [] {
      var last := |rules| - 1;
      var init := rules[..last];
      ErrorsStep(data, rules, last);
      assert rules[..last + 1] == rules;
      ErrorsNameRuleFields(data, init);
      RuleErrorsStamped(data, rules[last]);
      var head := Errors(data, init);
      var tail := RuleErrors(data, rules[last]);
      var out := Errors(data, rules);
      assert out == head + tail;
      forall k | 0 <= k < |out| ensures exists i | 0 <= i < |rules| :: rules[i].field == out[k].field {
        if k < |head| {
          var i :| 0 <= i < |init| && init[i].field == head[k].field;
          assert rules[i] == init[i] && out[k] == head[k];
        } else {
          assert out[k] == tail[k - |head|];
          assert rules[last].field == out[k].field;
        }
      }
    } else {
      assert Errors(data, rules) == [];
    }
  }

  /** An unresolvable rule contributes exactly one item, the resolver's error, at its place in
      rule order. */
  lemma UnresolvedRuleYieldsOneItem(data: Data, rules: seq<ValidationRule>, i: nat)
    requires RulesApplicable(data, rules) && i < |rules|
    requires ResolveField(data, rules[i].field).Err?
    ensures RulesApplicable(data, rules[..i]) && RulesApplicable(data, rules[i + 1..])
    ensures Errors(data, rules) ==
              Errors(data, rules[..i]) +
              [ValidationErrorItem(rules[i].field, "field not found: " + rules[i].field)] +
              Errors(data, rules[i + 1..])
  {
    var rule := rules[i];
    var before := rules[..i];
    var after := rules[i + 1..];
    assert rules == before + [rule] + after;
    ApplicableSplit(data, before + [rule], after);
    ApplicableSplit(data, before, [rule]);
    ErrorsSingleton(data, rule);
    ErrorsAppend(data, before, [rule]);
    ErrorsAppend(data, before + [rule], after);
    ResolveFieldSpec(data, rule.field, Absent);
  }

  /** The validators of an unresolvable rule never run: replacing them by any others leaves the
      output unchanged. */
  lemma UnresolvedRuleIgnoresValidators(data: Data, rules: seq<ValidationRule>, i: nat, others: seq<ValidationFunc>)
    requires RulesApplicable(data, rules) && i < |rules|
    requires ResolveField(data, rules[i].field).Err?
    ensures RulesApplicable(data, rules[i := rules[i].(validations := others)])
    ensures Errors(data, rules[i := rules[i].(validations := others)]) == Errors(data, rules)
  {
    var changed := rules[i := rules[i].(validations := others)];
    assert changed[..i] == rules[..i] && changed[i + 1..] == rules[i + 1..];
    assert RulesApplicable(data, changed) by {
      RulesApplicableEvery(data, rules);
      RulesApplicableEvery(data, changed);
    }
    UnresolvedRuleYieldsOneItem(data, rules, i);
    UnresolvedRuleYieldsOneItem(data, changed, i);
  }
}
