/** The demo program and rule sets of the same shape: a required string field between two byte
    bounds, as the demo's `ValidateUser` declares for "name" and "password". */
module Scenarios {
  import opened Values
  import opened Text
  import opened Resolver
  import opened Validators
  import opened ValidatorLemmas
  import opened Engine

  /** The validators of a required text field between lo and hi bytes. */
  function TextValidations(lo: int, hi: int): (vs: seq<ValidationFunc>)
    ensures |vs| == 3
  {
    [RequiredValidation, MinLengthValidation(lo), MaxLengthValidation(hi)]
  }

  /** The items such a rule yields for a resolved string: an empty string is only "required"
      (both length checks pass on ""); otherwise each bound it breaks adds its own message. */
  function TextItems(field: string, lo: int, hi: int, s: string): (items: seq<ValidationErrorItem>)
    ensures |items| <= 2
    ensures forall k | 0 <= k < |items| :: items[k].field == field
  {
    if s == "" then [ValidationErrorItem(field, RequiredMessage)]
    else
      (if ByteLen(s) < lo then [ValidationErrorItem(field, MinLengthStringMessage(lo))] else []) +
      (if ByteLen(s) > hi then [ValidationErrorItem(field, MaxLengthStringMessage(hi))] else [])
  }

  /** What MinLength and MaxLength say about a non-empty string, as stamped items. */
  lemma BoundItems(field: string, lo: int, hi: int, s: string)
    requires s != ""
    ensures Stamp(field, MinLength(lo, Str(s))) ==
              if ByteLen(s) < lo then [ValidationErrorItem(field, MinLengthStringMessage(lo))] else []
    ensures Stamp(field, MaxLength(hi, Str(s))) ==
              if ByteLen(s) > hi then [ValidationErrorItem(field, MaxLengthStringMessage(hi))] else []
  {
    assert !IsBlank(Str(s));
  }

  /** All three validators run on the string, in order, and nothing short-circuits. */
  lemma TextRuleItems(field: string, lo: int, hi: int, s: string)
    ensures Applicable(Str(s), TextValidations(lo, hi))
    ensures RunValidations(field, Str(s), TextValidations(lo, hi)) == TextItems(field, lo, hi, s)
  {
    var v := Str(s);
    RunThree(field, v, RequiredValidation, MinLengthValidation(lo), MaxLengthValidation(hi));
    var required := Stamp(field, RequiredValidation(v));
    var atLeast := Stamp(field, MinLength(lo, v));
    var atMost := Stamp(field, MaxLength(hi, v));
    if s == "" {
      assert required == [ValidationErrorItem(field, RequiredMessage)];
      assert atLeast == [] && atMost == [];
    } else {
      assert required == [];
      BoundItems(field, lo, hi, s);
    }
  }

  /** A struct of two string fields with the given json tags. */
  function Record(tag1: string, s1: string, tag2: string, s2: string): (data: Data)
    ensures data.Struct? && |data.fields| == 2
  {
    Struct([StructField(tag1, Str(s1)), StructField(tag2, Str(s2))])
  }

  /** The demo's rules: "name" between 3 and 50 bytes, "password" between 6 and 50, both required. */
  function UserRules(): (rules: seq<ValidationRule>)
    ensures |rules| == 2 && rules[0].field == "name" && rules[1].field == "password"
  {
    [ValidationRule("name", TextValidations(3, 50)), ValidationRule("password", TextValidations(6, 50))]
  }

  /** Two rules whose validators accept their resolved values give the first rule's items, then
      the second's. */
  lemma TwoRuleErrors(data: Data, rules: seq<ValidationRule>)
    requires |rules| == 2 && RuleApplicable(data, rules[0]) && RuleApplicable(data, rules[1])
    ensures RulesApplicable(data, rules)
    ensures Errors(data, rules) == RuleErrors(data, rules[0]) + RuleErrors(data, rules[1])
  {
    var first := [rules[0]];
    assert [] + first == first && first + [rules[1]] == rules;
    ErrorsSnoc(data, [], rules[0]);
    ErrorsSnoc(data, first, rules[1]);
  }

  /** A user struct tagged "name" and "password": both rules resolve, and each field is judged on
      its own bounds. */
  lemma TaggedUserErrors(name: string, password: string)
    ensures RulesApplicable(Record("name", name, "password", password), UserRules())
    ensures Errors(Record("name", name, "password", password), UserRules()) ==
              TextItems("name", 3, 50, name) + TextItems("password", 6, 50, password)
  {
    var data := Record("name", name, "password", password);
    var rules := UserRules();
    var fields := data.fields;
    assert |"name"| != |"password"|;
    assert fields[1..] == [fields[1]] && fields[1..][1..] == [];
    assert FieldWithTag(fields, "password") == Str(password);
    assert ResolveField(data, "name") == Ok(Str(name));
    assert ResolveField(data, "password") == Ok(Str(password));
    TextRuleItems("name", 3, 50, name);
    TextRuleItems("password", 6, 50, password);
    TwoRuleErrors(data, rules);
  }

  /** The demo's `User` struct, whose name field is tagged "first_name": whatever it holds, the
      name rule never resolves, so its validators never run and the output starts with the
      resolver's error; the rest is what the password rule says about the password. */
  lemma DemoUserErrors(name: string, password: string)
    ensures RulesApplicable(Record("first_name", name, "password", password), UserRules())
    ensures Errors(Record("first_name", name, "password", password), UserRules()) ==
              [ValidationErrorItem("name", "field not found: name")] + TextItems("password", 6, 50, password)
  {
    var data := Record("first_name", name, "password", password);
    var rules := UserRules();
    var fields := data.fields;
    assert |"first_name"| != |"name"| && |"first_name"| != |"password"| && |"password"| != |"name"|;
    assert fields[1..] == [fields[1]] && fields[1..][1..] == [];
    assert FieldWithTag(fields, "password") == Str(password);
    FieldWithTagIsFirstMatch(fields, "name");
    assert ResolveField(data, "name") == Err("field not found: name");
    assert ResolveField(data, "password") == Ok(Str(password));
    TextRuleItems("password", 6, 50, password);
    TwoRuleErrors(data, rules);
  }

  /** `ValidateUser` of the demo: runs the rules on a `User`. */
  method ValidateUser(name: string, password: string) returns (errs: seq<ValidationErrorItem>)
    ensures errs == [ValidationErrorItem("name", "field not found: name")] + TextItems("password", 6, 50, password)
  {
    DemoUserErrors(name, password);
    errs := Validate(Record("first_name", name, "password", password), UserRules());
  }

  /** A six-digit password is within 6..50 bytes. */
  lemma SixDigitPasswordPasses()
    ensures TextItems("password", 6, 50, "123456") == []
  {
    ByteLenBounds("123456");
    assert IsAscii("123456");
  }

  /** The demo input, John with password "123456", yields exactly one item: the unresolvable name. */
  lemma DemoYieldsOnlyTheNameItem()
    ensures Errors(Record("first_name", "John", "password", "123456"), UserRules()) ==
              [ValidationErrorItem("name", "field not found: name")]
  {
    DemoUserErrors("John", "123456");
    SixDigitPasswordPasses();
  }

  /** A two-letter name breaks the three-byte minimum, and the message spells the bound out. */
  lemma TwoLetterNameTooShort()
    ensures TextItems("name", 3, 50, "Jo") == [ValidationErrorItem("name", "Field must be at least 3 characters long")]
  {
    ByteLenBounds("Jo");
    assert IsAscii("Jo");
    assert ByteLen("Jo") == 2;
    MinLengthMessageOfThree();
  }

  /** With the name tagged "name", a two-letter name gets the minimum-length item and the
      password passes all three checks. */
  lemma ShortNameScenario()
    ensures Errors(Record("name", "Jo", "password", "123456"), UserRules()) ==
              [ValidationErrorItem("name", "Field must be at least 3 characters long")]
  {
    TaggedUserErrors("Jo", "123456");
    TwoLetterNameTooShort();
    SixDigitPasswordPasses();
  }

  /** Two empty strings give one "required" item each and no length items. */
  lemma EmptyRecordScenario()
    ensures Errors(Record("name", "", "password", ""), UserRules()) ==
              [ValidationErrorItem("name", RequiredMessage), ValidationErrorItem("password", RequiredMessage)]
  {
    TaggedUserErrors("", "");
  }
}
