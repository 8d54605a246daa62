/** What step parameters stand for, and what the data checks test for: the templates of
    `asset_compiler/template_registry.py` run by the step interpreter. */
module DataChecks {
  import opened Basics
  import opened Text
  import opened ModulePlans
  import opened ModuleExecutor

  // ---- Placeholders ----

  predicate KeyText(key: string) {
    key != "" && forall c | c in key :: IsKeyChar(c)
  }

  /** The text is `{{ key }}`, with any blanks around it and around the key. */
  ghost predicate Asks(text: string, key: string) {
    KeyText(key) && exists l, r :: Framed(text, l, key, r)
  }

  ghost predicate Framed(text: string, l: string, key: string, r: string) {
    Blank(l) && Blank(r) && Strip(text) == "{{" + l + key + r + "}}"
  }

  lemma KeyTrim(key: string)
    requires KeyText(key)
    ensures Trim(key)
  {
    assert key[0] in key && key[|key| - 1] in key;
  }

  lemma PlaceholderMeaning(text: string, key: string)
    ensures Placeholder(text) == Some(key) <==> Asks(text, key)
  {
    var t := Strip(text);
    if Placeholder(text) == Some(key) {
      var l, r := StripAround(t[2..|t| - 2]);
      assert t == "{{" + t[2..|t| - 2] + "}}";
      assert Framed(text, l, key, r);
    }
    if Asks(text, key) {
      var l, r :| Framed(text, l, key, r);
      var inner := t[2..|t| - 2];
      assert inner == l + key + r;
      KeyTrim(key);
      assert Around(inner, l, key, r);
      StripMeaning(inner, key);
      assert t[..2] == "{{" && t[|t| - 2..] == "}}";
    }
  }

  /** A parameter that asks for a key that was given gets what was given; any other stays as it is. */
  lemma ResolveMeaning(params: Params, inputs: Inputs, name: string)
    ensures Resolve(params, inputs).Keys == params.Keys
    ensures name in params ==>
              var v := Resolve(params, inputs)[name];
              && (inputs.None? ==> v == params[name])
              && (inputs.Some? && params[name].Str? ==>
                    forall key | Asks(params[name].text, key) && key in inputs.value :: v == inputs.value[key])
              && ((!params[name].Str? || forall key :: Asks(params[name].text, key) ==> inputs.None? || key !in inputs.value) ==>
                    v == params[name])
  {
    if name in params && params[name].Str? {
      forall key ensures Placeholder(params[name].text) == Some(key) <==> Asks(params[name].text, key) {
        PlaceholderMeaning(params[name].text, key);
      }
    }
  }

  // ---- Numbers ----

  function Digit(d: nat): char
    requires d < 10
  {
    (d as char) + '0'
  }

  lemma DigitMeaning(d: nat)
    requires d < 10
    ensures '0' <= Digit(d) <= '9' && (Digit(d) - '0') as nat == d
  {
  }

  /** A digit string is read in base ten. */
  lemma DigitsSnoc(front: string, d: nat)
    requires d < 10 && (front == "" || IsDigits(front))
    ensures IsDigits(front + [Digit(d)]) && Digits(front + [Digit(d)]) == 10 * Digits(front) + d
  {
    DigitMeaning(d);
    var s := front + [Digit(d)];
    assert s[..|s| - 1] == front;
    assert forall c | c in s :: c in front || c == Digit(d);
  }

  lemma StripFrame(l: string, s: string, r: string)
    requires Blank(l) && Blank(r) && Trim(s)
    ensures Strip(l + s + r) == s
  {
    assert Around(l + s + r, l, s, r);
    StripMeaning(l + s + r, s);
  }

  lemma DigitsTrim(s: string)
    requires IsDigits(s)
    ensures Trim(s) && Trim("-" + s) && s[0] != '-'
  {
    assert s[0] in s && s[|s| - 1] in s;
  }

  lemma PositiveCoerced(text: string, s: string)
    requires Strip(text) == s && IsDigits(s)
    ensures CoerceInt(Str(text)) == Ok(Some(Digits(s)))
  {
    DigitsTrim(s);
    assert DropMinus(s) == s;
  }

  lemma NegativeCoerced(text: string, s: string)
    requires Strip(text) == "-" + s && IsDigits(s)
    ensures CoerceInt(Str(text)) == Ok(Some(-(Digits(s) as int)))
  {
    var t := "-" + s;
    DigitsTrim(s);
    assert t[1..] == s && t[0] == '-' && t[1] == s[0];
    assert DropMinus(t) == DropMinus(s) == s;
  }

  /** A digit string counts as the number it reads as, with blanks around it, and after a minus sign as the
      negated one. */
  lemma NumberCoerced(s: string, l: string, r: string)
    requires Blank(l) && Blank(r) && IsDigits(s)
    ensures CoerceInt(Str(l + s + r)) == Ok(Some(Digits(s)))
    ensures CoerceInt(Str(l + ("-" + s) + r)) == Ok(Some(-(Digits(s) as int)))
  {
    DigitsTrim(s);
    StripFrame(l, s, r);
    StripFrame(l, "-" + s, r);
    PositiveCoerced(l + s + r, s);
    NegativeCoerced(l + ("-" + s) + r, s);
  }

  // ---- The data checks ----

  /** The plan of a template is the prologue, a state step if the state is not the default one, the
      template's actions and its assertion. */
  lemma TemplatePlan(code: string, t: Template, ctx: PageContext, state: string, bundle: Value)
    requires GetTemplate(code) == Some(t)
    ensures var steps := Plan(code, ctx, state, bundle);
            && |steps| == 4 + |StateSteps(ctx, state)| + |t.actionChain|
            && steps[|steps| - 1] == Step(t.assertModule, map["carrier" := Str(CarrierHint(ctx))] + t.assertParams)
            && (forall i | 0 <= i < |t.actionChain| ::
                  steps[|steps| - 1 - |t.actionChain| + i] == TemplateStep(t, CarrierHint(ctx), t.actionChain[i]))
  {
    var opening, tail := Prologue(ctx) + StateSteps(ctx, state), TemplateSteps(t, CarrierHint(ctx));
    assert Plan(code, ctx, state, bundle) == opening + tail;
    assert |opening| == 3 + |StateSteps(ctx, state)| && |tail| == |t.actionChain| + 1;
    forall i | 0 <= i < |t.actionChain| ensures tail[i] == TemplateStep(t, CarrierHint(ctx), t.actionChain[i]) {
    }
  }

  lemma CodeFound(i: nat)
    requires i < |TEMPLATES|
    ensures GetTemplate(TEMPLATES[i].code) == Some(TEMPLATES[i])
  {
    PlainText(TEMPLATES[i].code);
    FindAt(TEMPLATES, i);
  }

  lemma {:induction false} FindAt(templates: seq<Template>, i: nat)
    requires i < |templates| && forall j | 0 <= j < i :: templates[j].code != templates[i].code
    ensures FindTemplate(templates, templates[i].code) == Some(templates[i])
  {
    if i > 0 {
      FindAt(templates[1..], i - 1);
    }
  }

  /** All steps before the last get the answers they need. */
  ghost predicate LedUp(steps: seq<Step>, inputs: Inputs, answers: nat -> Answer) {
    forall i | 0 <= i < |steps| - 1 :: Answered(steps, inputs, answers, i)
  }

  lemma StepsPass(steps: seq<Step>, inputs: Inputs, answers: nat -> Answer)
    requires steps != [] && forall s | s in steps :: Supported(s.name)
    ensures Run(steps, inputs, answers).passed <==> LedUp(steps, inputs, answers) && Answered(steps, inputs, answers, |steps| - 1)
  {
    PrefixFaithful(steps, inputs, answers, |steps|);
  }

  lemma PlanSupported(code: string, ctx: PageContext, state: string, bundle: Value)
    ensures var steps := Plan(code, ctx, state, bundle); |steps| >= 4 && forall s | s in steps :: Supported(s.name)
  {
    PlanShape(code, ctx, state, bundle);
  }

  lemma PlanPasses(code: string, ctx: PageContext, state: string, bundle: Value, inputs: Inputs, answers: nat -> Answer)
    ensures var steps := Plan(code, ctx, state, bundle);
            && |steps| >= 4
            && (Run(steps, inputs, answers).passed <==> LedUp(steps, inputs, answers) && Answered(steps, inputs, answers, |steps| - 1))
  {
    PlanSupported(code, ctx, state, bundle);
    StepsPass(Plan(code, ctx, state, bundle), inputs, answers);
  }

  lemma CountBounds(params: Params, inputs: Inputs, a: Answer)
    requires forall key | key in {"expected_min", "expected_max"} && key in params :: params[key].Num?
    ensures var p := Resolve(params, inputs);
            Suits(DATA_COUNT, p, a) <==>
            && a.Count? && a.n >= 0
            && ("expected_min" in params ==> a.n >= params["expected_min"].n)
            && ("expected_max" in params ==> a.n <= params["expected_max"].n)
            && ("expected_min" !in params && "expected_max" !in params ==> a.n >= 1)
  {
    ResolveMeaning(params, inputs, "expected_min");
    ResolveMeaning(params, inputs, "expected_max");
  }

  lemma TemplateLast(t: Template, ctx: PageContext, state: string, bundle: Value)
    requires GetTemplate(t.code) == Some(t)
    ensures var steps := Plan(t.code, ctx, state, bundle);
            |steps| >= 4 && steps[|steps| - 1] == Step(t.assertModule, map["carrier" := Str(CarrierHint(ctx))] + t.assertParams)
  {
    TemplatePlan(t.code, t, ctx, state, bundle);
  }

  lemma LastDecides(steps: seq<Step>, inputs: Inputs, answers: nat -> Answer, last: Step)
    requires steps != [] && steps[|steps| - 1] == last && forall s | s in steps :: Supported(s.name)
    ensures Run(steps, inputs, answers).passed <==>
            LedUp(steps, inputs, answers) && Suits(last.name, Resolve(last.params, inputs), answers(|steps| - 1))
  {
    StepsPass(steps, inputs, answers);
  }

  /** The assertion of a template decides, once everything before has worked. */
  lemma AssertionDecides(
    t: Template, ctx: PageContext, state: string, bundle: Value, inputs: Inputs, answers: nat -> Answer)
    requires GetTemplate(t.code) == Some(t)
    ensures var steps := Plan(t.code, ctx, state, bundle);
            && |steps| >= 4
            && (Run(steps, inputs, answers).passed <==>
                LedUp(steps, inputs, answers)
                && Suits(t.assertModule, Resolve(map["carrier" := Str(CarrierHint(ctx))] + t.assertParams, inputs), answers(|steps| - 1)))
  {
    var last := Step(t.assertModule, map["carrier" := Str(CarrierHint(ctx))] + t.assertParams);
    TemplateLast(t, ctx, state, bundle);
    PlanSupported(t.code, ctx, state, bundle);
    LastDecides(Plan(t.code, ctx, state, bundle), inputs, answers, last);
  }

  /** The count a data check accepts. */
  predicate Counted(i: nat, a: Answer)
    requires i == 0 || i == 1
  {
    a.Count? && (if i == 0 then a.n >= 1 else a.n == 0)
  }

  lemma CountStepMeans(i: nat, carrier: Value, inputs: Inputs, a: Answer)
    requires i == 0 || i == 1
    ensures TEMPLATES[i].assertModule == DATA_COUNT
    ensures Suits(DATA_COUNT, Resolve(map["carrier" := carrier] + TEMPLATES[i].assertParams, inputs), a) <==> Counted(i, a)
  {
    var params: Params := map["carrier" := carrier] + TEMPLATES[i].assertParams;
    assert "carrier" != "expected_min" && "carrier" != "expected_max" && "expected_min" != "expected_max";
    if i == 0 {
      assert TEMPLATES[0].assertParams == map["expected_min" := Num(1)];
      assert "expected_min" in params && params["expected_min"] == Num(1) && "expected_max" !in params;
    } else {
      assert TEMPLATES[1].assertParams == map["expected_max" := Num(0)];
      assert "expected_max" in params && params["expected_max"] == Num(0) && "expected_min" !in params;
    }
    CountBounds(params, inputs, a);
  }

  /** `has_data` passes exactly if everything before works and there is at least one row, `no_data` exactly
      if there is none. */
  lemma PresenceMeans(i: nat, ctx: PageContext, state: string, bundle: Value, inputs: Inputs, answers: nat -> Answer)
    requires i == 0 || i == 1
    ensures TEMPLATES[0].code == "has_data" && TEMPLATES[1].code == "no_data"
    ensures var steps := Plan(TEMPLATES[i].code, ctx, state, bundle);
            && |steps| >= 4
            && (Run(steps, inputs, answers).passed <==> LedUp(steps, inputs, answers) && Counted(i, answers(|steps| - 1)))
  {
    var steps := Plan(TEMPLATES[i].code, ctx, state, bundle);
    CodeFound(i);
    AssertionDecides(TEMPLATES[i], ctx, state, bundle, inputs, answers);
    CountStepMeans(i, Str(CarrierHint(ctx)), inputs, answers(|steps| - 1));
  }

  // ---- Parameters from the caller ----

  lemma Given(params: Params, given: map<string, Value>, name: string, key: string)
    requires name in params && params[name] == Str("{{" + key + "}}") && KeyText(key) && key in given
    ensures name in Resolve(params, Some(given)) && Resolve(params, Some(given))[name] == given[key]
  {
    var text := "{{" + key + "}}";
    PlainFrame(key);
    assert Framed(text, "", key, "");
    assert Asks(text, key);
    ResolveMeaning(params, Some(given), name);
  }

  lemma PlainFrame(key: string)
    ensures Strip("{{" + key + "}}") == "{{" + "" + key + "" + "}}"
  {
    var text := "{{" + key + "}}";
    assert Around(text, "", text, "");
    StripMeaning(text, text);
  }

  lemma Braced(text: string, key: string)
    requires |text| == |key| + 4 && text[0] == text[1] == '{' && text[|key| + 2] == text[|key| + 3] == '}'
    requires forall i | 0 <= i < |key| :: text[i + 2] == key[i]
    ensures text == "{{" + key + "}}"
  {
    var other := "{{" + key + "}}";
    forall k | 0 <= k < |text| ensures text[k] == other[k] {
      if 2 <= k < |key| + 2 { assert text[(k - 2) + 2] == key[k - 2]; }
    }
  }

  lemma WordsAreKeys(i: nat)
    requires i < 5
    ensures KeyText(["field", "operator", "value", "status", "min_count"][i])
  {
  }

  /** `count_gte` passes exactly if there are at least as many rows as the caller asks for. */
  lemma CountGteMeans(
    ctx: PageContext, state: string, bundle: Value, given: map<string, Value>, least: int, answers: nat -> Answer)
    requires "min_count" in given && given["min_count"] == Num(least)
    ensures TEMPLATES[4].code == "count_gte"
    ensures var steps := Plan(TEMPLATES[4].code, ctx, state, bundle);
            && |steps| >= 4
            && (Run(steps, Some(given), answers).passed <==>
                LedUp(steps, Some(given), answers) && answers(|steps| - 1).Count? && answers(|steps| - 1).n >= 0
                && answers(|steps| - 1).n >= least)
  {
    var steps := Plan(TEMPLATES[4].code, ctx, state, bundle);
    CodeFound(4);
    AssertionDecides(TEMPLATES[4], ctx, state, bundle, Some(given), answers);
    GteStepMeans(Str(CarrierHint(ctx)), given, least, answers(|steps| - 1));
  }

  lemma CountAtLeast(p: Params, least: int, a: Answer)
    requires "expected_min" in p && p["expected_min"] == Num(least) && "expected_max" !in p
    ensures Suits(DATA_COUNT, p, a) <==> a.Count? && a.n >= 0 && a.n >= least
  {
  }

  lemma GteParams(params: Params, given: map<string, Value>, least: int, a: Answer)
    requires "min_count" in given && given["min_count"] == Num(least)
    requires "expected_min" in params && params["expected_min"] == Str("{{min_count}}") && "expected_max" !in params
    ensures Suits(DATA_COUNT, Resolve(params, Some(given)), a) <==> a.Count? && a.n >= 0 && a.n >= least
  {
    Braced("{{min_count}}", "min_count");
    WordsAreKeys(4);
    Given(params, given, "expected_min", "min_count");
    ResolveMeaning(params, Some(given), "expected_max");
    CountAtLeast(Resolve(params, Some(given)), least, a);
  }

  lemma GteStepMeans(carrier: Value, given: map<string, Value>, least: int, a: Answer)
    requires "min_count" in given && given["min_count"] == Num(least)
    ensures TEMPLATES[4].assertModule == DATA_COUNT
    ensures Suits(DATA_COUNT, Resolve(map["carrier" := carrier] + TEMPLATES[4].assertParams, Some(given)), a) <==>
            a.Count? && a.n >= 0 && a.n >= least
  {
    assert TEMPLATES[4].assertParams == map["expected_min" := Str("{{min_count}}")];
    assert "carrier" != "expected_max" && "expected_min" != "expected_max";
    GteParams(map["carrier" := carrier] + TEMPLATES[4].assertParams, given, least, a);
  }

  /** The step works with this field, operator and value. */
  ghost predicate WorksWith(params: Params, field: Value, operator: Value, value: Value) {
    && "field" in params && params["field"] == field
    && "operator" in params && params["operator"] == operator
    && "value" in params && params["value"] == value
  }

  ghost predicate FieldTemplate(t: Template) {
    && t.actionChain == [APPLY_FILTER, SUBMIT_QUERY] && t.assertModule == ROW_EXISTS
    && APPLY_FILTER in t.actionParams && t.actionParams[APPLY_FILTER] == t.assertParams
  }

  lemma FieldTemplates()
    ensures TEMPLATES[2].code == "field_equals_exists" && TEMPLATES[3].code == "status_exists"
    ensures FieldTemplate(TEMPLATES[2]) && FieldTemplate(TEMPLATES[3])
    ensures TEMPLATES[2].assertParams
         == map["field" := Str("{{field}}"), "operator" := Str("{{operator}}"), "value" := Str("{{value}}")]
    ensures TEMPLATES[3].assertParams == map["field" := Str("status"), "operator" := Str("equals"), "value" := Str("{{status}}")]
  {
  }

  /** The plan filters by a field and a value and passes exactly if, everything before having worked, such a
      row exists; a blank field or no value fails it. */
  ghost predicate TestsRow(steps: seq<Step>, given: map<string, Value>, answers: nat -> Answer, field: Value, operator: Value, value: Value) {
    var n := |steps|;
    && n >= 4 && steps[n - 3].name == APPLY_FILTER && steps[n - 1].name == ROW_EXISTS
    && WorksWith(Resolve(steps[n - 3].params, Some(given)), field, operator, value)
    && WorksWith(Resolve(steps[n - 1].params, Some(given)), field, operator, value)
    && (Run(steps, Some(given), answers).passed <==>
        LedUp(steps, Some(given), answers)
        && field != Null && (field.Str? ==> Strip(field.text) != "") && value != Null && Affirms(answers(n - 1)))
  }

  lemma RowSuits(params: Params, a: Answer, field: Value, operator: Value, value: Value)
    requires WorksWith(params, field, operator, value)
    ensures Suits(ROW_EXISTS, params, a) <==> field != Null && (field.Str? ==> Strip(field.text) != "") && value != Null && Affirms(a)
  {
    assert ROW_EXISTS !in TRUTHY_MODULES;
  }

  lemma FieldSteps(t: Template, ctx: PageContext, state: string, bundle: Value)
    requires GetTemplate(t.code) == Some(t) && FieldTemplate(t)
    ensures var steps := Plan(t.code, ctx, state, bundle);
            var n, params := |steps|, map["carrier" := Str(CarrierHint(ctx))] + t.assertParams;
            n >= 4 && steps[n - 3] == Step(APPLY_FILTER, params) && steps[n - 1] == Step(ROW_EXISTS, params)
  {
    var steps := Plan(t.code, ctx, state, bundle);
    TemplatePlan(t.code, t, ctx, state, bundle);
    assert steps[|steps| - 1 - 2 + 0] == TemplateStep(t, CarrierHint(ctx), t.actionChain[0]);
  }

  lemma FieldCheck(
    t: Template, ctx: PageContext, state: string, bundle: Value, given: map<string, Value>, answers: nat -> Answer,
    field: Value, operator: Value, value: Value)
    requires GetTemplate(t.code) == Some(t) && FieldTemplate(t)
    requires WorksWith(Resolve(map["carrier" := Str(CarrierHint(ctx))] + t.assertParams, Some(given)), field, operator, value)
    ensures TestsRow(Plan(t.code, ctx, state, bundle), given, answers, field, operator, value)
  {
    var steps := Plan(t.code, ctx, state, bundle);
    FieldSteps(t, ctx, state, bundle);
    PlanPasses(t.code, ctx, state, bundle, Some(given), answers);
    RowSuits(Resolve(steps[|steps| - 1].params, Some(given)), answers(|steps| - 1), field, operator, value);
  }

  lemma FieldParams(carrier: Value, given: map<string, Value>)
    requires "field" in given && "operator" in given && "value" in given
    ensures WorksWith(Resolve(map["carrier" := carrier] + TEMPLATES[2].assertParams, Some(given)), given["field"], given["operator"], given["value"])
  {
    FieldTemplates();
    var params: Params := map["carrier" := carrier] + TEMPLATES[2].assertParams;
    WordsAreKeys(0);
    WordsAreKeys(1);
    WordsAreKeys(2);
    Braced("{{field}}", "field");
    Braced("{{operator}}", "operator");
    Braced("{{value}}", "value");
    assert "field" != "operator" && "field" != "value" && "operator" != "value";
    Given(params, given, "field", "field");
    Given(params, given, "operator", "operator");
    Given(params, given, "value", "value");
  }

  /** `field_equals_exists` tests for a row with the caller's field and value. */
  lemma FieldEqualsMeans(ctx: PageContext, state: string, bundle: Value, given: map<string, Value>, answers: nat -> Answer)
    requires "field" in given && "operator" in given && "value" in given
    ensures TEMPLATES[2].code == "field_equals_exists"
    ensures TestsRow(Plan(TEMPLATES[2].code, ctx, state, bundle), given, answers, given["field"], given["operator"], given["value"])
  {
    FieldTemplates();
    CodeFound(2);
    FieldParams(Str(CarrierHint(ctx)), given);
    FieldCheck(TEMPLATES[2], ctx, state, bundle, given, answers, given["field"], given["operator"], given["value"]);
  }

  lemma PlainStays(params: Params, given: map<string, Value>, name: string, text: string)
    requires name in params && params[name] == Str(text)
    requires text != "" && forall i | 0 <= i < |text| :: 'a' <= text[i] <= 'z'
    ensures name in Resolve(params, Some(given)) && Resolve(params, Some(given))[name] == Str(text)
  {
    PlainText(text);
    assert |text| >= 4 ==> text[..2][0] == text[0];
    assert Placeholder(text) == None;
  }

  lemma StatusResolved(params: Params, given: map<string, Value>)
    requires "status" in given
    requires "field" in params && params["field"] == Str("status") && "operator" in params && params["operator"] == Str("equals")
    requires "value" in params && params["value"] == Str("{{status}}")
    ensures WorksWith(Resolve(params, Some(given)), Str("status"), Str("equals"), given["status"])
  {
    WordsAreKeys(3);
    Braced("{{status}}", "status");
    PlainStays(params, given, "field", "status");
    PlainStays(params, given, "operator", "equals");
    Given(params, given, "value", "status");
  }

  lemma StatusParams(carrier: Value, given: map<string, Value>)
    requires "status" in given
    ensures WorksWith(Resolve(map["carrier" := carrier] + TEMPLATES[3].assertParams, Some(given)), Str("status"), Str("equals"), given["status"])
  {
    FieldTemplates();
    assert "field" != "operator" && "field" != "value" && "operator" != "value";
    StatusResolved(map["carrier" := carrier] + TEMPLATES[3].assertParams, given);
  }

  /** `status_exists` tests for a row whose status equals the caller's. */
  lemma StatusMeans(ctx: PageContext, state: string, bundle: Value, given: map<string, Value>, answers: nat -> Answer)
    requires "status" in given
    ensures TEMPLATES[3].code == "status_exists"
    ensures TestsRow(Plan(TEMPLATES[3].code, ctx, state, bundle), given, answers, Str("status"), Str("equals"), given["status"])
  {
    FieldTemplates();
    CodeFound(3);
    StatusParams(Str(CarrierHint(ctx)), given);
    FieldCheck(TEMPLATES[3], ctx, state, bundle, given, answers, Str("status"), Str("equals"), given["status"]);
  }
}
