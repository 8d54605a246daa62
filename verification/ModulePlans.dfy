/** Check definitions, data-assertion templates and the module plans compiled from them:
    `asset_compiler/check_templates.py`, `template_registry.py` and `module_plan_builder.py`. */
module ModulePlans {
  import opened Basics
  import opened Text

  datatype Value =
    | Null
    | Str(text: string)
    | Num(n: int)
    | Labels(labels: seq<string>)
    | Bundle(candidates: seq<(string, string)>)

  type Params = map<string, Value>

  datatype Step = Step(name: string, params: Params)

  datatype PageContext = PageContext(
    menuChain: seq<string>, route: string, defaultState: string, hasTable: bool, carrierHint: string)

  const AUTH := "auth.inject_state"
  const NAVIGATE := "nav.menu_chain"
  const WAIT_READY := "page.wait_ready"
  const ENTER_STATE := "state.enter"
  const LOCATOR_ASSERT := "locator.assert"
  const OPEN_CREATE := "action.open_create_modal"
  const APPLY_FILTER := "action.apply_filter"
  const SUBMIT_QUERY := "action.submit_query"
  const DATA_COUNT := "assert.data_count"
  const ROW_EXISTS := "assert.row_exists_by_field"
  const TABLE_VISIBLE := "assert.table_visible"
  const PAGE_OPEN := "assert.page_open"
  const PAGE_READY := "assert.page_ready"

  // ---- Templates ----

  datatype Template = Template(
    code: string, actionChain: seq<string>, actionParams: map<string, Params>, assertModule: string, assertParams: Params,
    assertion: string)

  const TEMPLATES: seq<Template> := [
    Template("has_data", [SUBMIT_QUERY], map[], DATA_COUNT, map["expected_min" := Num(1)], "data_count"),
    Template("no_data", [SUBMIT_QUERY], map[], DATA_COUNT, map["expected_max" := Num(0)], "data_count"),
    Template("field_equals_exists", [APPLY_FILTER, SUBMIT_QUERY],
             map[APPLY_FILTER := map["field" := Str("{{field}}"), "operator" := Str("{{operator}}"), "value" := Str("{{value}}")]],
             ROW_EXISTS, map["field" := Str("{{field}}"), "operator" := Str("{{operator}}"), "value" := Str("{{value}}")],
             "row_exists_by_field"),
    Template("status_exists", [APPLY_FILTER, SUBMIT_QUERY],
             map[APPLY_FILTER := map["field" := Str("status"), "operator" := Str("equals"), "value" := Str("{{status}}")]],
             ROW_EXISTS, map["field" := Str("status"), "operator" := Str("equals"), "value" := Str("{{status}}")],
             "row_exists_by_field"),
    Template("count_gte", [SUBMIT_QUERY], map[], DATA_COUNT, map["expected_min" := Str("{{min_count}}")], "data_count")]

  function FindTemplate(templates: seq<Template>, code: string): Option<Template> {
    if templates == [] then None
    else if templates[0].code == code then Some(templates[0])
    else FindTemplate(templates[1..], code)
  }

  function GetTemplate(code: string): Option<Template> {
    FindTemplate(TEMPLATES, Lower(Strip(code)))
  }

  function CarrierHint(ctx: PageContext): string {
    var hint := Lower(Strip(ctx.carrierHint));
    if hint == "table" || hint == "list" then hint else if ctx.hasTable then "table" else "list"
  }

  function TemplateStep(t: Template, carrier: string, name: string): Step {
    var own: Params := if name in t.actionParams then t.actionParams[name] else map[];
    Step(name, map["carrier" := Str(carrier)] + own)
  }

  function TemplateSteps(t: Template, carrier: string): seq<Step> {
    Map(t.actionChain, (name: string) => TemplateStep(t, carrier, name))
    + [Step(t.assertModule, map["carrier" := Str(carrier)] + t.assertParams)]
  }

  method BuildTemplateChainSteps(t: Template, ctx: PageContext) returns (steps: seq<Step>)
    ensures steps == TemplateSteps(t, CarrierHint(ctx))
  {
    var carrier := CarrierHint(ctx);
    steps := [];
    for i := 0 to |t.actionChain|
      invariant steps == Map(t.actionChain[..i], (name: string) => TemplateStep(t, carrier, name))
    {
      TakeTake(t.actionChain, i);
      steps := steps + [TemplateStep(t, carrier, t.actionChain[i])];
    }
    assert t.actionChain[..|t.actionChain|] == t.actionChain;
    steps := steps + [Step(t.assertModule, map["carrier" := Str(carrier)] + t.assertParams)];
  }

  // ---- Plans ----

  function AssertionName(code: string): string {
    if code == "table_render" || code == "tab_switch_render" then "table_visible"
    else if code == "open_create_modal_state" then "modal_visible"
    else "page_ready"
  }

  function ExpectedElementType(code: string): string {
    if code == "table_render" || code == "tab_switch_render" then "table"
    else if code == "open_create_modal" then "button"
    else if code == "open_create_modal_state" then "dialog"
    else "page"
  }

  predicate UsesLegacyOpenCreate(code: string, state: string, defaultState: string) {
    code == "open_create_modal" && (state == "" || state == defaultState)
  }

  function Prologue(ctx: PageContext): seq<Step> {
    [Step(AUTH, map["policy" := Str("server_injected")]),
     Step(NAVIGATE, map["menu_chain" := Labels(ctx.menuChain), "route_path" := Str(ctx.route)]),
     Step(WAIT_READY, map["route_path" := Str(ctx.route)])]
  }

  function StateSteps(ctx: PageContext, state: string): seq<Step> {
    if state != "" && state != ctx.defaultState then [Step(ENTER_STATE, map["state_signature" := Str(state)])] else []
  }

  function LocatorStep(code: string, bundle: Value): Step {
    Step(LOCATOR_ASSERT,
         map["assertion" := Str(AssertionName(code)), "expected_element_type" := Str(ExpectedElementType(code)),
             "locator_bundle" := bundle])
  }

  function Epilogue(code: string, ctx: PageContext, state: string, bundle: Value): seq<Step> {
    match GetTemplate(code)
    case Some(t) => TemplateSteps(t, CarrierHint(ctx))
    case None =>
      if UsesLegacyOpenCreate(code, state, ctx.defaultState) then [LocatorStep(code, bundle), Step(OPEN_CREATE, map[])]
      else [LocatorStep(code, bundle)]
  }

  function Plan(code: string, ctx: PageContext, state: string, bundle: Value): seq<Step> {
    Prologue(ctx) + StateSteps(ctx, state) + Epilogue(code, ctx, state, bundle)
  }

  method BuildModulePlan(code: string, ctx: PageContext, state: string, bundle: Value) returns (steps: seq<Step>)
    ensures steps == Plan(code, ctx, state, bundle)
  {
    steps := Prologue(ctx);
    if state != "" && state != ctx.defaultState {
      steps := steps + [Step(ENTER_STATE, map["state_signature" := Str(state)])];
    }
    var template := GetTemplate(code);
    if template.Some? {
      var extra := BuildTemplateChainSteps(template.value, ctx);
      return steps + extra;
    }
    if UsesLegacyOpenCreate(code, state, ctx.defaultState) {
      steps := steps + [LocatorStep(code, bundle)];
      steps := steps + [Step(OPEN_CREATE, map[])];
      return;
    }
    steps := steps + [LocatorStep(code, bundle)];
  }

  /** The modules the executor has a branch for. */
  predicate Supported(name: string) {
    name in {AUTH, NAVIGATE, WAIT_READY, ENTER_STATE, LOCATOR_ASSERT, OPEN_CREATE, APPLY_FILTER, SUBMIT_QUERY,
             DATA_COUNT, ROW_EXISTS, TABLE_VISIBLE, PAGE_OPEN, PAGE_READY}
  }

  lemma FindTemplateMember(templates: seq<Template>, code: string)
    ensures FindTemplate(templates, code).Some? ==> FindTemplate(templates, code).value in templates
  {
  }

  lemma TemplatesSupported(t: Template)
    requires t in TEMPLATES
    ensures (forall name | name in t.actionChain :: Supported(name) && name != NAVIGATE && name != AUTH && name != TABLE_VISIBLE)
    ensures Supported(t.assertModule) && t.assertModule != NAVIGATE && t.assertModule != AUTH && t.assertModule != TABLE_VISIBLE
  {
    var i :| 0 <= i < |TEMPLATES| && TEMPLATES[i] == t;
  }

  lemma EpilogueShape(code: string, ctx: PageContext, state: string, bundle: Value)
    ensures var tail := Epilogue(code, ctx, state, bundle);
            && |tail| >= 1
            && forall i | 0 <= i < |tail| ::
                 Supported(tail[i].name) && tail[i].name != AUTH && tail[i].name != NAVIGATE && tail[i].name != TABLE_VISIBLE
  {
    if GetTemplate(code).Some? {
      var t := GetTemplate(code).value;
      FindTemplateMember(TEMPLATES, Lower(Strip(code)));
      TemplatesSupported(t);
      var tail := Epilogue(code, ctx, state, bundle);
      var actions := Map(t.actionChain, (name: string) => TemplateStep(t, CarrierHint(ctx), name));
      assert forall i | 0 <= i < |actions| :: actions[i].name == t.actionChain[i];
      assert tail == actions + [tail[|actions|]];
    }
  }

  /** Every plan, for every check code and page, opens with authentication, navigation and waiting, names
      only modules the executor knows, authenticates and navigates exactly once, and never names the table
      assertion, so a plan derives no required element. */
  lemma PlanShape(code: string, ctx: PageContext, state: string, bundle: Value)
    ensures var steps := Plan(code, ctx, state, bundle);
            && |steps| >= 4
            && steps[..3] == Prologue(ctx)
            && (forall i | 0 <= i < |steps| :: Supported(steps[i].name))
            && (forall i | 3 <= i < |steps| :: steps[i].name != AUTH && steps[i].name != NAVIGATE && steps[i].name != TABLE_VISIBLE)
  {
    var steps, tail := Plan(code, ctx, state, bundle), Epilogue(code, ctx, state, bundle);
    EpilogueShape(code, ctx, state, bundle);
    assert steps == Prologue(ctx) + StateSteps(ctx, state) + tail;
  }

  // ---- Standard checks of a page ----

  datatype Required = Required(kind: string, role: string, text: string)

  datatype Assertion = Assertion(name: string, required: seq<Required>)

  datatype CheckDefinition = CheckDefinition(code: string, goal: string, assertion: Assertion, state: string)

  datatype RepresentativeState = RepresentativeState(signature: string, entryType: string)

  const CREATE_WORDS: seq<string> := ["\U{65B0}\U{589E}", "\U{521B}\U{5EFA}", "\U{65B0}\U{5EFA}"]

  predicate SuggestsCreate(text: string) {
    Contains(text, CREATE_WORDS[0]) || Contains(text, CREATE_WORDS[1]) || Contains(text, CREATE_WORDS[2])
  }

  function TemplateChecks(defaultState: string): seq<CheckDefinition> {
    Map(TEMPLATES, (t: Template) => CheckDefinition(t.code, t.code, Assertion(t.assertion, []), defaultState))
  }

  function StateChecks(states: seq<RepresentativeState>, defaultState: string): seq<CheckDefinition> {
    if states == [] then []
    else
      var s := states[|states| - 1];
      var signature := Strip(s.signature);
      var entry := Strip(s.entryType);
      StateChecks(states[..|states| - 1], defaultState)
      + (if signature == "" || signature == Strip(defaultState) then []
         else if entry == "tab_switch" then
           [CheckDefinition("tab_switch_render", "tab_switch_render", Assertion("table_visible", []), signature)]
         else if entry == "open_modal" then
           [CheckDefinition("open_create_modal_state", "open_create_modal", Assertion("modal_visible", []), signature)]
         else [])
  }

  function CandidateChecks(
    hasTable: bool, hasCreate: bool, states: seq<RepresentativeState>, defaultState: string): seq<CheckDefinition>
  {
    [CheckDefinition("page_open", "page_open", Assertion("page_ready", []), defaultState)]
    + (if hasTable then
         [CheckDefinition("table_render", "table_render", Assertion("table_visible", []), defaultState)] + TemplateChecks(defaultState)
       else [])
    + (if hasCreate then
         [CheckDefinition("open_create_modal", "open_create_modal",
                          Assertion("page_ready", [Required("button", "button", "")]), defaultState)]
       else [])
    + StateChecks(states, defaultState)
  }

  predicate PreferNew(existing: CheckDefinition, candidate: CheckDefinition, defaultState: string) {
    Strip(existing.state) == Strip(defaultState) && Strip(candidate.state) != Strip(defaultState)
  }

  /** One definition per code, at the place where the code first appears. */
  function SelectByCode(checks: seq<CheckDefinition>, defaultState: string): seq<CheckDefinition> {
    if checks == [] then []
    else Select(SelectByCode(checks[..|checks| - 1], defaultState), checks[|checks| - 1], defaultState)
  }

  function Select(selected: seq<CheckDefinition>, candidate: CheckDefinition, defaultState: string): seq<CheckDefinition> {
    if selected == [] then [candidate]
    else if selected[0].code == candidate.code then
      [if PreferNew(selected[0], candidate, defaultState) then candidate else selected[0]] + selected[1..]
    else [selected[0]] + Select(selected[1..], candidate, defaultState)
  }

  ghost predicate CodesDistinct(checks: seq<CheckDefinition>) {
    forall i, j | 0 <= i < j < |checks| :: checks[i].code != checks[j].code
  }

  lemma {:induction false} SelectKeepsDistinct(selected: seq<CheckDefinition>, candidate: CheckDefinition, defaultState: string)
    requires CodesDistinct(selected)
    ensures CodesDistinct(Select(selected, candidate, defaultState))
    ensures forall d | d in Select(selected, candidate, defaultState) ::
              d.code == candidate.code || exists e | e in selected :: e.code == d.code
    ensures forall e | e in selected :: exists d | d in Select(selected, candidate, defaultState) :: d.code == e.code
  {
    if selected != [] && selected[0].code != candidate.code {
      var rest := selected[1..];
      SelectKeepsDistinct(rest, candidate, defaultState);
      var r := Select(rest, candidate, defaultState);
      forall d | d in r ensures d.code != selected[0].code {
        if d.code != candidate.code {
          var e :| e in rest && e.code == d.code;
        }
      }
      assert Select(selected, candidate, defaultState) == [selected[0]] + r;
      forall e | e in selected ensures exists d | d in [selected[0]] + r :: d.code == e.code {
        if e in rest {
          var d :| d in r && d.code == e.code;
          assert d in [selected[0]] + r;
        }
      }
    }
  }

  function StandardChecks(
    hasTable: bool, hasCreate: bool, states: seq<RepresentativeState>, defaultState: string): seq<CheckDefinition>
  {
    SelectByCode(CandidateChecks(hasTable, hasCreate, states, defaultState), defaultState)
  }

  lemma {:induction false} SelectByCodeDistinct(checks: seq<CheckDefinition>, defaultState: string)
    ensures CodesDistinct(SelectByCode(checks, defaultState))
    ensures forall c | c in checks :: exists d | d in SelectByCode(checks, defaultState) :: d.code == c.code
  {
    if checks != [] {
      var front, last := checks[..|checks| - 1], checks[|checks| - 1];
      SelectByCodeDistinct(front, defaultState);
      SelectKeepsDistinct(SelectByCode(front, defaultState), last, defaultState);
      SelectIncludes(SelectByCode(front, defaultState), last, defaultState);
      forall c | c in checks ensures exists d | d in SelectByCode(checks, defaultState) :: d.code == c.code {
        if c in front {
          var e :| e in SelectByCode(front, defaultState) && e.code == c.code;
        }
      }
    }
  }

  lemma {:induction false} SelectIncludes(selected: seq<CheckDefinition>, candidate: CheckDefinition, defaultState: string)
    ensures exists d | d in Select(selected, candidate, defaultState) :: d.code == candidate.code
  {
    if selected == [] {
      assert candidate in [candidate];
    } else if selected[0].code == candidate.code {
      var r := Select(selected, candidate, defaultState);
      assert r[0] in r && r[0].code == candidate.code;
    } else {
      SelectIncludes(selected[1..], candidate, defaultState);
      var d :| d in Select(selected[1..], candidate, defaultState) && d.code == candidate.code;
      assert d in Select(selected, candidate, defaultState);
    }
  }

  /** A page's checks have distinct codes, always include `page_open`, and include a table check and all
      five data templates when the page has a table. */
  lemma StandardChecksCodes(hasTable: bool, hasCreate: bool, states: seq<RepresentativeState>, defaultState: string)
    ensures var checks := StandardChecks(hasTable, hasCreate, states, defaultState);
            && CodesDistinct(checks)
            && (exists d | d in checks :: d.code == "page_open")
            && (hasTable ==> exists d | d in checks :: d.code == "table_render")
            && (hasTable ==> forall t | t in TEMPLATES :: exists d | d in checks :: d.code == t.code)
  {
    var candidates := CandidateChecks(hasTable, hasCreate, states, defaultState);
    SelectByCodeDistinct(candidates, defaultState);
    assert candidates[0].code == "page_open" && candidates[0] in candidates;
    if hasTable {
      assert candidates[1].code == "table_render" && candidates[1] in candidates;
      forall t | t in TEMPLATES ensures exists d | d in StandardChecks(hasTable, hasCreate, states, defaultState) :: d.code == t.code {
        var i :| 0 <= i < |TEMPLATES| && TEMPLATES[i] == t;
        var c := candidates[2 + i];
        assert c == TemplateChecks(defaultState)[i] && c in candidates;
      }
    }
  }
}
