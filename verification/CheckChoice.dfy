/** Which checks a page gets, read off its element rows and summary, and what each asks for:
    `asset_compiler/service.py` with `check_templates.py`. */
module CheckChoice {
  import opened Basics
  import opened Sorting
  import opened Text
  import opened Corpus
  import opened ModulePlans
  import opened Reconciliation
  import opened AssetCompiler
  import opened FreshCheckLaws
  import opened DataChecks

  // ---- Selection keeps codes ----

  lemma {:induction false} SelectedFrom(selected: seq<CheckDefinition>, candidate: CheckDefinition, defaultState: string)
    ensures forall d | d in Select(selected, candidate, defaultState) :: d in selected || d == candidate
  {
    if selected != [] && selected[0].code != candidate.code {
      SelectedFrom(selected[1..], candidate, defaultState);
    }
  }

  lemma {:induction false} SelectionFrom(checks: seq<CheckDefinition>, defaultState: string)
    ensures forall d | d in SelectByCode(checks, defaultState) :: d in checks
  {
    if checks != [] {
      SelectionFrom(checks[..|checks| - 1], defaultState);
      SelectedFrom(SelectByCode(checks[..|checks| - 1], defaultState), checks[|checks| - 1], defaultState);
      SnocSplit(checks);
    }
  }

  ghost predicate HasCode(checks: seq<CheckDefinition>, code: string) {
    exists d :: d in checks && d.code == code
  }

  lemma CodesKept(checks: seq<CheckDefinition>, defaultState: string, code: string)
    ensures HasCode(SelectByCode(checks, defaultState), code) <==> HasCode(checks, code)
  {
    SelectionFrom(checks, defaultState);
    SelectByCodeDistinct(checks, defaultState);
    if d :| d in checks && d.code == code {
      var e :| e in SelectByCode(checks, defaultState) && e.code == d.code;
    }
  }

  // ---- Rows ----

  ghost predicate OnSnapshotPage(facts: Facts, sid: Id, page: Page, e: PageElement) {
    e in facts.elements && e.snapshotId == sid && e.pageId == page.id
  }

  lemma PageElementsMembers(facts: Facts, sid: Id, page: Page)
    ensures forall e :: e in PageElements(facts, sid, page.id) <==> OnSnapshotPage(facts, sid, page, e)
  {
    SortMembers(ElementsOf(facts, sid), ByPageThenId);
    FilterMembers(facts.elements, ElementIn(sid));
    FilterMembers(Sort(ElementsOf(facts, sid), ByPageThenId), ElementOn(page.id));
  }

  ghost predicate ShowsTable(facts: Facts, sid: Id, page: Page) {
    exists e :: OnSnapshotPage(facts, sid, page, e) && Strip(e.kind) == "table"
  }

  /** One of the three words for creating something. */
  predicate NamesCreation(text: string) {
    Contains(text, "\U{65B0}\U{589E}") || Contains(text, "\U{521B}\U{5EFA}") || Contains(text, "\U{65B0}\U{5EFA}")
  }

  ghost predicate OffersCreation(facts: Facts, sid: Id, page: Page) {
    || NamesCreation(Normalized(page.summary))
    || exists e :: OnSnapshotPage(facts, sid, page, e) && NamesCreation(Normalized(e.text))
  }

  /** An element in a state of its own that is entered this way. */
  ghost predicate EnteredBy(page: Page, e: PageElement, entry: string) {
    && Normalized(e.stateSignature) != "" && Normalized(e.stateSignature) != Strip(DefaultState(page.route))
    && Normalized(e.entryType) == entry
  }

  ghost predicate HasState(facts: Facts, sid: Id, page: Page, entry: string) {
    exists e :: OnSnapshotPage(facts, sid, page, e) && EnteredBy(page, e, entry)
  }

  // ---- Candidates ----

  lemma NormalStripped(value: Option<string>)
    ensures Strip(Normalized(value)) == Normalized(value)
  {
    if value.Some? { StripIdempotent(value.value); }
  }

  ghost predicate StateListed(states: seq<RepresentativeState>, defaultState: string, entry: string) {
    exists s :: s in states && Strip(s.signature) != "" && Strip(s.signature) != Strip(defaultState) && Strip(s.entryType) == entry
  }

  lemma {:induction false} StateCodes(states: seq<RepresentativeState>, defaultState: string, code: string)
    ensures HasCode(StateChecks(states, defaultState), code) <==>
            || (code == "tab_switch_render" && StateListed(states, defaultState, "tab_switch"))
            || (code == "open_create_modal_state" && StateListed(states, defaultState, "open_modal"))
  {
    if states != [] {
      var front, s := states[..|states| - 1], states[|states| - 1];
      StateCodes(front, defaultState, code);
      SnocSplit(states);
      var last := StateChecks(states, defaultState)[|StateChecks(front, defaultState)|..];
      assert StateChecks(states, defaultState) == StateChecks(front, defaultState) + last;
      assert HasCode(StateChecks(states, defaultState), code) <==> HasCode(StateChecks(front, defaultState), code) || HasCode(last, code);
      StateCode(last, s, defaultState, code);
      forall entry ensures StateListed(states, defaultState, entry) <==> StateListed(front, defaultState, entry) || StateListed([s], defaultState, entry) {
      }
    }
  }

  lemma StateCode(last: seq<CheckDefinition>, s: RepresentativeState, defaultState: string, code: string)
    requires last == StateChecks([s], defaultState)
    ensures HasCode(last, code) <==>
            || (code == "tab_switch_render" && StateListed([s], defaultState, "tab_switch"))
            || (code == "open_create_modal_state" && StateListed([s], defaultState, "open_modal"))
  {
    assert [s][..0] == [];
    assert s in [s];
    if last != [] { assert last[0] in last; }
  }

  lemma StateOfElement(e: PageElement, page: Page, entry: string)
    requires entry != ""
    ensures var s := StateOf(DefaultState(page.route))(e);
            Representative(s) && Strip(s.signature) != "" && Strip(s.signature) != Strip(DefaultState(page.route)) && Strip(s.entryType) == entry
            <==> EnteredBy(page, e, entry)
  {
    NormalStripped(e.stateSignature);
    NormalStripped(e.entryType);
  }

  lemma StatesListed(facts: Facts, sid: Id, page: Page, entry: string)
    requires entry != ""
    ensures var state := DefaultState(page.route);
            StateListed(RepresentativeStates(PageElements(facts, sid, page.id), state), state, entry) <==> HasState(facts, sid, page, entry)
  {
    var state := DefaultState(page.route);
    var elements := PageElements(facts, sid, page.id);
    var all := Map(elements, StateOf(state));
    PageElementsMembers(facts, sid, page);
    FilterMembers(all, Representative);
    DedupeMembers(Filter(all, Representative));
    if s :| s in RepresentativeStates(elements, state) && Strip(s.signature) != "" && Strip(s.signature) != Strip(state) && Strip(s.entryType) == entry {
      var i :| 0 <= i < |all| && all[i] == s;
      StateOfElement(elements[i], page, entry);
      assert elements[i] in elements;
    }
    if e :| OnSnapshotPage(facts, sid, page, e) && EnteredBy(page, e, entry) {
      StateOfElement(e, page, entry);
      var i :| 0 <= i < |elements| && elements[i] == e;
      assert all[i] in all;
    }
  }

  ghost predicate IsTemplate(code: string) {
    exists i :: 0 <= i < |TEMPLATES| && TEMPLATES[i].code == code
  }

  lemma TemplateCodes(defaultState: string, code: string)
    ensures HasCode(TemplateChecks(defaultState), code) <==> IsTemplate(code)
  {
    var checks := TemplateChecks(defaultState);
    if IsTemplate(code) {
      var i :| 0 <= i < |TEMPLATES| && TEMPLATES[i].code == code;
      assert checks[i] in checks && checks[i].code == code;
    }
    if d :| d in checks && d.code == code {
      var i :| 0 <= i < |checks| && checks[i] == d;
      assert TEMPLATES[i].code == code;
    }
  }

  lemma HasCodeAppend(a: seq<CheckDefinition>, b: seq<CheckDefinition>, code: string)
    ensures HasCode(a + b, code) <==> HasCode(a, code) || HasCode(b, code)
  {
  }

  lemma HasCodeOne(d: CheckDefinition, code: string)
    ensures HasCode([d], code) <==> d.code == code
  {
    assert d in [d];
  }

  function TablePart(hasTable: bool, defaultState: string): seq<CheckDefinition> {
    if hasTable then [CheckDefinition("table_render", "table_render", Assertion("table_visible", []), defaultState)] + TemplateChecks(defaultState) else []
  }

  function CreatePart(hasCreate: bool, defaultState: string): seq<CheckDefinition> {
    if hasCreate then
      [CheckDefinition("open_create_modal", "open_create_modal", Assertion("page_ready", [Required("button", "button", "")]), defaultState)]
    else []
  }

  function OpeningPart(hasTable: bool, hasCreate: bool, defaultState: string): seq<CheckDefinition> {
    [CheckDefinition("page_open", "page_open", Assertion("page_ready", []), defaultState)]
    + TablePart(hasTable, defaultState) + CreatePart(hasCreate, defaultState)
  }

  lemma CandidateParts(hasTable: bool, hasCreate: bool, states: seq<RepresentativeState>, defaultState: string)
    ensures CandidateChecks(hasTable, hasCreate, states, defaultState)
         == OpeningPart(hasTable, hasCreate, defaultState) + StateChecks(states, defaultState)
  {
  }

  lemma TemplateCodesOwn(i: nat)
    requires i < |TEMPLATES|
    ensures TEMPLATES[i].code !in {"table_render", "tab_switch_render", "open_create_modal", "open_create_modal_state", "page_open"}
  {
  }

  /** What a check asserts and which elements it asks for, by its code. */
  ghost predicate Asserts(code: string, a: Assertion) {
    if code == "table_render" || code == "tab_switch_render" then a == Assertion("table_visible", [])
    else if code == "open_create_modal" then a == Assertion("page_ready", [Required("button", "button", "")])
    else if code == "open_create_modal_state" then a == Assertion("modal_visible", [])
    else if code == "page_open" then a == Assertion("page_ready", [])
    else exists i :: 0 <= i < |TEMPLATES| && TEMPLATES[i].code == code && a == Assertion(TEMPLATES[i].assertion, [])
  }

  /** No check of the opening part is for a state of its own. */
  ghost predicate Opening(d: CheckDefinition, defaultState: string) {
    && d.code != "tab_switch_render" && d.code != "open_create_modal_state"
    && d.state == defaultState && Asserts(d.code, d.assertion)
  }

  lemma TemplatesOpen(defaultState: string)
    ensures forall d | d in TemplateChecks(defaultState) :: Opening(d, defaultState)
  {
    var checks := TemplateChecks(defaultState);
    forall d | d in checks ensures Opening(d, defaultState) {
      var i :| 0 <= i < |checks| && checks[i] == d;
      TemplateCodesOwn(i);
      assert TEMPLATES[i].code == d.code && d.assertion == Assertion(TEMPLATES[i].assertion, []);
    }
  }

  lemma OpeningsOpen(hasTable: bool, hasCreate: bool, defaultState: string)
    ensures forall d | d in OpeningPart(hasTable, hasCreate, defaultState) :: Opening(d, defaultState)
  {
    TemplatesOpen(defaultState);
  }

  lemma CandidateCodes(hasTable: bool, hasCreate: bool, states: seq<RepresentativeState>, defaultState: string, code: string)
    ensures HasCode(CandidateChecks(hasTable, hasCreate, states, defaultState), code) <==>
            || code == "page_open"
            || (hasTable && (code == "table_render" || IsTemplate(code)))
            || (hasCreate && code == "open_create_modal")
            || HasCode(StateChecks(states, defaultState), code)
  {
    var open := CheckDefinition("page_open", "page_open", Assertion("page_ready", []), defaultState);
    var table, create := TablePart(hasTable, defaultState), CreatePart(hasCreate, defaultState);
    assert CandidateChecks(hasTable, hasCreate, states, defaultState) == [open] + table + create + StateChecks(states, defaultState);
    HasCodeAppend([open] + table + create, StateChecks(states, defaultState), code);
    HasCodeAppend([open] + table, create, code);
    HasCodeAppend([open], table, code);
    HasCodeOne(open, code);
    if hasTable {
      HasCodeAppend([table[0]], TemplateChecks(defaultState), code);
      HasCodeOne(table[0], code);
      TemplateCodes(defaultState, code);
    }
    if hasCreate {
      HasCodeOne(create[0], code);
    }
  }

  lemma StandardCodes(hasTable: bool, hasCreate: bool, states: seq<RepresentativeState>, state: string, code: string)
    ensures HasCode(StandardChecks(hasTable, hasCreate, states, state), code) <==>
            || code == "page_open"
            || (hasTable && (code == "table_render" || IsTemplate(code)))
            || (hasCreate && code == "open_create_modal")
            || (code == "tab_switch_render" && StateListed(states, state, "tab_switch"))
            || (code == "open_create_modal_state" && StateListed(states, state, "open_modal"))
  {
    CodesKept(CandidateChecks(hasTable, hasCreate, states, state), state, code);
    CandidateCodes(hasTable, hasCreate, states, state, code);
    StateCodes(states, state, code);
  }

  lemma TableShown(facts: Facts, sid: Id, page: Page)
    ensures (exists e | e in PageElements(facts, sid, page.id) :: Strip(e.kind) == "table") <==> ShowsTable(facts, sid, page)
  {
    PageElementsMembers(facts, sid, page);
  }

  lemma CreationOffered(facts: Facts, sid: Id, page: Page)
    ensures (exists e | e in PageElements(facts, sid, page.id) :: SuggestsCreate(Normalized(e.text))) || SuggestsCreate(Normalized(page.summary))
            <==> OffersCreation(facts, sid, page)
  {
    PageElementsMembers(facts, sid, page);
    forall text ensures SuggestsCreate(text) <==> NamesCreation(text) {
    }
  }

  lemma DefinitionsStandard(facts: Facts, sid: Id, page: Page)
    ensures var state := DefaultState(page.route);
            DefinitionsOf(facts, sid, page)
            == StandardChecks(ShowsTable(facts, sid, page), OffersCreation(facts, sid, page),
                              RepresentativeStates(PageElements(facts, sid, page.id), state), state)
  {
    TableShown(facts, sid, page);
    CreationOffered(facts, sid, page);
  }

  /** A page is checked for being open in any case; for its table and the data in it exactly if it shows a
      table; for its creation dialog exactly if it offers creation in an element or its summary; and for a
      tab or dialog state exactly if one of its elements is in a state of its own entered that way. */
  lemma ChecksChosen(facts: Facts, sid: Id, page: Page, code: string)
    ensures HasCode(DefinitionsOf(facts, sid, page), code) <==>
            || code == "page_open"
            || (ShowsTable(facts, sid, page) && (code == "table_render" || IsTemplate(code)))
            || (OffersCreation(facts, sid, page) && code == "open_create_modal")
            || (HasState(facts, sid, page, "tab_switch") && code == "tab_switch_render")
            || (HasState(facts, sid, page, "open_modal") && code == "open_create_modal_state")
  {
    var state := DefaultState(page.route);
    DefinitionsStandard(facts, sid, page);
    StandardCodes(
      ShowsTable(facts, sid, page), OffersCreation(facts, sid, page),
      RepresentativeStates(PageElements(facts, sid, page.id), state), state, code);
    StatesListed(facts, sid, page, "tab_switch");
    StatesListed(facts, sid, page, "open_modal");
  }

  // ---- Which state a state check is for ----

  function WithCode(code: string): CheckDefinition -> bool {
    (d: CheckDefinition) => d.code == code
  }

  lemma {:induction false} SelectKeeps(selected: seq<CheckDefinition>, candidate: CheckDefinition, defaultState: string, d: CheckDefinition)
    requires d in selected && Strip(d.state) != Strip(defaultState)
    ensures d in Select(selected, candidate, defaultState)
  {
    if selected[0] != d {
      assert d in selected[1..];
      if selected[0].code != candidate.code {
        SelectKeeps(selected[1..], candidate, defaultState, d);
      }
    }
  }

  lemma {:induction false} SelectAdds(selected: seq<CheckDefinition>, candidate: CheckDefinition, defaultState: string)
    requires !HasCode(selected, candidate.code)
    ensures candidate in Select(selected, candidate, defaultState)
  {
    if selected != [] {
      assert selected[0] in selected;
      forall d | d in selected[1..] ensures d.code != candidate.code { assert d in selected; }
      SelectAdds(selected[1..], candidate, defaultState);
    }
  }

  /** Where all definitions with a code are for states of their own, the first one is selected. */
  lemma {:induction false} FirstSelected(checks: seq<CheckDefinition>, defaultState: string, code: string)
    requires HasCode(checks, code) && forall d | d in checks && d.code == code :: Strip(d.state) != Strip(defaultState)
    ensures FirstThat(checks, WithCode(code)).Some? && FirstThat(checks, WithCode(code)).value in SelectByCode(checks, defaultState)
  {
    var front, last := checks[..|checks| - 1], checks[|checks| - 1];
    SnocSplit(checks);
    if FirstThat(front, WithCode(code)).Some? {
      assert HasCode(front, code);
      FirstSelected(front, defaultState, code);
      SelectKeeps(SelectByCode(front, defaultState), last, defaultState, FirstThat(front, WithCode(code)).value);
    } else {
      CodesKept(front, defaultState, code);
      SelectAdds(SelectByCode(front, defaultState), last, defaultState);
    }
  }

  predicate OwnState(s: RepresentativeState, defaultState: string, entry: string) {
    Strip(s.signature) != "" && Strip(s.signature) != Strip(defaultState) && Strip(s.entryType) == entry
  }

  function OwnStates(defaultState: string, entry: string): RepresentativeState -> bool {
    (s: RepresentativeState) => OwnState(s, defaultState, entry)
  }

  function CodeFor(entry: string): string {
    if entry == "tab_switch" then "tab_switch_render" else "open_create_modal_state"
  }

  lemma FirstOfOne<T>(x: T, p: T -> bool)
    ensures FirstThat([x], p) == if p(x) then Some(x) else None
  {
    assert [x][..0] == [];
  }

  function StateCheckFor(tab: bool, modal: bool, signature: string): seq<CheckDefinition> {
    if tab then [CheckDefinition("tab_switch_render", "tab_switch_render", Assertion("table_visible", []), signature)]
    else if modal then [CheckDefinition("open_create_modal_state", "open_create_modal", Assertion("modal_visible", []), signature)]
    else []
  }

  lemma OneState(s: RepresentativeState, defaultState: string)
    ensures StateChecks([s], defaultState)
         == StateCheckFor(OwnState(s, defaultState, "tab_switch"), OwnState(s, defaultState, "open_modal"), Strip(s.signature))
  {
    assert [s][..0] == [];
  }

  lemma FirstFor(tab: bool, modal: bool, signature: string, entry: string)
    requires !(tab && modal) && (entry == "tab_switch" || entry == "open_modal")
    ensures var first := FirstThat(StateCheckFor(tab, modal, signature), WithCode(CodeFor(entry)));
            && (first.Some? <==> if entry == "tab_switch" then tab else modal)
            && (first.Some? ==> first.value.state == signature)
  {
    var checks := StateCheckFor(tab, modal, signature);
    if checks != [] {
      assert checks == [checks[0]];
      FirstOfOne(checks[0], WithCode(CodeFor(entry)));
    }
  }

  lemma OneStateCheck(s: RepresentativeState, defaultState: string, entry: string)
    requires entry == "tab_switch" || entry == "open_modal"
    ensures var first := FirstThat(StateChecks([s], defaultState), WithCode(CodeFor(entry)));
            && (first.Some? <==> OwnState(s, defaultState, entry))
            && (first.Some? ==> first.value.state == Strip(s.signature))
  {
    OneState(s, defaultState);
    FirstFor(OwnState(s, defaultState, "tab_switch"), OwnState(s, defaultState, "open_modal"), Strip(s.signature), entry);
  }

  lemma StatesSnoc(front: seq<RepresentativeState>, s: RepresentativeState, defaultState: string)
    ensures StateChecks(front + [s], defaultState) == StateChecks(front, defaultState) + StateChecks([s], defaultState)
  {
    assert (front + [s])[..|front|] == front && [s][..0] == [];
  }

  ghost predicate SameState(first: Option<CheckDefinition>, s: Option<RepresentativeState>) {
    (first.Some? <==> s.Some?) && (s.Some? ==> first.value.state == Strip(s.value.signature))
  }

  lemma FirstSnoc<T>(front: seq<T>, x: T, p: T -> bool)
    ensures FirstThat(front + [x], p) == if FirstThat(front, p).Some? then FirstThat(front, p) else if p(x) then Some(x) else None
  {
    assert (front + [x])[..|front|] == front;
  }

  lemma {:induction false} FirstByState(states: seq<RepresentativeState>, defaultState: string, w: CheckDefinition -> bool, p: RepresentativeState -> bool)
    requires forall s :: FirstOne(s, defaultState, w, p)
    ensures SameState(FirstThat(StateChecks(states, defaultState), w), FirstThat(states, p))
  {
    if states != [] {
      var front, s := states[..|states| - 1], states[|states| - 1];
      FirstByState(front, defaultState, w, p);
      assert states == front + [s];
      FirstSnoc(front, s, p);
      StatesSnoc(front, s, defaultState);
      FirstAppend(StateChecks(front, defaultState), StateChecks([s], defaultState), w);
      assert FirstOne(s, defaultState, w, p);
    }
  }

  ghost predicate FirstOne(s: RepresentativeState, defaultState: string, w: CheckDefinition -> bool, p: RepresentativeState -> bool) {
    SameState(FirstThat(StateChecks([s], defaultState), w), if p(s) then Some(s) else None)
  }

  lemma FirstStateCheck(states: seq<RepresentativeState>, defaultState: string, entry: string)
    requires entry == "tab_switch" || entry == "open_modal"
    ensures var first, s := FirstThat(StateChecks(states, defaultState), WithCode(CodeFor(entry))), FirstThat(states, OwnStates(defaultState, entry));
            && (first.Some? <==> s.Some?)
            && (s.Some? ==> first.value.state == Strip(s.value.signature))
  {
    forall s ensures FirstOne(s, defaultState, WithCode(CodeFor(entry)), OwnStates(defaultState, entry)) {
      OneStateCheck(s, defaultState, entry);
    }
    FirstByState(states, defaultState, WithCode(CodeFor(entry)), OwnStates(defaultState, entry));
  }

  lemma NoStateCode(hasTable: bool, hasCreate: bool, states: seq<RepresentativeState>, defaultState: string, entry: string)
    requires entry == "tab_switch" || entry == "open_modal"
    ensures FirstThat(CandidateChecks(hasTable, hasCreate, states, defaultState), WithCode(CodeFor(entry)))
         == FirstThat(StateChecks(states, defaultState), WithCode(CodeFor(entry)))
  {
    var opening := OpeningPart(hasTable, hasCreate, defaultState);
    CandidateParts(hasTable, hasCreate, states, defaultState);
    FirstAppend(opening, StateChecks(states, defaultState), WithCode(CodeFor(entry)));
    OpeningsOpen(hasTable, hasCreate, defaultState);
    forall d | d in opening ensures d.code != CodeFor(entry) {
      assert Opening(d, defaultState);
    }
  }

  lemma {:induction false} StatesOwn(states: seq<RepresentativeState>, defaultState: string)
    ensures forall d | d in StateChecks(states, defaultState) :: Strip(d.state) != Strip(defaultState)
  {
    if states != [] {
      StatesOwn(states[..|states| - 1], defaultState);
      StripIdempotent(states[|states| - 1].signature);
    }
  }

  function Entered(page: Page, entry: string): PageElement -> bool {
    (e: PageElement) =>
      Normalized(e.stateSignature) != "" && Normalized(e.stateSignature) != Strip(DefaultState(page.route)) && Normalized(e.entryType) == entry
  }

  function KeptStates(defaultState: string, entry: string): RepresentativeState -> bool {
    (s: RepresentativeState) => Representative(s) && OwnState(s, defaultState, entry)
  }

  lemma {:induction false} SameFirst<T(!new)>(s: seq<T>, p: T -> bool, q: T -> bool)
    requires forall x | x in s :: p(x) == q(x)
    ensures FirstThat(s, p) == FirstThat(s, q)
  {
    if s != [] {
      SameFirst(s[..|s| - 1], p, q);
    }
  }

  /** The first state of its own entered that way is that of the first such element. */
  lemma FirstState(elements: seq<PageElement>, page: Page, entry: string)
    requires entry != ""
    ensures var state := DefaultState(page.route);
            var first, e := FirstThat(RepresentativeStates(elements, state), OwnStates(state, entry)), FirstThat(elements, Entered(page, entry));
            && (first.Some? <==> e.Some?)
            && (e.Some? ==> first.value.signature == Normalized(e.value.stateSignature))
  {
    var state := DefaultState(page.route);
    var all := Map(elements, StateOf(state));
    forall e ensures Entered(page, entry)(e) <==> KeptStates(state, entry)(StateOf(state)(e)) {
      StateOfElement(e, page, entry);
    }
    FirstOfMap(elements, StateOf(state), KeptStates(state, entry), Entered(page, entry));
    FirstOfFilter(all, Representative, KeptStates(state, entry));
    FirstOfDedupe(Filter(all, Representative), OwnStates(state, entry));
    FilterMembers(all, Representative);
    SameFirst(Filter(all, Representative), OwnStates(state, entry), KeptStates(state, entry));
  }

  lemma FirstElement(facts: Facts, sid: Id, page: Page, entry: string)
    requires KeysDistinct(facts)
    ensures var e := FirstThat(PageElements(facts, sid, page.id), Entered(page, entry));
            && (e.Some? <==> HasState(facts, sid, page, entry))
            && (e.Some? ==> OnSnapshotPage(facts, sid, page, e.value) && EnteredBy(page, e.value, entry)
                            && forall f | OnSnapshotPage(facts, sid, page, f) && EnteredBy(page, f, entry) :: e.value.id <= f.id)
  {
    var elements := PageElements(facts, sid, page.id);
    PageElementsMembers(facts, sid, page);
    ElementsByPage();
    SortSorts(ElementsOf(facts, sid), ByPageThenId);
    FilterKeepsSorted(Sort(ElementsOf(facts, sid), ByPageThenId), ElementOn(page.id), ByPageThenId);
    FirstIsLeast(elements, Entered(page, entry), ByPageThenId);
    var e := FirstThat(elements, Entered(page, entry));
    if e.Some? {
      forall f | OnSnapshotPage(facts, sid, page, f) && EnteredBy(page, f, entry) ensures e.value.id <= f.id {
        assert f in elements && Entered(page, entry)(f);
      }
    }
  }

  lemma ElementsByPage()
    ensures TotalPreorder(ByPageThenId)
  {
  }

  lemma StandardState(hasTable: bool, hasCreate: bool, states: seq<RepresentativeState>, state: string, entry: string)
    requires entry == "tab_switch" || entry == "open_modal"
    requires FirstThat(states, OwnStates(state, entry)).Some?
    ensures exists d :: d in StandardChecks(hasTable, hasCreate, states, state) && d.code == CodeFor(entry)
                        && d.state == Strip(FirstThat(states, OwnStates(state, entry)).value.signature)
  {
    var candidates := CandidateChecks(hasTable, hasCreate, states, state);
    NoStateCode(hasTable, hasCreate, states, state, entry);
    FirstStateCheck(states, state, entry);
    var first := FirstThat(candidates, WithCode(CodeFor(entry)));
    assert HasCode(candidates, CodeFor(entry));
    StateCandidates(hasTable, hasCreate, states, state, entry);
    FirstSelected(candidates, state, CodeFor(entry));
  }

  lemma StateCandidates(hasTable: bool, hasCreate: bool, states: seq<RepresentativeState>, state: string, entry: string)
    requires entry == "tab_switch" || entry == "open_modal"
    ensures forall d | d in CandidateChecks(hasTable, hasCreate, states, state) && d.code == CodeFor(entry) :: Strip(d.state) != Strip(state)
  {
    CandidateParts(hasTable, hasCreate, states, state);
    StatesOwn(states, state);
    OpeningsOpen(hasTable, hasCreate, state);
    forall d | d in OpeningPart(hasTable, hasCreate, state) ensures d.code != CodeFor(entry) {
      assert Opening(d, state);
    }
  }

  /** A state check is for the state of the first element, by identifier, that is in a state of its own
      entered that way. */
  lemma StateChosen(facts: Facts, sid: Id, page: Page, entry: string)
    requires KeysDistinct(facts) && HasState(facts, sid, page, entry) && (entry == "tab_switch" || entry == "open_modal")
    ensures exists d, e :: d in DefinitionsOf(facts, sid, page) && d.code == CodeFor(entry) && ForFirst(facts, sid, page, entry, d, e)
  {
    var elements, state := PageElements(facts, sid, page.id), DefaultState(page.route);
    FirstElement(facts, sid, page, entry);
    FirstState(elements, page, entry);
    var e := FirstThat(elements, Entered(page, entry)).value;
    NormalStripped(e.stateSignature);
    DefinitionsStandard(facts, sid, page);
    StandardState(ShowsTable(facts, sid, page), OffersCreation(facts, sid, page), RepresentativeStates(elements, state), state, entry);
    var d :| d in DefinitionsOf(facts, sid, page) && d.code == CodeFor(entry) && d.state == Normalized(e.stateSignature);
    assert ForFirst(facts, sid, page, entry, d, e);
  }

  ghost predicate ForFirst(facts: Facts, sid: Id, page: Page, entry: string, d: CheckDefinition, e: PageElement) {
    && OnSnapshotPage(facts, sid, page, e) && EnteredBy(page, e, entry) && d.state == Normalized(e.stateSignature)
    && forall f | OnSnapshotPage(facts, sid, page, f) && EnteredBy(page, f, entry) :: e.id <= f.id
  }

  // ---- What the checks ask for ----

  lemma {:induction false} StatesAsk(states: seq<RepresentativeState>, defaultState: string)
    ensures forall d | d in StateChecks(states, defaultState) :: Asserts(d.code, d.assertion)
  {
    if states != [] {
      StatesAsk(states[..|states| - 1], defaultState);
    }
  }

  lemma CandidatesAsk(hasTable: bool, hasCreate: bool, states: seq<RepresentativeState>, defaultState: string)
    ensures forall d | d in CandidateChecks(hasTable, hasCreate, states, defaultState) :: Asserts(d.code, d.assertion)
  {
    CandidateParts(hasTable, hasCreate, states, defaultState);
    StatesAsk(states, defaultState);
    OpeningsOpen(hasTable, hasCreate, defaultState);
    forall d | d in OpeningPart(hasTable, hasCreate, defaultState) ensures Asserts(d.code, d.assertion) {
      assert Opening(d, defaultState);
    }
  }

  /** Every check of a page asserts what its code says. */
  lemma DefinitionsAsk(facts: Facts, sid: Id, page: Page, d: CheckDefinition)
    requires d in DefinitionsOf(facts, sid, page)
    ensures Asserts(d.code, d.assertion)
  {
    var elements, state := PageElements(facts, sid, page.id), DefaultState(page.route);
    StandardAsk(
      exists e | e in elements :: Strip(e.kind) == "table",
      (exists e | e in elements :: SuggestsCreate(Normalized(e.text))) || SuggestsCreate(Normalized(page.summary)),
      RepresentativeStates(elements, state), state, d);
  }

  lemma StandardAsk(hasTable: bool, hasCreate: bool, states: seq<RepresentativeState>, defaultState: string, d: CheckDefinition)
    requires d in StandardChecks(hasTable, hasCreate, states, defaultState)
    ensures Asserts(d.code, d.assertion)
  {
    SelectionFrom(CandidateChecks(hasTable, hasCreate, states, defaultState), defaultState);
    CandidatesAsk(hasTable, hasCreate, states, defaultState);
  }

  // ---- What they depend on ----

  lemma {:induction false} NothingDerived(steps: seq<Step>)
    requires forall i | 0 <= i < |steps| :: Supported(steps[i].name) && steps[i].name != TABLE_VISIBLE
    ensures DerivedFromSteps(steps) == []
  {
    if steps != [] {
      SupportedStripped(steps[|steps| - 1].name);
      NothingDerived(steps[..|steps| - 1]);
    }
  }

  lemma PlanDerivesNothing(code: string, ctx: PageContext, state: string)
    ensures DerivedFromSteps(Plan(code, ctx, state, Bundle([]))) == []
  {
    var steps := Plan(code, ctx, state, Bundle([]));
    PlanShape(code, ctx, state, Bundle([]));
    forall i | 0 <= i < |steps| ensures steps[i].name != TABLE_VISIBLE {
      if i < 3 {
        assert steps[i] == Prologue(ctx)[i];
      }
    }
    NothingDerived(steps);
  }

  /** The elements a check depends on, by its code. */
  function DependsOn(code: string): seq<Required> {
    if code == "table_render" || code == "tab_switch_render" then [Required("table", "table", "")]
    else if code == "open_create_modal" then [Required("button", "button", "")]
    else if code == "open_create_modal_state" then [Required("dialog", "dialog", "")]
    else []
  }

  lemma CleanOne(r: Required)
    requires CleanRequired(r) == r && Demanding(r)
    ensures CleanRequirements([r]) == [r] && CleanRequirements([]) == []
  {
    assert Map([r], CleanRequired) == [r];
    FilterOne(r, Demanding);
    assert Map([], CleanRequired) == [];
  }

  lemma DedupeOne<T>(x: T)
    ensures Dedupe([x]) == [x]
  {
    assert [x][..0] == [];
  }

  lemma AssertionDerives(a: Assertion)
    ensures a.name == "table_visible" ==> DerivedFromAssertion(a) == [Required("table", "table", "")]
    ensures a.name == "modal_visible" ==> DerivedFromAssertion(a) == [Required("dialog", "dialog", "")]
    ensures a.name in {"page_ready", "data_count", "row_exists_by_field"} ==> DerivedFromAssertion(a) == []
  {
    if a.name in {"table_visible", "modal_visible", "page_ready", "data_count", "row_exists_by_field"} {
      PlainText(a.name);
      assert "table_visible"[0] == 't' && "modal_visible"[0] == 'm';
    }
  }

  lemma DataAssertions(i: nat)
    requires i < |TEMPLATES|
    ensures TEMPLATES[i].assertion in {"data_count", "row_exists_by_field"}
  {
  }

  lemma OwnRequired(code: string, a: Assertion)
    requires Asserts(code, a)
    ensures CleanRequirements(a.required) == if code == "open_create_modal" then [Required("button", "button", "")] else []
  {
    PlainText("button");
    CleanOne(Required("button", "button", ""));
  }

  lemma AssertionNamed(code: string, a: Assertion)
    requires Asserts(code, a)
    ensures a.name == (if code == "table_render" || code == "tab_switch_render" then "table_visible"
                       else if code == "open_create_modal_state" then "modal_visible" else a.name)
    ensures code !in {"table_render", "tab_switch_render", "open_create_modal_state"} ==>
              a.name in {"page_ready", "data_count", "row_exists_by_field"}
  {
    if code !in {"table_render", "tab_switch_render", "open_create_modal", "open_create_modal_state", "page_open"} {
      var i :| 0 <= i < |TEMPLATES| && TEMPLATES[i].code == code && a == Assertion(TEMPLATES[i].assertion, []);
      DataAssertions(i);
    }
  }

  lemma DerivedFor(code: string, a: Assertion)
    requires Asserts(code, a)
    ensures DerivedFromAssertion(a) == if code == "open_create_modal" then [] else DependsOn(code)
  {
    AssertionNamed(code, a);
    AssertionDerives(a);
  }

  lemma DedupeAtMostOne<T>(s: seq<T>)
    requires |s| <= 1
    ensures Dedupe(s) == s
  {
    if |s| == 1 {
      DedupeOne(s[0]);
      assert s == [s[0]];
    }
  }

  lemma RequiredOf(code: string, steps: seq<Step>, a: Assertion)
    requires Asserts(code, a) && DerivedFromSteps(steps) == []
    ensures BlockingDependency(steps, a).required == DependsOn(code)
  {
    OwnRequired(code, a);
    DerivedFor(code, a);
    DedupeAtMostOne(DependsOn(code));
    assert CleanRequirements(a.required) + [] + DerivedFromAssertion(a) == DependsOn(code);
  }

  /** A compiled check depends on its page's menu labels and on the elements of its code, and on nothing
      else. */
  lemma CompiledDependsOn(facts: Facts, sid: Id, page: Page, d: CheckDefinition)
    requires d in DefinitionsOf(facts, sid, page)
    ensures var c := CompileCheck(ContextOf(facts, sid, page), d);
            && c.code == d.code
            && c.dependencies == Dependencies(CleanLabels(MenuLabels(facts, sid, page.id)), DependsOn(d.code))
  {
    var ctx := ContextOf(facts, sid, page);
    var state := if d.state == "" then ctx.defaultState else d.state;
    DefinitionsAsk(facts, sid, page, d);
    PlanDerivesNothing(d.code, ctx, state);
    RequiredOf(d.code, Plan(d.code, ctx, state, Bundle([])), d.assertion);
    PlannedChain(ctx, d);
  }

  // ---- What their plans do ----

  /** A check for a tab or dialog state is for a state of its own, any other for the default one. */
  ghost predicate InState(d: CheckDefinition, defaultState: string) {
    if d.code == "tab_switch_render" || d.code == "open_create_modal_state" then d.state != "" && d.state != defaultState
    else d.state == defaultState
  }

  lemma {:induction false} StatesIn(states: seq<RepresentativeState>, defaultState: string)
    ensures forall d | d in StateChecks(states, defaultState) :: InState(d, defaultState)
  {
    if states != [] {
      StatesIn(states[..|states| - 1], defaultState);
      StripIdempotent(states[|states| - 1].signature);
    }
  }

  lemma DefinitionsIn(facts: Facts, sid: Id, page: Page, d: CheckDefinition)
    requires d in DefinitionsOf(facts, sid, page)
    ensures InState(d, DefaultState(page.route))
  {
    var state := DefaultState(page.route);
    var states := RepresentativeStates(PageElements(facts, sid, page.id), state);
    DefinitionsStandard(facts, sid, page);
    CandidatesIn(ShowsTable(facts, sid, page), OffersCreation(facts, sid, page), states, state, d);
  }

  lemma CandidatesIn(hasTable: bool, hasCreate: bool, states: seq<RepresentativeState>, state: string, d: CheckDefinition)
    requires d in StandardChecks(hasTable, hasCreate, states, state)
    ensures InState(d, state)
  {
    SelectionFrom(CandidateChecks(hasTable, hasCreate, states, state), state);
    CandidateParts(hasTable, hasCreate, states, state);
    StatesIn(states, state);
    OpeningsOpen(hasTable, hasCreate, state);
    if d in OpeningPart(hasTable, hasCreate, state) {
      assert Opening(d, state);
    }
  }

  lemma {:induction false} NotFound(templates: seq<Template>, code: string)
    requires forall t | t in templates :: t.code != code
    ensures FindTemplate(templates, code) == None
  {
    if templates != [] {
      NotFound(templates[1..], code);
    }
  }

  lemma PlainCode(code: string)
    requires code in {"table_render", "tab_switch_render", "open_create_modal", "open_create_modal_state", "page_open"}
    ensures Lower(Strip(code)) == code
  {
    PlainText(code);
  }

  lemma NoTemplate(code: string)
    requires Lower(Strip(code)) == code && !IsTemplate(code)
    ensures GetTemplate(code) == None
  {
    forall t | t in TEMPLATES ensures t.code != code {
      var i :| 0 <= i < |TEMPLATES| && TEMPLATES[i] == t;
    }
    NotFound(TEMPLATES, code);
  }

  /** The steps sign in, go to the page along its menus, wait for it, and enter the state of the check if it
      has one of its own. */
  ghost predicate Arrives(steps: seq<Step>, labels: seq<string>, route: string, d: CheckDefinition) {
    var own := d.code == "tab_switch_render" || d.code == "open_create_modal_state";
    && |steps| == (if own then 4 else 3)
    && steps[0] == Step("auth.inject_state", map["policy" := Str("server_injected")])
    && steps[1] == Step("nav.menu_chain", map["menu_chain" := Labels(labels), "route_path" := Str(route)])
    && steps[2] == Step("page.wait_ready", map["route_path" := Str(route)])
    && (own ==> steps[3] == Step("state.enter", map["state_signature" := Str(d.state)]))
  }

  /** The steps look for what the check asserts, at an element of the kind it depends on, and then click if
      it is the creation check. */
  ghost predicate Looks(steps: seq<Step>, d: CheckDefinition, bundle: Value) {
    && |steps| == (if d.code == "open_create_modal" then 2 else 1)
    && steps[0].name == "locator.assert"
    && steps[0].params == map["assertion" := Str(d.assertion.name),
                              "expected_element_type" := Str(if DependsOn(d.code) == [] then "page" else DependsOn(d.code)[0].kind),
                              "locator_bundle" := bundle]
    && (d.code == "open_create_modal" ==> steps[1] == Step("action.open_create_modal", map[]))
  }

  /** The steps are the actions and the assertion of a template, all on the table. */
  ghost predicate QueriesTable(steps: seq<Step>, t: Template) {
    && |steps| == |t.actionChain| + 1
    && (forall i | 0 <= i < |t.actionChain| :: steps[i].name == t.actionChain[i])
    && steps[|t.actionChain|].name == t.assertModule
    && forall i | 0 <= i < |steps| :: "carrier" in steps[i].params && steps[i].params["carrier"] == Str("table")
  }

  lemma OwnCarrier(i: nat, name: string)
    requires i < |TEMPLATES|
    ensures "carrier" !in TEMPLATES[i].assertParams
    ensures name in TEMPLATES[i].actionParams ==> "carrier" !in TEMPLATES[i].actionParams[name]
  {
    assert "carrier" != "field" && "carrier" != "operator" && "carrier" != "value";
    assert "carrier" != "expected_min" && "carrier" != "expected_max";
  }

  lemma TemplateQueries(i: nat)
    requires i < |TEMPLATES|
    ensures QueriesTable(TemplateSteps(TEMPLATES[i], "table"), TEMPLATES[i])
  {
    var t, steps := TEMPLATES[i], TemplateSteps(TEMPLATES[i], "table");
    forall j | 0 <= j < |t.actionChain| ensures steps[j] == TemplateStep(t, "table", t.actionChain[j]) {
    }
    forall name ensures "carrier" in TemplateStep(t, "table", name).params && TemplateStep(t, "table", name).params["carrier"] == Str("table") {
      OwnCarrier(i, name);
    }
    OwnCarrier(i, "");
  }

  lemma TableCarrier(ctx: PageContext)
    requires ctx.hasTable && ctx.carrierHint == ""
    ensures CarrierHint(ctx) == "table"
  {
  }

  lemma PlanArrives(ctx: PageContext, d: CheckDefinition)
    requires InState(d, ctx.defaultState)
    ensures Arrives(Prologue(ctx) + StateSteps(ctx, d.state), ctx.menuChain, ctx.route, d)
  {
  }

  lemma WorkLooks(ctx: PageContext, d: CheckDefinition, bundle: Value)
    requires InState(d, ctx.defaultState) && Asserts(d.code, d.assertion) && !IsTemplate(d.code) && GetTemplate(d.code) == None
    ensures Looks(Epilogue(d.code, ctx, d.state, bundle), d, bundle)
  {
  }

  lemma PlanLooks(ctx: PageContext, d: CheckDefinition, bundle: Value)
    requires InState(d, ctx.defaultState) && Asserts(d.code, d.assertion) && !IsTemplate(d.code)
    ensures Looks(Epilogue(d.code, ctx, d.state, bundle), d, bundle)
  {
    PlainCode(d.code);
    NoTemplate(d.code);
    WorkLooks(ctx, d, bundle);
  }

  lemma TemplateOnTable(facts: Facts, sid: Id, page: Page, d: CheckDefinition, i: nat)
    requires d in DefinitionsOf(facts, sid, page) && i < |TEMPLATES| && TEMPLATES[i].code == d.code
    ensures ContextOf(facts, sid, page).hasTable
  {
    ChecksChosen(facts, sid, page, d.code);
    TemplateCodesOwn(i);
    TableShown(facts, sid, page);
  }

  /** Every plan of a page goes to the page and to the state of its check; then the plan of a data check
      works on the table, and that of any other check looks for what the check asserts. */
  lemma PlanOfCheck(facts: Facts, sid: Id, page: Page, d: CheckDefinition, bundle: Value)
    requires d in DefinitionsOf(facts, sid, page)
    ensures exists way, work ::
              && Plan(d.code, ContextOf(facts, sid, page), d.state, bundle) == way + work
              && Arrives(way, MenuLabels(facts, sid, page.id), page.route, d)
              && (IsTemplate(d.code) ==> exists i :: 0 <= i < |TEMPLATES| && TEMPLATES[i].code == d.code && QueriesTable(work, TEMPLATES[i]))
              && (!IsTemplate(d.code) ==> Looks(work, d, bundle))
  {
    var ctx := ContextOf(facts, sid, page);
    var way, work := Prologue(ctx) + StateSteps(ctx, d.state), Epilogue(d.code, ctx, d.state, bundle);
    DefinitionsIn(facts, sid, page, d);
    DefinitionsAsk(facts, sid, page, d);
    PlanArrives(ctx, d);
    if IsTemplate(d.code) {
      var i: nat :| i < |TEMPLATES| && TEMPLATES[i].code == d.code;
      TemplateOnTable(facts, sid, page, d, i);
      TableCarrier(ctx);
      CodeFound(i);
      TemplateQueries(i);
    } else {
      PlanLooks(ctx, d, bundle);
    }
    assert Plan(d.code, ctx, d.state, bundle) == way + work;
  }
}
