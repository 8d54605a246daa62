/** Two pages whose routes differ only in a slash at the end, a menu and a table on the first: the compile
    of their snapshot creates the table check and retires it again for a missing menu chain. */
module CollidingPages {
  import opened Basics
  import opened Sorting
  import opened Text
  import opened Corpus
  import opened ModulePlans
  import opened Reconciliation
  import opened AssetCompiler
  import opened AssetKeys
  import opened LifecycleLaws
  import opened GateLaws
  import opened FreshCheckLaws

  /** The pages `/a` and `/a/`, a menu and a table on the first. */
  predicate Setting(facts: Facts, plain: Page, slashed: Page, menu: MenuNode, table: PageElement) {
    && facts == Facts([plain, slashed], [menu], [table])
    && plain == Page(1, 1, "/a", None, None) && slashed == Page(2, 1, "/a/", None, None)
    && menu == MenuNode(1, 1, None, Some(1), "M", None, 0, 0)
    && table == PageElement(1, 1, 1, "table", None, None, None, "", None)
  }

  lemma TwoPages(facts: Facts, plain: Page, slashed: Page, systemCode: string)
    requires facts.pages == [plain, slashed] && plain.snapshotId == slashed.snapshotId == 1
    requires plain.route == "/a" && slashed.route == "/a/"
    ensures Sort(PagesOf(facts, 1), PageOrder) == [plain, slashed]
    ensures PageInputs(systemCode, facts, 1) == [InputOf(systemCode, facts, 1, plain), InputOf(systemCode, facts, 1, slashed)]
  {
    FilterTwo(plain, slashed, PageIn(1));
    assert plain.route[1..][1..] == "";
    assert StrLe(plain.route, slashed.route);
    SortTwo(plain, slashed, PageOrder);
  }

  lemma OneElement(facts: Facts, table: PageElement)
    requires facts.elements == [table] && table.snapshotId == 1 && table.pageId == 1
    ensures PageElements(facts, 1, 1) == [table] && PageElements(facts, 1, 2) == []
  {
    FilterOne(table, ElementIn(1));
    assert ElementsOf(facts, 1) == [table];
    SortOne(table, ByPageThenId);
    FilterOne(table, ElementOn(1));
    FilterOne(table, ElementOn(2));
  }

  lemma TableIncluded(hasCreate: bool, states: seq<RepresentativeState>, defaultState: string) returns (d: CheckDefinition)
    ensures d in StandardChecks(true, hasCreate, states, defaultState) && d.code == "table_render"
  {
    StandardChecksCodes(true, hasCreate, states, defaultState);
    d :| d in StandardChecks(true, hasCreate, states, defaultState) && d.code == "table_render";
  }

  lemma TableDefined(facts: Facts, page: Page, table: PageElement) returns (d: CheckDefinition)
    requires table in PageElements(facts, 1, page.id) && Strip(table.kind) == "table"
    ensures d in DefinitionsOf(facts, 1, page) && d.code == "table_render"
  {
    var elements := PageElements(facts, 1, page.id);
    d := TableIncluded(
      (exists e | e in elements :: SuggestsCreate(Normalized(e.text))) || SuggestsCreate(Normalized(page.summary)),
      RepresentativeStates(elements, DefaultState(page.route)), DefaultState(page.route));
  }

  lemma DefinedIsCompiled(definitions: seq<CheckDefinition>, ctx: PageContext, d: CheckDefinition)
    requires d in definitions
    ensures CheckFor(Map(definitions, CompileWith(ctx)), d.code).Some?
  {
    var checks := Map(definitions, CompileWith(ctx));
    var j :| 0 <= j < |definitions| && definitions[j] == d;
    assert checks[j] == CompileCheck(ctx, d) && checks[j] in checks;
  }

  lemma CompiledIsDefined(definitions: seq<CheckDefinition>, ctx: PageContext, code: string)
    requires forall d | d in definitions :: d.code != code
    ensures CheckFor(Map(definitions, CompileWith(ctx)), code).None?
  {
    var checks := Map(definitions, CompileWith(ctx));
    forall j | 0 <= j < |checks| ensures checks[j].code != code {
      assert checks[j] == CompileCheck(ctx, definitions[j]) && definitions[j] in definitions;
    }
  }

  /** What a page without table, create action and states is checked for. */
  function OpenCheck(page: Page): CheckDefinition {
    CheckDefinition("page_open", "page_open", Assertion("page_ready", []), DefaultState(page.route))
  }

  lemma BarePage(facts: Facts, page: Page)
    requires PageElements(facts, 1, page.id) == [] && page.summary.None?
    ensures DefinitionsOf(facts, 1, page) == [OpenCheck(page)]
  {
    var state := DefaultState(page.route);
    assert !SuggestsCreate("");
    assert RepresentativeStates([], state) == [];
    var only := OpenCheck(page);
    assert CandidateChecks(false, false, [], state) == [only];
    assert [only][..0] == [];
    assert SelectByCode([only], state) == Select([], only, state);
  }

  lemma OneMenu(facts: Facts, menu: MenuNode)
    requires facts.menus == [menu] && menu.snapshotId == 1
    ensures MenusOf(facts, 1) == [menu] && Sort(MenusOf(facts, 1), DisplayOrder) == [menu]
    ensures Sort(Sort(MenusOf(facts, 1), DisplayOrder), TruthOrder) == [menu]
  {
    FilterOne(menu, MenuIn(1));
    SortOne(menu, DisplayOrder);
    SortOne(menu, TruthOrder);
  }

  lemma ChainExpected(facts: Facts, menu: MenuNode)
    requires facts.menus == [menu] && menu.snapshotId == 1 && menu.pageId == Some(1) && menu.name == "M"
    ensures CleanLabels(MenuLabels(facts, 1, 1)) == ["M"]
  {
    OneMenu(facts, menu);
    assert Strip("M") == "M";
    PageLabelsSnoc([], menu, 1);
    assert [] + [menu] == [menu] && PageLabels([], 1) == [];
  }

  lemma SlashedRoutes()
    ensures Strip("/a") == "/a" && Strip("/a/") == "/a/" && "/a" + "/" == "/a/"
  {
  }

  lemma ChainGone(facts: Facts, plain: Page, slashed: Page, menu: MenuNode)
    requires facts.menus == [menu] && menu.snapshotId == 1 && menu.pageId == Some(plain.id)
    requires Sort(PagesOf(facts, 1), PageOrder) == [plain, slashed]
    requires plain.id != slashed.id && Strip(plain.route) != Strip(slashed.route)
    ensures At(TruthFor(facts, 1).chains, Strip(slashed.route)) == []
  {
    OneMenu(facts, menu);
    var index := RouteIndex([plain, slashed]);
    assert [plain, slashed][..1] == [plain] && [plain][..0] == [];
    assert RouteIndex([plain]) == map[plain.id := Strip(plain.route)];
    assert index[plain.id] == Strip(plain.route);
    ChainsCollect(index, [menu], Strip(slashed.route));
    assert [menu][..0] == [];
  }

  lemma LastOfTwo(a: PageInput, b: PageInput, code: string)
    requires a.key == b.key && CheckFor(a.checks, code).Some? && CheckFor(b.checks, code).None?
    ensures LastFor([a, b], a.key) == Some(b) && LastCompiling([a, b], a.key, code) == Some(a)
  {
    assert [a, b][..1] == [a];
  }

  lemma TableCompiled(systemCode: string, facts: Facts, page: Page, table: PageElement)
    requires PageElements(facts, 1, page.id) == [table] && table.kind == "table"
    ensures CheckFor(InputOf(systemCode, facts, 1, page).checks, "table_render").Some?
  {
    assert Strip("table") == "table";
    var d := TableDefined(facts, page, table);
    DefinedIsCompiled(DefinitionsOf(facts, 1, page), ContextOf(facts, 1, page), d);
  }

  lemma TableNotCompiled(systemCode: string, facts: Facts, page: Page)
    requires PageElements(facts, 1, page.id) == [] && page.summary.None?
    ensures CheckFor(InputOf(systemCode, facts, 1, page).checks, "table_render").None?
  {
    BarePage(facts, page);
    CompiledIsDefined(DefinitionsOf(facts, 1, page), ContextOf(facts, 1, page), "table_render");
  }

  lemma LastPages(facts: Facts, plain: Page, slashed: Page, menu: MenuNode, table: PageElement, systemCode: string)
    requires Setting(facts, plain, slashed, menu, table)
    ensures var inputs, key := PageInputs(systemCode, facts, 1), AssetKey(systemCode, plain.route, None);
            && LastFor(inputs, key) == Some(InputOf(systemCode, facts, 1, slashed))
            && LastCompiling(inputs, key, "table_render") == Some(InputOf(systemCode, facts, 1, plain))
  {
    TwoPages(facts, plain, slashed, systemCode);
    SlashedRoutes();
    AssetKeysCollide(systemCode, plain.route, None);
    OneElement(facts, table);
    TableCompiled(systemCode, facts, plain, table);
    TableNotCompiled(systemCode, facts, slashed);
    LastOfTwo(InputOf(systemCode, facts, 1, plain), InputOf(systemCode, facts, 1, slashed), "table_render");
  }

  lemma NoSubsequence(name: string)
    ensures !Subsequence([name], [])
  {
    assert !Scan([name], []);
    ScanIsSubsequence([name], []);
  }

  lemma SettingKeys(facts: Facts, plain: Page, slashed: Page, menu: MenuNode, table: PageElement)
    requires Setting(facts, plain, slashed, menu, table)
    ensures KeysDistinct(facts)
  {
  }

  lemma TableCheckFate(facts: Facts, plain: Page, slashed: Page, menu: MenuNode, table: PageElement, systemCode: string)
    requires Setting(facts, plain, slashed, menu, table)
    ensures var inputs, key := PageInputs(systemCode, facts, 1), AssetKey(systemCode, plain.route, None);
            && LastCompiling(inputs, key, "table_render").Some?
            && FateOf(facts, 1, inputs, key, "table_render") == Some(MissingMenuChain)
  {
    TwoPages(facts, plain, slashed, systemCode);
    LastPages(facts, plain, slashed, menu, table, systemCode);
    SlashedRoutes();
    ChainExpected(facts, menu);
    ChainGone(facts, plain, slashed, menu);
    NoSubsequence("M");
  }

  lemma GateOpen(facts: Facts, row: Snapshot)
    requires GoodSnapshot(row)
    ensures GateFor(Tables(map[], map[], 0), facts, 1, row).allow
  {
    var t := Tables(map[], map[], 0);
    assert AssetsInService(t, row.systemId) == {};
    assert ActiveAssets(t, row.systemId) == [];
    assert PreviousPageCount(t, facts.pages, row.systemId) == 0;
  }

  lemma RetiredByFate(t: Tables, facts: Facts, sid: Id, row: Snapshot, systemCode: string, now: Time, key: string, code: string, reason: Reason)
    requires TablesInv(t) && GoodSnapshot(row) && KeysDistinct(facts) && GateFor(t, facts, sid, row).allow
    requires LastCompiling(PageInputs(systemCode, facts, sid), key, code).Some?
    requires FateOf(facts, sid, PageInputs(systemCode, facts, sid), key, code) == Some(reason)
    ensures var u := Upserted(t, facts, sid, row, systemCode).tables;
            var check := CheckAt(u, row.systemId, key, code);
            && check.Some? && CheckOn(u, check.value)
            && NamedFor(RetirementsOf(u, facts, sid, row.systemId, GateFor(t, facts, sid, row)), check.value, reason)
            && !CheckOn(CompileBody(t, facts, sid, row, systemCode, now).tables, check.value)
  {
    GateMeaning(t, facts, sid, row);
    FreshCheckFate(t, facts, sid, row, systemCode, GateFor(t, facts, sid, row), key, code);
    FreshCheckStays(t, facts, sid, row, systemCode, now, key, code);
  }

  /** The first compile of such a snapshot creates the table check and retires it. */
  lemma FreshCheckRetired(
    facts: Facts, plain: Page, slashed: Page, menu: MenuNode, table: PageElement, row: Snapshot, systemCode: string, now: Time)
    requires Setting(facts, plain, slashed, menu, table) && GoodSnapshot(row)
    ensures var t := Tables(map[], map[], 0);
            var u := Upserted(t, facts, 1, row, systemCode).tables;
            var check := CheckAt(u, row.systemId, AssetKey(systemCode, plain.route, None), "table_render");
            && check.Some? && CheckOn(u, check.value)
            && NamedFor(RetirementsOf(u, facts, 1, row.systemId, GateFor(t, facts, 1, row)), check.value, MissingMenuChain)
            && !CheckOn(CompileBody(t, facts, 1, row, systemCode, now).tables, check.value)
  {
    var t := Tables(map[], map[], 0);
    var key := AssetKey(systemCode, plain.route, None);
    TableCheckFate(facts, plain, slashed, menu, table, systemCode);
    SettingKeys(facts, plain, slashed, menu, table);
    GateOpen(facts, row);
    RetiredByFate(t, facts, 1, row, systemCode, now, key, "table_render", MissingMenuChain);
  }
}
