/** One compile that retires a check with an active job and brings back a check with a paused one. If its
    cascade fails, both jobs are left wrong. */
module StrandedJobs {
  import opened Basics
  import opened Sorting
  import opened Text
  import opened Corpus
  import opened ModulePlans
  import opened Reconciliation
  import opened AssetCompiler
  import opened AssetKeys
  import opened LifecycleLaws
  import opened GateLaws
  import opened FreshCheckLaws
  import opened CheckChoice
  import opened CollidingPages
  import opened Cascade

  const NO_DEPENDENCIES := Dependencies([], [])

  /** An asset on the page without the slash, its table check in service, its page check retired. */
  predicate Before(t: Tables, systemId: Id, key: string) {
    && t.assets == map[1 := PageAsset(systemId, key, 1, 0, InService, None, None, None)]
    && t.checks == map[
         2 := PageCheck(1, "table_render", "", NO_DEPENDENCIES, InService, None, None, None),
         3 := PageCheck(1, "page_open", "", NO_DEPENDENCIES, RetiredMissing, None, None, None)]
    && t.nextId == 4
  }

  lemma BeforeRows(t: Tables, systemId: Id, key: string)
    requires Before(t, systemId, key)
    ensures TablesInv(t) && CheckOn(t, 2) && 3 in t.checks && !CheckOn(t, 3)
    ensures FindAsset(t.assets, systemId, key) == Some(1)
    ensures FindCheck(t.checks, 1, "table_render") == Some(2) && FindCheck(t.checks, 1, "page_open") == Some(3)
  {
    assert AssetRows(t.assets, systemId, key) == {1};
    FirstMeaning(AssetRows(t.assets, systemId, key));
    assert "table_render" != "page_open";
    assert CheckRows(t.checks, 1, "table_render") == {2};
    FirstMeaning(CheckRows(t.checks, 1, "table_render"));
    assert CheckRows(t.checks, 1, "page_open") == {3};
    FirstMeaning(CheckRows(t.checks, 1, "page_open"));
  }

  lemma SameRows(t: Tables, systemId: Id, key: string, facts: Facts, row: Snapshot, systemCode: string)
    requires Before(t, systemId, key) && row.systemId == systemId && GoodSnapshot(row)
    ensures var u := Upserted(t, facts, 1, row, systemCode).tables;
            CheckAt(u, systemId, key, "table_render") == Some(2) && CheckAt(u, systemId, key, "page_open") == Some(3)
  {
    BeforeRows(t, systemId, key);
    var inputs := PageInputs(systemCode, facts, 1);
    RowsKeepIdentity(t, systemId, 1, inputs, systemId, key, 1, "table_render");
    RowsKeepIdentity(t, systemId, 1, inputs, systemId, key, 1, "page_open");
  }

  lemma GateStaysOpen(t: Tables, key: string, facts: Facts, plain: Page, slashed: Page, row: Snapshot)
    requires Before(t, row.systemId, key) && GoodSnapshot(row)
    requires Sort(PagesOf(facts, 1), PageOrder) == [plain, slashed] && Strip(slashed.route) != ""
    ensures GateFor(t, facts, 1, row).allow
  {
    ActiveAssetsKnown(t, row.systemId);
    var routes := CountedRoutes(t, facts.pages, row.systemId);
    assert routes <= {AssetRoute(t, facts.pages, 1)};
    AtMostOne(routes, AssetRoute(t, facts.pages, 1));
    var current := RouteIndex([plain, slashed]).Values - {""};
    assert RouteIndex([plain, slashed])[slashed.id] == Strip(slashed.route);
    assert Strip(slashed.route) in current;
  }

  lemma AtMostOne<T>(s: set<T>, x: T)
    requires s <= {x}
    ensures |s| <= 1
  {
    assert s == {} || s == {x};
  }

  // ---- The page check stays ----

  lemma NothingRequired(steps: seq<Step>, a: Assertion)
    requires DerivedFromSteps(steps) == [] && a.required == [] && DerivedFromAssertion(a) == []
    ensures BlockingDependency(steps, a).required == []
  {
    assert CleanRequirements([]) == [];
  }

  lemma ReadyDerivesNothing(a: Assertion)
    requires a.name == "page_ready"
    ensures DerivedFromAssertion(a) == []
  {
    PlainText(a.name);
    assert a.name[0] == 'p';
  }

  lemma Undemanding(ctx: PageContext, d: CheckDefinition)
    requires d.assertion.name == "page_ready" && d.assertion.required == []
    ensures CompileCheck(ctx, d).dependencies.required == []
  {
    var state := if d.state == "" then ctx.defaultState else d.state;
    PlanDerivesNothing(d.code, ctx, state);
    ReadyDerivesNothing(d.assertion);
    NothingRequired(Plan(d.code, ctx, state, Bundle([])), d.assertion);
  }

  lemma NoMenus(facts: Facts, menu: MenuNode, pageId: Id)
    requires facts.menus == [menu] && menu.snapshotId == 1 && menu.pageId != Some(pageId)
    ensures CleanLabels(MenuLabels(facts, 1, pageId)) == []
  {
    OneMenu(facts, menu);
    PageLabelsSnoc([], menu, pageId);
    assert [] + [menu] == [menu] && PageLabels([], pageId) == [];
  }

  lemma OnlyCheck(systemCode: string, facts: Facts, page: Page)
    requires PageElements(facts, 1, page.id) == [] && page.summary.None?
    ensures var found := CheckFor(InputOf(systemCode, facts, 1, page).checks, "page_open");
            found.Some? && found.value.dependencies.required == []
  {
    BarePage(facts, page);
    var checks := InputOf(systemCode, facts, 1, page).checks;
    assert checks[0] == CompileCheck(ContextOf(facts, 1, page), OpenCheck(page));
    Undemanding(ContextOf(facts, 1, page), OpenCheck(page));
    assert |checks| == 1 && checks[0] in checks;
  }

  lemma NothingGone(facts: Facts, sid: Id, on: Page, from: Page, compiled: CompiledCheck)
    requires CleanLabels(MenuLabels(facts, sid, from.id)) == [] && compiled.dependencies.required == []
    ensures Fate(facts, sid, on, from, compiled) == None
  {
    assert Embeds([], At(TruthFor(facts, sid).chains, Strip(on.route)), []);
    assert NormalDependencies(compiled.dependencies).required == [];
  }

  lemma PageCheckFate(facts: Facts, plain: Page, slashed: Page, menu: MenuNode, table: PageElement, systemCode: string)
    requires Setting(facts, plain, slashed, menu, table)
    ensures var inputs, key := PageInputs(systemCode, facts, 1), AssetKey(systemCode, plain.route, None);
            && LastCompiling(inputs, key, "page_open").Some?
            && FateOf(facts, 1, inputs, key, "page_open") == None
  {
    TwoPages(facts, plain, slashed, systemCode);
    SlashedRoutes();
    AssetKeysCollide(systemCode, plain.route, None);
    OneElement(facts, table);
    OnlyCheck(systemCode, facts, slashed);
    NoMenus(facts, menu, slashed.id);
    var from := InputOf(systemCode, facts, 1, slashed);
    NothingGone(facts, 1, slashed, slashed, CheckFor(from.checks, "page_open").value);
  }

  // ---- The jobs ----

  function JobOf(check: Id): PublishedJob {
    PublishedJob(check, "", JobActive, None, None, None, None)
  }

  /** An active job of the table check and one of the page check that an earlier compile paused. */
  predicate TwoJobs(jobs: Jobs) {
    jobs == map[5 := JobOf(2), 6 := Pause(JobOf(3), 0)]
  }

  lemma TwoJobsLawful(jobs: Jobs, t: Tables, systemId: Id, key: string)
    requires TwoJobs(jobs) && Before(t, systemId, key)
    ensures JobsInv(jobs, t) && ActiveOn(jobs, t)
  {
    BeforeRows(t, systemId, key);
  }

  lemma JobsQueried(jobs: Jobs, r: Compiled)
    requires TwoJobs(jobs) && 2 in r.retiredChecks && 3 in r.resumedChecks
    ensures 5 in JobsToPause(jobs, r.retiredChecks) && 6 in JobsToResume(jobs, r.resumedChecks)
  {
    PauseMarks(JobOf(3), 0);
    JobQueries(jobs, r.retiredChecks);
    JobQueries(jobs, r.resumedChecks);
  }

  lemma JobsLeft(jobs: Jobs, t: Tables, r: Compiled, systemId: Id, key: string)
    requires TwoJobs(jobs) && Before(t, systemId, key) && Moves(t, r) && 2 in r.retiredChecks && 3 in r.resumedChecks
    ensures JobsInv(jobs, t) && ActiveOn(jobs, t)
    ensures 5 in JobsToPause(jobs, r.retiredChecks) && !ActiveOn(jobs, r.tables)
    ensures 6 in JobsToResume(jobs, r.resumedChecks) && !JobsInv(jobs, r.tables)
  {
    TwoJobsLawful(jobs, t, systemId, key);
    JobsQueried(jobs, r);
    CompileWithoutCascade(jobs, t, r);
  }

  lemma ChecksSwap(
    facts: Facts, plain: Page, slashed: Page, menu: MenuNode, table: PageElement, row: Snapshot, systemCode: string, now: Time, t: Tables)
    requires Setting(facts, plain, slashed, menu, table) && GoodSnapshot(row)
    requires Before(t, row.systemId, AssetKey(systemCode, plain.route, None))
    ensures var r := CompileBody(t, facts, 1, row, systemCode, now);
            Moves(t, r) && 2 in r.retiredChecks && 3 in r.resumedChecks
  {
    var key := AssetKey(systemCode, plain.route, None);
    BeforeRows(t, row.systemId, key);
    SameRows(t, row.systemId, key, facts, row, systemCode);
    SettingKeys(facts, plain, slashed, menu, table);
    TwoPages(facts, plain, slashed, systemCode);
    SlashedRoutes();
    GateStaysOpen(t, key, facts, plain, slashed, row);
    GateMeaning(t, facts, 1, row);
    TableCheckFate(facts, plain, slashed, menu, table, systemCode);
    PageCheckFate(facts, plain, slashed, menu, table, systemCode);
    FreshCheckStays(t, facts, 1, row, systemCode, now, key, "table_render");
    FreshCheckStays(t, facts, 1, row, systemCode, now, key, "page_open");
    CompileBodyMoves(t, facts, 1, row, systemCode, now);
  }

  /** Before the compile both laws hold, after it, without its cascade, neither does: one job is active on
      a retired check, one is paused for retirement on a check in service. */
  lemma FailedCascadeStrands(
    facts: Facts, plain: Page, slashed: Page, menu: MenuNode, table: PageElement, row: Snapshot, systemCode: string, now: Time,
    t: Tables, jobs: Jobs)
    requires Setting(facts, plain, slashed, menu, table) && GoodSnapshot(row)
    requires Before(t, row.systemId, AssetKey(systemCode, plain.route, None)) && TwoJobs(jobs)
    ensures var r := CompileBody(t, facts, 1, row, systemCode, now);
            && JobsInv(jobs, t) && ActiveOn(jobs, t) && Moves(t, r)
            && 5 in JobsToPause(jobs, r.retiredChecks) && !ActiveOn(jobs, r.tables)
            && 6 in JobsToResume(jobs, r.resumedChecks) && !JobsInv(jobs, r.tables)
  {
    ChecksSwap(facts, plain, slashed, menu, table, row, systemCode, now, t);
    JobsLeft(jobs, t, CompileBody(t, facts, 1, row, systemCode, now), row.systemId, AssetKey(systemCode, plain.route, None));
  }
}
