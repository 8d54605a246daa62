/** The database tables as mutable state, and the crawl, switch, compile and cascade procedures that
    change them in place. Each method is proved to perform the corresponding step of `World`. */
module Store {
  import opened Basics
  import opened Sorting
  import SemanticDiff
  import opened Corpus
  import opened ModulePlans
  import opened Reconciliation
  import opened AssetCompiler
  import opened Cascade
  import CorpusHistory
  import World

  datatype CompileError = UnknownSnapshot | UnknownSystem | SwitchFailed(error: SwitchError)

  class Store {
    const systems: map<Id, string>
    var snapshots: map<Id, Snapshot>
    var facts: Facts
    var snapshotHist: seq<SnapshotHist>
    var factHist: Facts
    var compileTargets: set<Id>
    var assets: map<Id, PageAsset>
    var checks: map<Id, PageCheck>
    var nextId: Id
    var jobs: Jobs
    var aliases: Aliases

    constructor (systems: map<Id, string>)
      ensures this.systems == systems && State() == World.Start(systems)
    {
      this.systems := systems;
      snapshots, facts, snapshotHist, factHist, compileTargets := map[], NO_FACTS, [], NO_FACTS, {};
      assets, checks, nextId, jobs, aliases := map[], map[], 0, map[], map[];
    }

    function Crawled(): Corpus
      reads this
    {
      Corpus(snapshots, facts, snapshotHist, factHist, compileTargets)
    }

    function Catalog(): Tables
      reads this
    {
      Tables(assets, checks, nextId)
    }

    function State(): World.World
      reads this
    {
      World.World(Crawled(), systems, Catalog(), jobs, aliases)
    }

    // ---- Crawl job ----

    /** The rows of one crawl. */
    method PersistCrawlRows(crawl: Crawl)
      modifies `snapshots, `facts
      ensures Crawled() == PersistCrawl(old(Crawled()), crawl)
    {
      var row := Snapshot(
        crawl.systemId, crawl.crawlType, crawl.degraded, crawl.quality, Draft, None, None, crawl.failureReason, crawl.startedAt);
      snapshots := snapshots[crawl.id := row];
      facts := Append(facts, crawl.facts);
    }

    method DraftsNewestFirst(systemId: Id) returns (rows: seq<Id>)
      ensures Distinct(rows)
      ensures forall id :: id in rows <==> id in snapshots && snapshots[id].systemId == systemId && snapshots[id].state == Draft
    {
      var drafts: set<Id> := set id | id in snapshots && snapshots[id].systemId == systemId && snapshots[id].state == Draft;
      NewestFirstOrder(snapshots);
      rows := Ascending(drafts, NewestFirst(snapshots));
      AscendingMembers(drafts, NewestFirst(snapshots));
    }

    method DiscardSupersededDrafts(systemId: Id, keep: Id, now: Time)
      modifies `snapshots
      ensures Crawled() == DiscardSuperseded(old(Crawled()), systemId, keep, now)
    {
      var rows := DraftsNewestFirst(systemId);
      for i := 0 to |rows|
        invariant snapshots.Keys == old(snapshots).Keys
        invariant forall id | id in snapshots :: snapshots[id] ==
                    if id in rows[..i] && id != keep && id !in compileTargets then Supersede(old(snapshots)[id], now) else old(snapshots)[id]
      {
        TakeTake(rows, i);
        assert rows[i] in rows;
        if rows[i] == keep || rows[i] in compileTargets { continue; }
        assert rows[i] !in rows[..i];
        var draft := snapshots[rows[i]].(state := Discarded, discardedAt := Some(now), failureReason := Some(SUPERSEDED));
        snapshots := snapshots[rows[i] := draft];
      }
      assert rows[..|rows|] == rows;
      assert snapshots == DiscardSuperseded(old(Crawled()), systemId, keep, now).snapshots;
    }

    /** The successful end of a crawl job: keep the new draft, drop superseded ones, request a compile. */
    method CompleteCrawl(crawl: Crawl, now: Time)
      modifies this
      ensures Crawled() == CrawlSucceeded(old(Crawled()), crawl, now)
      ensures Catalog() == old(Catalog()) && jobs == old(jobs) && aliases == old(aliases)
    {
      PersistCrawlRows(crawl);
      DiscardSupersededDrafts(crawl.systemId, crawl.id, now);
      compileTargets := compileTargets + {crawl.id};
    }

    // ---- Switch ----

    method ArchiveActiveFacts(active: Id)
      modifies `factHist
      ensures factHist == Append(old(factHist), FactsOf(facts, active))
    {
      var rows := FactsOf(facts, active);
      var start := factHist;
      for i := 0 to |rows.pages|
        invariant factHist == start.(pages := start.pages + rows.pages[..i])
      {
        TakeTake(rows.pages, i);
        factHist := factHist.(pages := factHist.pages + [rows.pages[i]]);
      }
      assert rows.pages[..|rows.pages|] == rows.pages;
      for i := 0 to |rows.menus|
        invariant factHist == start.(pages := start.pages + rows.pages, menus := start.menus + rows.menus[..i])
      {
        TakeTake(rows.menus, i);
        factHist := factHist.(menus := factHist.menus + [rows.menus[i]]);
      }
      assert rows.menus[..|rows.menus|] == rows.menus;
      for i := 0 to |rows.elements|
        invariant factHist == Facts(start.pages + rows.pages, start.menus + rows.menus, start.elements + rows.elements[..i])
      {
        TakeTake(rows.elements, i);
        factHist := factHist.(elements := factHist.elements + [rows.elements[i]]);
      }
      assert rows.elements[..|rows.elements|] == rows.elements;
    }

    method ApplyCurrentStateSwitch(draft: Id, now: Time) returns (r: Result<SwitchOutcome, SwitchError>)
      modifies `snapshots, `snapshotHist, `factHist
      ensures (Crawled(), r) == Switch(old(Crawled()), draft, now)
    {
      if draft !in snapshots { return Err(NotFound); }
      var row := snapshots[draft];
      if row.state == Active { return Ok(Promoted(None)); }
      if row.state != Draft { return Err(NotDraft); }
      if !HighQuality(row) {
        snapshots := snapshots[draft := row.(state := Discarded, discardedAt := Some(now))];
        return Ok(DiscardedLowQuality);
      }
      var loaded := LoadActive(snapshots, row.systemId, draft);
      LoadActiveMeaning(snapshots, row.systemId, draft);
      if loaded.None? {
        snapshots := snapshots[draft := row.(state := Active, activatedAt := Some(now), discardedAt := None)];
        return Ok(Promoted(None));
      }
      var active := loaded.value;
      var diff := SemanticDiff.CompareSemanticStates(SemanticState(facts, active), SemanticState(facts, draft));
      if diff.Err? { return Err(BadRoutes(diff.error)); }
      if !diff.value.HasChanges() {
        snapshots := snapshots[draft := row.(state := Discarded, discardedAt := Some(now))];
        return Ok(DiscardedNoChange(active));
      }
      snapshotHist := snapshotHist + [SnapshotHist(active, snapshots[active], draft, SEMANTIC_CHANGE)];
      ArchiveActiveFacts(active);
      snapshots := snapshots[active := snapshots[active].(state := Discarded, discardedAt := Some(now))];
      snapshots := snapshots[draft := snapshots[draft].(state := Active, activatedAt := Some(now), discardedAt := None)];
      r := Ok(Promoted(Some(active)));
    }

    // ---- Compile: upserts ----

    method UpsertAssetRow(systemId: Id, sid: Id, good: bool, input: PageInput) returns (id: Id)
      modifies `assets, `nextId
      ensures (Catalog(), id) == UpsertAsset(old(Catalog()), systemId, sid, good, input)
    {
      var found := FindAsset(assets, systemId, input.key);
      FirstMeaning(set a | a in assets && assets[a].systemId == systemId && assets[a].key == input.key);
      if found.None? {
        id := nextId;
        assets := assets[id := PageAsset(systemId, input.key, input.page.id, sid, InService, None, None, None)];
        nextId := nextId + 1;
      } else {
        id := found.value;
        var row := assets[id].(pageId := input.page.id, compiledFrom := sid);
        if good && row.lifecycle != InService {
          row := row.(lifecycle := InService, retiredReason := None, retiredAt := None, retiredBy := None);
        }
        assets := assets[id := row];
      }
    }

    method UpsertCheckRow(assetId: Id, good: bool, compiled: CompiledCheck, reactivated: seq<Id>) returns (r: seq<Id>)
      modifies `checks, `nextId
      ensures Pass(Catalog(), r) == UpsertCheck(Pass(old(Catalog()), reactivated), assetId, good, compiled)
    {
      r := reactivated;
      var found := FindCheck(checks, assetId, compiled.code);
      FirstMeaning(set c | c in checks && checks[c].assetId == assetId && checks[c].code == compiled.code);
      if found.None? {
        checks := checks[nextId := PageCheck(assetId, compiled.code, compiled.goal, compiled.dependencies, InService, None, None, None)];
        nextId := nextId + 1;
      } else {
        var id := found.value;
        var row := checks[id].(goal := compiled.goal, dependencies := compiled.dependencies);
        if good && row.lifecycle != InService {
          row := row.(lifecycle := InService, retiredReason := None, retiredAt := None, retiredBy := None);
          r := r + [id];
        }
        checks := checks[id := row];
      }
    }

    method CompileDefinition(ctx: PageContext, d: CheckDefinition) returns (r: CompiledCheck)
      ensures r == CompileCheck(ctx, d)
    {
      var state := if d.state == "" then ctx.defaultState else d.state;
      var steps := BuildModulePlan(d.code, ctx, state, Bundle([]));
      var dependencies := BuildBlockingDependency(steps, d.assertion);
      r := CompiledCheck(d.code, d.goal, dependencies);
    }

    /** What the current page contributes, with every check's plan and dependencies built on the way. */
    method CompileChecks(ctx: PageContext, definitions: seq<CheckDefinition>) returns (r: seq<CompiledCheck>)
      ensures r == Map(definitions, CompileWith(ctx))
    {
      r := [];
      for i := 0 to |definitions|
        invariant r == Map(definitions[..i], CompileWith(ctx))
      {
        MapSnoc(definitions, i, CompileWith(ctx));
        var compiled := CompileDefinition(ctx, definitions[i]);
        r := r + [compiled];
      }
      assert definitions[..|definitions|] == definitions;
    }

    method CompilePage(systemCode: string, sid: Id, page: Page) returns (input: PageInput)
      ensures input == InputOf(systemCode, facts, sid, page)
    {
      var compiled := CompileChecks(ContextOf(facts, sid, page), DefinitionsOf(facts, sid, page));
      input := PageInput(page, AssetKey(systemCode, page.route, page.title), compiled);
    }

    method UpsertSnapshotPages(systemId: Id, sid: Id, good: bool, systemCode: string) returns (reactivated: seq<Id>)
      modifies `assets, `checks, `nextId
      ensures Pass(Catalog(), reactivated) == UpsertPages(Pass(old(Catalog()), []), systemId, sid, good, PageInputs(systemCode, facts, sid))
    {
      var pages := Sort(PagesOf(facts, sid), PageOrder);
      ghost var inputs := PageInputs(systemCode, facts, sid);
      ghost var start := Pass(Catalog(), []);
      reactivated := [];
      for i := 0 to |pages|
        invariant Pass(Catalog(), reactivated) == UpsertPages(start, systemId, sid, good, inputs[..i])
      {
        TakeTake(inputs, i);
        var input := CompilePage(systemCode, sid, pages[i]);
        assert input == inputs[i];
        reactivated := UpsertOnePage(systemId, sid, good, input, reactivated);
      }
      assert inputs[..|pages|] == inputs;
    }

    method UpsertOnePage(systemId: Id, sid: Id, good: bool, input: PageInput, reactivated: seq<Id>) returns (r: seq<Id>)
      modifies `assets, `checks, `nextId
      ensures Pass(Catalog(), r) == UpsertPage(Pass(old(Catalog()), reactivated), systemId, sid, good, input)
    {
      var assetId := UpsertAssetRow(systemId, sid, good, input);
      ghost var start := Pass(Catalog(), reactivated);
      r := reactivated;
      for j := 0 to |input.checks|
        invariant Pass(Catalog(), r) == UpsertChecks(start, assetId, good, input.checks[..j])
      {
        TakeTake(input.checks, j);
        r := UpsertCheckRow(assetId, good, input.checks[j], r);
      }
      assert input.checks[..|input.checks|] == input.checks;
    }

    // ---- Compile: retirement ----

    method LoadPageTruth(assetIds: seq<Id>) returns (r: seq<ActivePage>)
      ensures r == PageTruth(Catalog(), facts.pages, assetIds)
    {
      r := [];
      var tables, pages := Catalog(), facts.pages;
      for i := 0 to |assetIds|
        invariant r == PageTruth(tables, pages, assetIds[..i])
      {
        TakeTake(assetIds, i);
        var route := AssetRoute(tables, pages, assetIds[i]);
        if route != "" {
          r := r + [ActivePage(assetIds[i], route)];
        }
      }
      assert assetIds[..|assetIds|] == assetIds;
    }

    method ApplyDecision(d: Decision, sid: Id, now: Time, retiredAssets: seq<Id>, retiredChecks: seq<Id>)
      returns (as': seq<Id>, cs: seq<Id>)
      modifies `assets, `checks
      ensures Sweep(Catalog(), as', cs) == SweepDecision(Sweep(old(Catalog()), retiredAssets, retiredChecks), d, sid, now)
    {
      as', cs := retiredAssets, retiredChecks;
      if d.reason == MissingPage && d.assetId in assets && assets[d.assetId].lifecycle == InService {
        var asset := assets[d.assetId].(lifecycle := RetiredMissing, retiredReason := Some("missing_page"));
        assets := assets[d.assetId := asset.(retiredAt := Some(now), retiredBy := Some(sid))];
        as' := as' + [d.assetId];
      }
      ghost var start := Sweep(Catalog(), as', cs);
      for i := 0 to |d.checkIds|
        invariant Sweep(Catalog(), as', cs) == SweepChecks(start, d.reason, sid, now, d.checkIds[..i])
      {
        TakeTake(d.checkIds, i);
        var id := d.checkIds[i];
        if id !in checks || checks[id].lifecycle != InService { continue; }
        var check := checks[id].(lifecycle := RetiredMissing, retiredReason := Some(ReasonText(d.reason)));
        checks := checks[id := check.(retiredAt := Some(now), retiredBy := Some(sid))];
        cs := cs + [id];
      }
      assert d.checkIds[..|d.checkIds|] == d.checkIds;
    }

    method RetireMissing(sid: Id, systemId: Id, gate: Gate, now: Time) returns (retiredAssets: seq<Id>, retiredChecks: seq<Id>)
      modifies `assets, `checks
      ensures Sweep(Catalog(), retiredAssets, retiredChecks)
              == SweepAll(Sweep(old(Catalog()), [], []), RetirementsOf(old(Catalog()), facts, sid, systemId, gate), sid, now)
    {
      var truth := BuildCurrentSnapshotTruth(
        Sort(PagesOf(facts, sid), PageOrder), Sort(MenusOf(facts, sid), DisplayOrder), Sort(ElementsOf(facts, sid), ByPageThenId));
      var assetIds := ActiveAssets(Catalog(), systemId);
      ActiveChecksKnown(Catalog(), assetIds);
      var pageTruth := LoadPageTruth(assetIds);
      var checkTruth := CheckTruth(Catalog(), ActiveChecks(Catalog(), assetIds));
      var ds := ReconcileRetirementDecisions(pageTruth, checkTruth, truth, gate);
      retiredAssets, retiredChecks := ApplyDecisions(ds, sid, now);
    }

    method ApplyDecisions(ds: seq<Decision>, sid: Id, now: Time) returns (retiredAssets: seq<Id>, retiredChecks: seq<Id>)
      modifies `assets, `checks
      ensures Sweep(Catalog(), retiredAssets, retiredChecks) == SweepAll(Sweep(old(Catalog()), [], []), ds, sid, now)
    {
      ghost var start := Sweep(Catalog(), [], []);
      retiredAssets, retiredChecks := [], [];
      for i := 0 to |ds|
        invariant Sweep(Catalog(), retiredAssets, retiredChecks) == SweepAll(start, ds[..i], sid, now)
      {
        TakeTake(ds, i);
        retiredAssets, retiredChecks := ApplyDecision(ds[i], sid, now, retiredAssets, retiredChecks);
      }
      assert ds[..|ds|] == ds;
    }

    // ---- Cascade ----

    method PausePublishedJobs(ids: seq<Id>, sid: Id)
      modifies `jobs
      ensures jobs == PauseJobs(old(jobs), ids, sid)
    {
      ghost var before := jobs;
      IdOrder();
      var rows: set<Id> := set id | id in jobs && id in ids && jobs[id].state == JobActive;
      var ordered := Ascending(rows, IdLe);
      AscendingMembers(rows, IdLe);
      for i := 0 to |ordered|
        invariant jobs.Keys == before.Keys
        invariant forall id | id in jobs :: jobs[id] == if id in ordered[..i] then Pause(before[id], sid) else before[id]
      {
        TakeTake(ordered, i);
        assert ordered[i] in ordered && ordered[i] !in ordered[..i];
        var job := jobs[ordered[i]];
        job := job.(state := JobPaused, pauseReason := Some(JOB_REASON), pausedBySnapshot := Some(sid));
        job := job.(pausedByCheck := Some(job.checkId));
        jobs := jobs[ordered[i] := job];
      }
      assert ordered[..|ordered|] == ordered;
      forall id | id in jobs ensures jobs[id] == PauseJobs(before, ids, sid)[id] {
        assert id in ordered <==> id in rows;
      }
    }

    method ResumePublishedJobs(ids: seq<Id>)
      modifies `jobs
      ensures jobs == ResumeJobs(old(jobs), ids)
    {
      ghost var before := jobs;
      IdOrder();
      var rows: set<Id> := set id | id in jobs && id in ids && jobs[id].state == JobPaused;
      var ordered := Ascending(rows, IdLe);
      AscendingMembers(rows, IdLe);
      for i := 0 to |ordered|
        invariant jobs.Keys == before.Keys
        invariant forall id | id in jobs :: jobs[id] == if id in ordered[..i] then Resume(before[id]) else before[id]
      {
        TakeTake(ordered, i);
        assert ordered[i] in ordered && ordered[i] !in ordered[..i];
        var job := jobs[ordered[i]].(state := JobActive, pauseReason := None);
        jobs := jobs[ordered[i] := job.(pausedBySnapshot := None, pausedByAsset := None, pausedByCheck := None)];
      }
      assert ordered[..|ordered|] == ordered;
      forall id | id in jobs ensures jobs[id] == ResumeJobs(before, ids)[id] {
        assert id in ordered <==> id in rows;
      }
    }

    method DisableAliasRows(ids: seq<Id>, sid: Id, now: Time) returns (changed: nat)
      modifies `aliases
      ensures aliases == DisableAliases(old(aliases), ids, sid, now)
      ensures changed == |ActiveAmong(old(aliases), ids)|
    {
      ghost var before := aliases;
      IdOrder();
      var rows := ActiveAmong(aliases, ids);
      var ordered := Ascending(rows, IdLe);
      AscendingMembers(rows, IdLe);
      AscendingSize(rows);
      changed := 0;
      for i := 0 to |ordered|
        invariant changed == i && aliases.Keys == before.Keys
        invariant forall id | id in aliases :: aliases[id] == if id in ordered[..i] then Disable(before[id], sid, now) else before[id]
      {
        TakeTake(ordered, i);
        assert ordered[i] in ordered && ordered[i] !in ordered[..i];
        var row := aliases[ordered[i]].(isActive := false, disabledReason := Some(ALIAS_REASON));
        aliases := aliases[ordered[i] := row.(disabledAt := Some(now), disabledBy := Some(sid))];
        changed := changed + 1;
      }
      assert ordered[..|ordered|] == ordered;
      forall id | id in aliases ensures aliases[id] == DisableAliases(before, ids, sid, now)[id] {
        assert id in ordered <==> id in rows;
      }
    }

    method EnableAliasRows(ids: seq<Id>) returns (changed: nat)
      modifies `aliases
      ensures aliases == EnableAliases(old(aliases), ids)
      ensures changed == |InactiveAmong(old(aliases), ids)|
    {
      ghost var before := aliases;
      IdOrder();
      var rows := InactiveAmong(aliases, ids);
      var ordered := Ascending(rows, IdLe);
      AscendingMembers(rows, IdLe);
      AscendingSize(rows);
      changed := 0;
      for i := 0 to |ordered|
        invariant changed == i && aliases.Keys == before.Keys
        invariant forall id | id in aliases :: aliases[id] == if id in ordered[..i] then Enable(before[id]) else before[id]
      {
        TakeTake(ordered, i);
        assert ordered[i] in ordered && ordered[i] !in ordered[..i];
        var row := aliases[ordered[i]].(isActive := true, disabledReason := None);
        aliases := aliases[ordered[i] := row.(disabledAt := None, disabledBy := None)];
        changed := changed + 1;
      }
      assert ordered[..|ordered|] == ordered;
      forall id | id in aliases ensures aliases[id] == EnableAliases(before, ids)[id] {
        assert id in ordered <==> id in rows;
      }
    }

    // ---- Asset-compile job ----

    /** Switch, compile and commit, then cascade in a transaction of its own, which fails when
        `cascadeFails`. Afterwards the store is in the state `World` prescribes for this step. */
    method RunCompileJob(sid: Id, now: Time, cascadeFails: bool) returns (r: Result<SwitchOutcome, CompileError>)
      modifies this
      ensures State() == World.CompileStep(old(State()), sid, now, !cascadeFails)
      ensures r.Err? ==> State() == old(State())
    {
      if sid !in snapshots { return Err(UnknownSnapshot); }
      var systemId := snapshots[sid].systemId;
      if systemId !in systems { return Err(UnknownSystem); }
      var code := systems[systemId];
      var outcome := ApplyCurrentStateSwitch(sid, now);
      CorpusHistory.SwitchProgress(old(Crawled()), sid, now);
      if outcome.Err? { return Err(SwitchFailed(outcome.error)); }
      if !outcome.value.Promoted? { return Ok(outcome.value); }
      var compiled := CompilePromoted(sid, code, now, cascadeFails);
      r := Ok(outcome.value);
    }

    /** The compile body of a promoted snapshot, and its cascade. */
    method CompilePromoted(sid: Id, code: string, now: Time, cascadeFails: bool) returns (compiled: Compiled)
      requires sid in snapshots
      modifies `assets, `checks, `nextId, `jobs, `aliases
      ensures compiled == CompileBody(old(Catalog()), facts, sid, snapshots[sid], code, now)
      ensures State() == World.Finish(old(State()), compiled, sid, now, !cascadeFails)
    {
      compiled := CompileTables(sid, code, now);
      FinishCompile(compiled, sid, now, cascadeFails);
    }

    method FinishCompile(compiled: Compiled, sid: Id, now: Time, cascadeFails: bool)
      requires Catalog() == compiled.tables
      modifies `jobs, `aliases
      ensures State() == World.Finish(old(State()), compiled, sid, now, !cascadeFails)
    {
      if !cascadeFails {
        ApplyCascade(compiled, sid, now);
      }
    }

    /** The queries see the tables before the first update. */
    method ApplyCascade(r: Compiled, sid: Id, now: Time)
      requires Catalog() == r.tables
      modifies `jobs, `aliases
      ensures jobs == CascadeJobs(old(jobs), r, sid) && aliases == CascadeAliases(old(aliases), r, sid, now)
    {
      var toDisable := AliasesToDisable(aliases, Catalog(), r);
      var toEnable := AliasesToEnable(aliases, Catalog(), r);
      var toPause := JobsToPause(jobs, r.retiredChecks);
      var toResume := JobsToResume(jobs, r.resumedChecks);
      var disabled := DisableAliasRows(toDisable, sid, now);
      var enabled := EnableAliasRows(toEnable);
      PausePublishedJobs(toPause, sid);
      ResumePublishedJobs(toResume);
    }

    method UpsertAndRetire(sid: Id, row: Snapshot, code: string, gate: Gate, now: Time)
      returns (reactivated: seq<Id>, assetsGone: seq<Id>, checksGone: seq<Id>)
      modifies `assets, `checks, `nextId
      ensures reactivated == Upserted(old(Catalog()), facts, sid, row, code).reactivated
      ensures Sweep(Catalog(), assetsGone, checksGone) == Swept(Upserted(old(Catalog()), facts, sid, row, code).tables, facts, sid, row, gate, now)
    {
      reactivated := UpsertSnapshotPages(row.systemId, sid, GoodSnapshot(row), code);
      assetsGone, checksGone := RetireMissing(sid, row.systemId, gate, now);
    }

    method CompileTables(sid: Id, code: string, now: Time) returns (r: Compiled)
      requires sid in snapshots
      modifies `assets, `checks, `nextId
      ensures r == CompileBody(old(Catalog()), facts, sid, snapshots[sid], code, now) && Catalog() == r.tables
    {
      var row := snapshots[sid];
      var gate := GateFor(Catalog(), facts, sid, row);
      var reactivated, assetsGone, checksGone := UpsertAndRetire(sid, row, code, gate, now);
      r := Assemble(reactivated, Sweep(Catalog(), assetsGone, checksGone));
    }
  }

  lemma {:induction false} AscendingSize(s: set<Id>)
    ensures TotalOrder(IdLe) && |Ascending(s, IdLe)| == |s|
    decreases |s|
  {
    IdOrder();
    if s != {} {
      LeastExists(s, IdLe);
      var x :| x in s && forall y | y in s :: IdLe(x, y);
      AscendingSize(s - {x});
    }
  }
}
