/** Whether a snapshot retires a check that it has just compiled: never for a missing page, and for a missing
    menu chain or element exactly under a condition on the snapshot's facts. */
module FreshCheckLaws {
  import opened Basics
  import opened Sorting
  import opened Text
  import opened Corpus
  import opened ModulePlans
  import opened Reconciliation
  import opened RetirementLaws
  import opened AssetCompiler
  import opened LifecycleLaws
  import opened GateLaws

  // ---- The chain that goes through the module plan ----

  lemma SupportedStripped(name: string)
    requires Supported(name)
    ensures Strip(name) == name
  {
    assert !IsSpace(name[0]) && !IsSpace(name[|name| - 1]);
    assert StripLeft(name) == name;
  }

  lemma {:induction false} ChainFromSecondStep(steps: seq<Step>)
    requires |steps| >= 2 && (forall i | 0 <= i < |steps| :: Supported(steps[i].name))
    requires steps[1].name == NAVIGATE && forall i | 2 <= i < |steps| :: steps[i].name != NAVIGATE
    ensures ChainOf(steps) == StepLabels(steps[1])
  {
    SupportedStripped(steps[|steps| - 1].name);
    if |steps| > 2 {
      ChainFromSecondStep(steps[..|steps| - 1]);
    }
  }

  lemma PlannedChain(ctx: PageContext, d: CheckDefinition)
    ensures CompileCheck(ctx, d).dependencies.menuChain == CleanLabels(ctx.menuChain)
  {
    var state := if d.state == "" then ctx.defaultState else d.state;
    var steps := Plan(d.code, ctx, state, Bundle([]));
    PlanShape(d.code, ctx, state, Bundle([]));
    assert steps[1] == steps[..3][1] == Prologue(ctx)[1];
    assert steps[2] == steps[..3][2] == Prologue(ctx)[2];
    ChainFromSecondStep(steps);
  }

  lemma {:induction false} CleanLabelsIdempotent(labels: seq<string>)
    ensures CleanLabels(CleanLabels(labels)) == CleanLabels(labels)
  {
    if labels != [] {
      var front, last := labels[..|labels| - 1], labels[|labels| - 1];
      CleanLabelsIdempotent(front);
      CleanLabelsSnoc(front, last);
      assert labels == front + [last];
      StripIdempotent(last);
      CleanLabelsSnoc(CleanLabels(front), Strip(last));
      assert CleanLabels(front) + [] == CleanLabels(front);
    }
  }

  lemma CleanLabelsSnoc(front: seq<string>, last: string)
    ensures CleanLabels(front + [last]) == CleanLabels(front) + if Strip(last) != "" then [Strip(last)] else []
  {
    assert Map(front + [last], Strip) == Map(front, Strip) + [Strip(last)];
  }

  /** The labels a page's plan stores, from the menus in the order given. */
  function PageLabels(menus: seq<MenuNode>, pageId: Id): seq<string> {
    CleanLabels(Filter(Map(Filter(menus, OnPage(pageId)), NameOf), NonEmpty))
  }

  lemma PageLabelsSnoc(front: seq<MenuNode>, m: MenuNode, pageId: Id)
    ensures PageLabels(front + [m], pageId)
            == PageLabels(front, pageId) + if OnPage(pageId)(m) && Strip(m.name) != "" then [Strip(m.name)] else []
  {
    var on := Filter(front, OnPage(pageId));
    assert (front + [m])[..|front|] == front;
    if OnPage(pageId)(m) {
      assert Filter(front + [m], OnPage(pageId)) == on + [m];
      assert Map(on + [m], NameOf) == Map(on, NameOf) + [m.name];
      var names := Filter(Map(on, NameOf), NonEmpty);
      assert Filter(Map(on, NameOf) + [m.name], NonEmpty) == if m.name != "" then names + [m.name] else names;
      CleanLabelsSnoc(names, m.name);
    }
  }

  /** The labels the snapshot truth collects for a route. */
  function RouteLabels(index: map<Id, string>, menus: seq<MenuNode>, route: string): seq<string> {
    if menus == [] then []
    else
      var m := menus[|menus| - 1];
      RouteLabels(index, menus[..|menus| - 1], route)
      + if Charted(index, m) && RouteAt(index, m.pageId) == route then [Strip(m.name)] else []
  }

  lemma {:induction false} ChainsCollect(index: map<Id, string>, menus: seq<MenuNode>, route: string)
    ensures At(Chains(index, menus), route) == RouteLabels(index, menus, route)
  {
    if menus != [] {
      ChainsCollect(index, menus[..|menus| - 1], route);
    }
  }

  lemma SubsequenceGrows(xs: seq<string>, ys: seq<string>, extra: seq<string>)
    requires Subsequence(xs, ys)
    ensures Subsequence(xs, ys + extra)
  {
    var at: seq<nat> :| Embeds(xs, ys, at);
    assert Embeds(xs, ys + extra, at);
  }

  lemma SubsequenceBoth(xs: seq<string>, ys: seq<string>, last: string)
    requires Subsequence(xs, ys)
    ensures Subsequence(xs + [last], ys + [last])
  {
    var at: seq<nat> :| Embeds(xs, ys, at);
    var more: seq<nat> := at + [|ys|];
    assert Embeds(xs + [last], ys + [last], more);
  }

  lemma {:induction false} PageInRoute(index: map<Id, string>, menus: seq<MenuNode>, pageId: Id)
    requires pageId in index && index[pageId] != ""
    ensures Subsequence(PageLabels(menus, pageId), RouteLabels(index, menus, index[pageId]))
  {
    if menus == [] {
      assert Embeds(PageLabels(menus, pageId), RouteLabels(index, menus, index[pageId]), []);
    } else {
      var front, m := menus[..|menus| - 1], menus[|menus| - 1];
      assert menus == front + [m];
      PageInRoute(index, front, pageId);
      PageLabelsSnoc(front, m, pageId);
      var xs, ys := PageLabels(front, pageId), RouteLabels(index, front, index[pageId]);
      if OnPage(pageId)(m) && Strip(m.name) != "" {
        SubsequenceBoth(xs, ys, Strip(m.name));
      } else {
        var extra := if Charted(index, m) && RouteAt(index, m.pageId) == index[pageId] then [Strip(m.name)] else [];
        SubsequenceGrows(xs, ys, extra);
        assert PageLabels(menus, pageId) == xs;
      }
    }
  }

  lemma MenuOrders()
    ensures TotalPreorder(DisplayOrder) && TotalPreorder(TruthOrder)
  {
  }

  /** Sorting a page's menus for display and sorting all menus for the truth list the page's menus in the
      same order. */
  lemma SortsAgree(menus: seq<MenuNode>, pageId: Id)
    requires forall a, b | a in menus && b in menus && a.id == b.id :: a == b
    ensures Filter(Sort(Sort(menus, DisplayOrder), TruthOrder), OnPage(pageId)) == Filter(Sort(menus, DisplayOrder), OnPage(pageId))
  {
    var s := Sort(menus, DisplayOrder);
    MenuOrders();
    SortPermutes(menus, DisplayOrder);
    SortMembers(menus, DisplayOrder);
    SortCanonical(s, menus, DisplayOrder);
    FilterAfterSort(s, OnPage(pageId), DisplayOrder, TruthOrder);
  }

  function TruthFor(facts: Facts, sid: Id): SnapshotTruth {
    TruthOf(Sort(PagesOf(facts, sid), PageOrder), Sort(MenusOf(facts, sid), DisplayOrder), Sort(ElementsOf(facts, sid), ByPageThenId))
  }

  /** The menus of a page, as the truth lists them, are among those of its route, however many pages share
      that route. */
  lemma PageChainCurrent(facts: Facts, sid: Id, page: Page)
    requires KeysDistinct(facts) && page in PagesOf(facts, sid) && Strip(page.route) != ""
    ensures Strip(page.route) in TruthFor(facts, sid).routes
    ensures Subsequence(CleanLabels(MenuLabels(facts, sid, page.id)), At(TruthFor(facts, sid).chains, Strip(page.route)))
  {
    var pages := Sort(PagesOf(facts, sid), PageOrder);
    var menus := MenusOf(facts, sid);
    var shown := Sort(menus, DisplayOrder);
    KeysIdentify(facts);
    FilterMembers(facts.pages, PageIn(sid));
    FilterMembers(facts.menus, MenuIn(sid));
    SortMembers(PagesOf(facts, sid), PageOrder);
    RouteIndexMeaning(pages, page);
    var index := RouteIndex(pages);
    assert index[page.id] in index.Values;
    assert CleanLabels(MenuLabels(facts, sid, page.id)) == PageLabels(shown, page.id);
    SortsAgree(menus, page.id);
    assert PageLabels(shown, page.id) == PageLabels(Sort(shown, TruthOrder), page.id);
    PageInRoute(index, Sort(shown, TruthOrder), page.id);
    ChainsCollect(index, Sort(shown, TruthOrder), Strip(page.route));
  }

  /** The chain stored for any check of a page is a subsequence of the chain the truth has for its route. */
  lemma StoredChainCurrent(facts: Facts, sid: Id, page: Page, d: CheckDefinition)
    requires KeysDistinct(facts) && page in PagesOf(facts, sid) && Strip(page.route) != ""
    ensures Strip(page.route) in TruthFor(facts, sid).routes
    ensures Subsequence(
              NormalDependencies(CompileCheck(ContextOf(facts, sid, page), d).dependencies).menuChain,
              At(TruthFor(facts, sid).chains, Strip(page.route)))
  {
    PageChainCurrent(facts, sid, page);
    PlannedChain(ContextOf(facts, sid, page), d);
    CleanLabelsIdempotent(MenuLabels(facts, sid, page.id));
  }

  // ---- What the upserts leave in the tables ----

  ghost predicate HasCheck(t: Tables, assetId: Id, compiled: CompiledCheck) {
    var found := FindCheck(t.checks, assetId, compiled.code);
    found.Some? && found.value in t.checks && t.checks[found.value].dependencies == compiled.dependencies
    && t.checks[found.value].assetId == assetId && CheckOn(t, found.value)
  }

  ghost predicate HasAsset(t: Tables, systemId: Id, input: PageInput) {
    var found := FindAsset(t.assets, systemId, input.key);
    found.Some? && found.value in t.assets && t.assets[found.value].pageId == input.page.id
    && t.assets[found.value].systemId == systemId && t.assets[found.value].key == input.key && AssetOn(t, found.value)
  }

  function CheckRows(checks: map<Id, PageCheck>, assetId: Id, code: string): set<Id> {
    set id | id in checks && checks[id].assetId == assetId && checks[id].code == code
  }

  function AssetRows(assets: map<Id, PageAsset>, systemId: Id, key: string): set<Id> {
    set id | id in assets && assets[id].systemId == systemId && assets[id].key == key
  }

  lemma UpsertCheckInstalls(p: Pass, assetId: Id, compiled: CompiledCheck)
    requires Attached(p.tables)
    ensures HasCheck(UpsertCheck(p, assetId, true, compiled).tables, assetId, compiled)
  {
    var q := UpsertCheck(p, assetId, true, compiled);
    var rows, after := CheckRows(p.tables.checks, assetId, compiled.code), CheckRows(q.tables.checks, assetId, compiled.code);
    FirstMeaning(rows);
    FirstMeaning(after);
    if First(rows).None? {
      assert after == {p.tables.nextId};
    } else {
      assert after == rows;
    }
  }

  lemma UpsertCheckFrame(p: Pass, assetId: Id, compiled: CompiledCheck, other: Id, otherCheck: CompiledCheck)
    requires Attached(p.tables) && HasCheck(p.tables, other, otherCheck)
    requires other != assetId || otherCheck.code != compiled.code
    ensures HasCheck(UpsertCheck(p, assetId, true, compiled).tables, other, otherCheck)
  {
    var q := UpsertCheck(p, assetId, true, compiled);
    FirstMeaning(CheckRows(p.tables.checks, assetId, compiled.code));
    FirstMeaning(CheckRows(p.tables.checks, other, otherCheck.code));
    assert CheckRows(q.tables.checks, other, otherCheck.code) == CheckRows(p.tables.checks, other, otherCheck.code);
  }

  /** What a page compiles for a code. */
  function CheckFor(compiled: seq<CompiledCheck>, code: string): (r: Option<CompiledCheck>)
    ensures r.Some? ==> r.value in compiled && r.value.code == code
    ensures r.None? ==> forall c | c in compiled :: c.code != code
  {
    if compiled == [] then None
    else if compiled[|compiled| - 1].code == code then Some(compiled[|compiled| - 1])
    else CheckFor(compiled[..|compiled| - 1], code)
  }

  lemma UpsertChecksSound(p: Pass, assetId: Id, compiled: seq<CompiledCheck>)
    requires TablesInv(p.tables) && AssetOn(p.tables, assetId)
    ensures TablesInv(UpsertChecks(p, assetId, true, compiled).tables)
    ensures AssetOn(UpsertChecks(p, assetId, true, compiled).tables, assetId)
  {
    UpsertChecksInv(p.tables, Pass(p.tables, []), assetId, compiled);
    UpsertChecksTables(p, assetId, compiled);
  }

  lemma {:induction false} UpsertChecksInstall(p: Pass, assetId: Id, compiled: seq<CompiledCheck>, code: string)
    requires TablesInv(p.tables) && AssetOn(p.tables, assetId) && CheckFor(compiled, code).Some?
    ensures HasCheck(UpsertChecks(p, assetId, true, compiled).tables, assetId, CheckFor(compiled, code).value)
  {
    var front, last := compiled[..|compiled| - 1], compiled[|compiled| - 1];
    UpsertChecksSound(p, assetId, front);
    var q := UpsertChecks(p, assetId, true, front);
    if last.code == code {
      UpsertCheckInstalls(q, assetId, last);
    } else {
      UpsertChecksInstall(p, assetId, front, code);
      UpsertCheckFrame(q, assetId, last, assetId, CheckFor(compiled, code).value);
    }
  }

  /** The reactivation log does not influence the tables. */
  lemma {:induction false} UpsertChecksTables(p: Pass, assetId: Id, compiled: seq<CompiledCheck>)
    ensures UpsertChecks(p, assetId, true, compiled).tables == UpsertChecks(Pass(p.tables, []), assetId, true, compiled).tables
  {
    if compiled != [] {
      UpsertChecksTables(p, assetId, compiled[..|compiled| - 1]);
    }
  }

  lemma {:induction false} UpsertChecksFrame(p: Pass, assetId: Id, compiled: seq<CompiledCheck>, other: Id, otherCheck: CompiledCheck)
    requires TablesInv(p.tables) && AssetOn(p.tables, assetId) && HasCheck(p.tables, other, otherCheck)
    requires other != assetId || CheckFor(compiled, otherCheck.code).None?
    ensures HasCheck(UpsertChecks(p, assetId, true, compiled).tables, other, otherCheck)
  {
    if compiled != [] {
      var front := compiled[..|compiled| - 1];
      UpsertChecksFrame(p, assetId, front, other, otherCheck);
      UpsertChecksSound(p, assetId, front);
      UpsertCheckFrame(UpsertChecks(p, assetId, true, front), assetId, compiled[|compiled| - 1], other, otherCheck);
    }
  }

  lemma UpsertAssetInstalls(t: Tables, systemId: Id, sid: Id, input: PageInput)
    requires TablesInv(t)
    ensures var (u, id) := UpsertAsset(t, systemId, sid, true, input);
            HasAsset(u, systemId, input) && FindAsset(u.assets, systemId, input.key) == Some(id)
  {
    var (u, id) := UpsertAsset(t, systemId, sid, true, input);
    var rows, after := AssetRows(t.assets, systemId, input.key), AssetRows(u.assets, systemId, input.key);
    FirstMeaning(rows);
    FirstMeaning(after);
    if First(rows).None? {
      assert after == {t.nextId};
    } else {
      assert after == rows;
    }
  }

  lemma UpsertAssetFrame(t: Tables, systemId: Id, sid: Id, input: PageInput, other: PageInput)
    requires TablesInv(t) && HasAsset(t, systemId, other) && other.key != input.key
    ensures var (u, id) := UpsertAsset(t, systemId, sid, true, input);
            && HasAsset(u, systemId, other) && FindAsset(u.assets, systemId, other.key) == FindAsset(t.assets, systemId, other.key)
            && FindAsset(t.assets, systemId, other.key).value != id
  {
    var (u, id) := UpsertAsset(t, systemId, sid, true, input);
    FirstMeaning(AssetRows(t.assets, systemId, input.key));
    FirstMeaning(AssetRows(t.assets, systemId, other.key));
    assert AssetRows(u.assets, systemId, other.key) == AssetRows(t.assets, systemId, other.key);
  }

  /** The last page with an asset key: the asset ends up on it. */
  function LastFor(inputs: seq<PageInput>, key: string): (r: Option<PageInput>)
    ensures r.Some? ==> r.value in inputs && r.value.key == key
  {
    if inputs == [] then None
    else if inputs[|inputs| - 1].key == key then Some(inputs[|inputs| - 1])
    else LastFor(inputs[..|inputs| - 1], key)
  }

  /** The last page with an asset key that compiles a code: the check's dependencies are the ones it has
      there. Later pages with the key need not compile the code. */
  function LastCompiling(inputs: seq<PageInput>, key: string, code: string): (r: Option<PageInput>)
    ensures r.Some? ==> r.value in inputs && r.value.key == key && CheckFor(r.value.checks, code).Some?
    ensures r.Some? ==> LastFor(inputs, key).Some?
  {
    if inputs == [] then None
    else if inputs[|inputs| - 1].key == key && CheckFor(inputs[|inputs| - 1].checks, code).Some? then Some(inputs[|inputs| - 1])
    else LastCompiling(inputs[..|inputs| - 1], key, code)
  }

  /** The asset of a key stands on the last page with the key, and the check of a code is the one the last
      page with key and code compiled. */
  ghost predicate Installed(t: Tables, systemId: Id, inputs: seq<PageInput>, key: string, code: string) {
    && (LastFor(inputs, key).Some? ==> HasAsset(t, systemId, LastFor(inputs, key).value))
    && (LastCompiling(inputs, key, code).Some? ==>
          HasCheck(t, FindAsset(t.assets, systemId, key).value, CheckFor(LastCompiling(inputs, key, code).value.checks, code).value))
  }

  /** A later page with another key moves nothing. */
  lemma UpsertPageFrame(p: Pass, systemId: Id, sid: Id, front: seq<PageInput>, input: PageInput, key: string, code: string)
    requires TablesInv(p.tables) && Installed(p.tables, systemId, front, key, code) && key != input.key
    ensures Installed(UpsertPage(p, systemId, sid, true, input).tables, systemId, front + [input], key, code)
  {
    assert (front + [input])[..|front|] == front;
    if LastFor(front, key).Some? {
      UpsertAssetInv(p.tables, systemId, sid, input);
      UpsertAssetFrame(p.tables, systemId, sid, input, LastFor(front, key).value);
      var (u, id) := UpsertAsset(p.tables, systemId, sid, true, input);
      UpsertChecksInv(u, Pass(u, []), id, input.checks);
      UpsertChecksTables(p.(tables := u), id, input.checks);
      if LastCompiling(front, key, code).Some? {
        var a, c := FindAsset(p.tables.assets, systemId, key).value, CheckFor(LastCompiling(front, key, code).value.checks, code).value;
        assert HasCheck(u, a, c);
        UpsertChecksFrame(p.(tables := u), id, input.checks, a, c);
      }
    }
  }

  /** A later page with the key takes the asset over, and of its checks those it compiles itself. */
  lemma UpsertPageInstalls(p: Pass, systemId: Id, sid: Id, front: seq<PageInput>, input: PageInput, code: string)
    requires TablesInv(p.tables) && Installed(p.tables, systemId, front, input.key, code)
    ensures Installed(UpsertPage(p, systemId, sid, true, input).tables, systemId, front + [input], input.key, code)
  {
    assert (front + [input])[..|front|] == front;
    UpsertAssetInv(p.tables, systemId, sid, input);
    UpsertAssetInstalls(p.tables, systemId, sid, input);
    var (u, id) := UpsertAsset(p.tables, systemId, sid, true, input);
    UpsertChecksInv(u, Pass(u, []), id, input.checks);
    UpsertChecksTables(p.(tables := u), id, input.checks);
    if CheckFor(input.checks, code).Some? {
      UpsertChecksInstall(p.(tables := u), id, input.checks, code);
    } else if LastCompiling(front, input.key, code).Some? {
      var c := CheckFor(LastCompiling(front, input.key, code).value.checks, code).value;
      assert HasCheck(u, id, c);
      UpsertChecksFrame(p.(tables := u), id, input.checks, id, c);
    }
  }

  /** For every asset key and code, however many pages share the key. */
  lemma {:induction false} UpsertPagesInstall(t: Tables, systemId: Id, sid: Id, inputs: seq<PageInput>, key: string, code: string)
    requires TablesInv(t)
    ensures Installed(UpsertPages(Pass(t, []), systemId, sid, true, inputs).tables, systemId, inputs, key, code)
  {
    if inputs != [] {
      var front, last := inputs[..|inputs| - 1], inputs[|inputs| - 1];
      UpsertPagesInstall(t, systemId, sid, front, key, code);
      UpsertPagesInv(t, systemId, sid, front);
      var p := UpsertPages(Pass(t, []), systemId, sid, true, front);
      assert inputs == front + [last];
      if last.key == key {
        UpsertPageInstalls(p, systemId, sid, front, last, code);
      } else {
        UpsertPageFrame(p, systemId, sid, front, last, key, code);
      }
    }
  }

  // ---- Rows keep their identity ----

  lemma UpsertAssetKeepsRow(t: Tables, systemId: Id, sid: Id, input: PageInput, other: Id, key: string)
    requires TablesInv(t) && FindAsset(t.assets, other, key).Some?
    ensures FindAsset(UpsertAsset(t, systemId, sid, true, input).0.assets, other, key) == FindAsset(t.assets, other, key)
  {
    FirstMeaning(AssetRows(t.assets, systemId, input.key));
    FirstMeaning(AssetRows(t.assets, other, key));
    assert AssetRows(UpsertAsset(t, systemId, sid, true, input).0.assets, other, key) == AssetRows(t.assets, other, key);
  }

  lemma {:induction false} UpsertChecksKeepRow(p: Pass, assetId: Id, compiled: seq<CompiledCheck>, other: Id, code: string)
    requires TablesInv(p.tables) && AssetOn(p.tables, assetId) && FindCheck(p.tables.checks, other, code).Some?
    ensures FindCheck(UpsertChecks(p, assetId, true, compiled).tables.checks, other, code) == FindCheck(p.tables.checks, other, code)
  {
    if compiled != [] {
      var front, last := compiled[..|compiled| - 1], compiled[|compiled| - 1];
      UpsertChecksKeepRow(p, assetId, front, other, code);
      UpsertChecksSound(p, assetId, front);
      var q := UpsertChecks(p, assetId, true, front);
      var r := UpsertCheck(q, assetId, true, last);
      FirstMeaning(CheckRows(q.tables.checks, assetId, last.code));
      FirstMeaning(CheckRows(q.tables.checks, other, code));
      assert CheckRows(r.tables.checks, other, code) == CheckRows(q.tables.checks, other, code);
    }
  }

  /** A key that has an asset and a code that has a check keep them: upserting updates rows, it never puts a
      second one beside them. */
  lemma {:induction false} RowsKeepIdentity(t: Tables, systemId: Id, sid: Id, inputs: seq<PageInput>, other: Id, key: string, assetId: Id, code: string)
    requires TablesInv(t)
    ensures var u := UpsertPages(Pass(t, []), systemId, sid, true, inputs).tables;
            && (FindAsset(t.assets, other, key).Some? ==> FindAsset(u.assets, other, key) == FindAsset(t.assets, other, key))
            && (FindCheck(t.checks, assetId, code).Some? ==> FindCheck(u.checks, assetId, code) == FindCheck(t.checks, assetId, code))
  {
    if inputs != [] {
      var front, last := inputs[..|inputs| - 1], inputs[|inputs| - 1];
      RowsKeepIdentity(t, systemId, sid, front, other, key, assetId, code);
      UpsertPagesInv(t, systemId, sid, front);
      var p := UpsertPages(Pass(t, []), systemId, sid, true, front);
      PageKeepsIdentity(p, systemId, sid, last, other, key, assetId, code);
    }
  }

  lemma PageKeepsIdentity(p: Pass, systemId: Id, sid: Id, input: PageInput, other: Id, key: string, assetId: Id, code: string)
    requires TablesInv(p.tables)
    ensures var u := UpsertPage(p, systemId, sid, true, input).tables;
            && (FindAsset(p.tables.assets, other, key).Some? ==> FindAsset(u.assets, other, key) == FindAsset(p.tables.assets, other, key))
            && (FindCheck(p.tables.checks, assetId, code).Some? ==>
                  FindCheck(u.checks, assetId, code) == FindCheck(p.tables.checks, assetId, code))
  {
    UpsertAssetInv(p.tables, systemId, sid, input);
    var (u, id) := UpsertAsset(p.tables, systemId, sid, true, input);
    UpsertChecksInv(u, Pass(u, []), id, input.checks);
    UpsertChecksTables(p.(tables := u), id, input.checks);
    if FindAsset(p.tables.assets, other, key).Some? {
      UpsertAssetKeepsRow(p.tables, systemId, sid, input, other, key);
    }
    if FindCheck(p.tables.checks, assetId, code).Some? {
      UpsertChecksKeepRow(p.(tables := u), id, input.checks, assetId, code);
    }
  }

  // ---- Main result ----

  /** A decision names a check with a reason. */
  ghost predicate NamedFor(ds: seq<Decision>, check: Id, reason: Reason) {
    exists d | d in ds :: check in d.checkIds && d.reason == reason
  }

  /** The decisions about a check in service, read off its verdict. */
  lemma NamedByVerdict(u: Tables, facts: Facts, sid: Id, systemId: Id, gate: Gate, check: Id)
    requires CheckOn(u, check) && AssetOn(u, u.checks[check].assetId) && u.assets[u.checks[check].assetId].systemId == systemId
    ensures var asset := u.checks[check].assetId;
            var route := AssetRoute(u, facts.pages, asset);
            var ds := RetirementsOf(u, facts, sid, systemId, gate);
            && (forall reason :: NamedFor(ds, check, reason) <==>
                  gate.allow && Verdict(ActiveCheck(check, asset, u.checks[check].dependencies), route, TruthFor(facts, sid)) == Some(reason))
            && (forall d | d in ds && d.assetId == asset && d.reason == MissingPage ::
                  route != "" && route !in TruthFor(facts, sid).routes)
  {
    var asset := u.checks[check].assetId;
    var assets := ActiveAssets(u, systemId);
    ActiveAssetsKnown(u, systemId);
    ActiveChecksKnown(u, assets);
    PageTruthMeaning(u, facts.pages, assets);
    CheckTruthMeaning(u, ActiveChecks(u, assets));
    RouteOfActive(u, facts.pages, assets, asset);
    DecisionsByVerdict(
      PageTruth(u, facts.pages, assets), CheckTruth(u, ActiveChecks(u, assets)), TruthFor(facts, sid), gate,
      ActiveCheck(check, asset, u.checks[check].dependencies));
  }

  lemma DecisionsByVerdict(pages: seq<ActivePage>, checks: seq<ActiveCheck>, truth: SnapshotTruth, gate: Gate, c: ActiveCheck)
    requires AssetsDistinct(pages) && ChecksDistinct(checks) && c in checks
    ensures var route := KnownRoute(pages, c.assetId);
            var ds := Decisions(pages, checks, truth, gate);
            && (forall reason :: NamedFor(ds, c.checkId, reason) <==> gate.allow && Verdict(c, route, truth) == Some(reason))
            && (forall d | d in ds && d.assetId == c.assetId && d.reason == MissingPage :: route != "" && route !in truth.routes)
  {
    RetirementExact(pages, checks, truth, gate);
    var ds := Decisions(pages, checks, truth, gate);
    forall reason
      ensures NamedFor(ds, c.checkId, reason) <==> gate.allow && Verdict(c, KnownRoute(pages, c.assetId), truth) == Some(reason)
    {
      if NamedFor(ds, c.checkId, reason) {
        var d :| d in ds && c.checkId in d.checkIds && d.reason == reason;
        var k :| 0 <= k < |ds| && ds[k] == d;
        assert Names(ds[k], c);
      }
      if gate.allow && Verdict(c, KnownRoute(pages, c.assetId), truth) == Some(reason) {
        var k :| 0 <= k < |ds| && Names(ds[k], c);
        assert ds[k] in ds;
      }
    }
    forall d | d in ds && d.assetId == c.assetId && d.reason == MissingPage
      ensures KnownRoute(pages, c.assetId) != "" && KnownRoute(pages, c.assetId) !in truth.routes
    {
      var k :| 0 <= k < |ds| && ds[k] == d;
    }
  }

  /** Why a snapshot that compiles a check retires it at once, if it does, from the facts alone: the check
      was compiled by `from` last, its asset ended up on `on`. A page is never missing. */
  ghost function Fate(facts: Facts, sid: Id, on: Page, from: Page, compiled: CompiledCheck): Option<Reason> {
    var route, truth := Strip(on.route), TruthFor(facts, sid);
    if route == "" then None
    else if !Subsequence(CleanLabels(MenuLabels(facts, sid, from.id)), At(truth.chains, route)) then Some(MissingMenuChain)
    else if ElementGone(NormalDependencies(compiled.dependencies), At(truth.elements, route)) then Some(MissingKeyElement)
    else None
  }

  lemma InputsAre(systemCode: string, facts: Facts, sid: Id, input: PageInput)
    requires KeysDistinct(facts) && input in PageInputs(systemCode, facts, sid)
    ensures input.page in PagesOf(facts, sid) && input == InputOf(systemCode, facts, sid, input.page)
    ensures FindPage(facts.pages, input.page.id) == Some(input.page)
    ensures forall c | c in input.checks ::
              NormalDependencies(c.dependencies).menuChain == CleanLabels(MenuLabels(facts, sid, input.page.id))
  {
    SortMembers(PagesOf(facts, sid), PageOrder);
    var k :| 0 <= k < |PageInputs(systemCode, facts, sid)| && PageInputs(systemCode, facts, sid)[k] == input;
    var page := Sort(PagesOf(facts, sid), PageOrder)[k];
    assert page in Sort(PagesOf(facts, sid), PageOrder);
    assert input == InputOf(systemCode, facts, sid, page);
    FilterMembers(facts.pages, PageIn(sid));
    KeysIdentify(facts);
    FindPageMeaning(facts.pages, page);
    var ctx := ContextOf(facts, sid, page);
    forall c | c in input.checks
      ensures NormalDependencies(c.dependencies).menuChain == CleanLabels(MenuLabels(facts, sid, page.id))
    {
      var j :| 0 <= j < |input.checks| && input.checks[j] == c;
      assert c == CompileCheck(ctx, DefinitionsOf(facts, sid, page)[j]);
      PlannedChain(ctx, DefinitionsOf(facts, sid, page)[j]);
      CleanLabelsIdempotent(ctx.menuChain);
    }
  }

  /** The check of a code under the asset of a key. */
  function CheckAt(u: Tables, systemId: Id, key: string, code: string): Option<Id> {
    match FindAsset(u.assets, systemId, key)
    case None => None
    case Some(asset) => FindCheck(u.checks, asset, code)
  }

  /** The fate of the check of a code under the asset of a key, from the facts alone. */
  ghost function FateOf(facts: Facts, sid: Id, inputs: seq<PageInput>, key: string, code: string): Option<Reason>
    requires LastCompiling(inputs, key, code).Some?
  {
    var from := LastCompiling(inputs, key, code).value;
    Fate(facts, sid, LastFor(inputs, key).value.page, from.page, CheckFor(from.checks, code).value)
  }

  lemma VerdictIsFate(facts: Facts, sid: Id, on: Page, from: Page, compiled: CompiledCheck, c: ActiveCheck)
    requires KeysDistinct(facts) && on in PagesOf(facts, sid) && c.dependencies == compiled.dependencies
    requires NormalDependencies(compiled.dependencies).menuChain == CleanLabels(MenuLabels(facts, sid, from.id))
    ensures Verdict(c, Strip(on.route), TruthFor(facts, sid)) == Fate(facts, sid, on, from, compiled)
    ensures Strip(on.route) != "" ==> Strip(on.route) in TruthFor(facts, sid).routes
  {
    if Strip(on.route) != "" {
      PageChainCurrent(facts, sid, on);
    }
  }

  lemma FateIsVerdict(
    facts: Facts, sid: Id, systemCode: string, inputs: seq<PageInput>, key: string, code: string, c: ActiveCheck)
    requires KeysDistinct(facts) && inputs == PageInputs(systemCode, facts, sid) && LastCompiling(inputs, key, code).Some?
    requires c.dependencies == CheckFor(LastCompiling(inputs, key, code).value.checks, code).value.dependencies
    ensures var route := Strip(LastFor(inputs, key).value.page.route);
            && Verdict(c, route, TruthFor(facts, sid)) == FateOf(facts, sid, inputs, key, code)
            && (route != "" ==> route in TruthFor(facts, sid).routes)
  {
    var on, from := LastFor(inputs, key).value, LastCompiling(inputs, key, code).value;
    InputsAre(systemCode, facts, sid, on);
    InputsAre(systemCode, facts, sid, from);
    VerdictIsFate(facts, sid, on.page, from.page, CheckFor(from.checks, code).value, c);
  }

  lemma InstalledAt(u: Tables, pages: seq<Page>, systemId: Id, on: PageInput, compiled: CompiledCheck)
    requires FindPage(pages, on.page.id) == Some(on.page) && HasAsset(u, systemId, on)
    requires HasCheck(u, FindAsset(u.assets, systemId, on.key).value, compiled)
    ensures var asset, check := FindAsset(u.assets, systemId, on.key), CheckAt(u, systemId, on.key, compiled.code);
            && asset.Some? && AssetOn(u, asset.value) && u.assets[asset.value].systemId == systemId
            && AssetRoute(u, pages, asset.value) == Strip(on.page.route)
            && check.Some? && CheckOn(u, check.value) && u.checks[check.value].assetId == asset.value
            && u.checks[check.value].dependencies == compiled.dependencies
  {
  }

  lemma InstalledFate(
    u: Tables, facts: Facts, sid: Id, systemId: Id, systemCode: string, gate: Gate, inputs: seq<PageInput>, key: string, code: string)
    requires KeysDistinct(facts) && inputs == PageInputs(systemCode, facts, sid)
    requires LastCompiling(inputs, key, code).Some? && Installed(u, systemId, inputs, key, code)
    ensures CheckAt(u, systemId, key, code).Some? && CheckOn(u, CheckAt(u, systemId, key, code).value)
    ensures var ds := RetirementsOf(u, facts, sid, systemId, gate);
            && (forall reason :: NamedFor(ds, CheckAt(u, systemId, key, code).value, reason) <==>
                  gate.allow && FateOf(facts, sid, inputs, key, code) == Some(reason))
            && (forall d | d in ds && Some(d.assetId) == FindAsset(u.assets, systemId, key) :: d.reason != MissingPage)
  {
    var on := LastFor(inputs, key).value;
    InputsAre(systemCode, facts, sid, on);
    InstalledAt(u, facts.pages, systemId, on, CheckFor(LastCompiling(inputs, key, code).value.checks, code).value);
    var asset, check := FindAsset(u.assets, systemId, key).value, CheckAt(u, systemId, key, code).value;
    FateIsVerdict(facts, sid, systemCode, inputs, key, code, ActiveCheck(check, asset, u.checks[check].dependencies));
    NamedByVerdict(u, facts, sid, systemId, gate, check);
  }

  /** For every asset key and code that some page of the snapshot compiles: after the upserts the check is
      in service under the asset of the last page with the key, and the decisions taken against this very
      snapshot name it exactly for its fate. They never name it, or its asset, for a missing page. */
  lemma FreshCheckFate(t: Tables, facts: Facts, sid: Id, row: Snapshot, systemCode: string, gate: Gate, key: string, code: string)
    requires TablesInv(t) && Trusted(row) && KeysDistinct(facts)
    requires LastCompiling(PageInputs(systemCode, facts, sid), key, code).Some?
    ensures var u := Upserted(t, facts, sid, row, systemCode).tables;
            var check := CheckAt(u, row.systemId, key, code);
            var ds := RetirementsOf(u, facts, sid, row.systemId, gate);
            && check.Some? && CheckOn(u, check.value)
            && (forall reason :: NamedFor(ds, check.value, reason) <==>
                  gate.allow && FateOf(facts, sid, PageInputs(systemCode, facts, sid), key, code) == Some(reason))
            && (forall d | d in ds && Some(d.assetId) == FindAsset(u.assets, row.systemId, key) :: d.reason != MissingPage)
  {
    var inputs := PageInputs(systemCode, facts, sid);
    UpsertPagesInstall(t, row.systemId, sid, inputs, key, code);
    InstalledFate(Upserted(t, facts, sid, row, systemCode).tables, facts, sid, row.systemId, systemCode, gate, inputs, key, code);
  }

  /** A page's own route lists at least the page's menus, so a check stays unless its asset has moved on to
      a page with another route. */
  lemma FreshCheckSurvives(facts: Facts, sid: Id, systemCode: string, inputs: seq<PageInput>, key: string, code: string)
    requires KeysDistinct(facts) && inputs == PageInputs(systemCode, facts, sid) && LastCompiling(inputs, key, code).Some?
    requires Strip(LastFor(inputs, key).value.page.route) == Strip(LastCompiling(inputs, key, code).value.page.route)
    ensures FateOf(facts, sid, inputs, key, code) in {None, Some(MissingKeyElement)}
  {
    var from := LastCompiling(inputs, key, code).value;
    InputsAre(systemCode, facts, sid, from);
    if Strip(from.page.route) != "" {
      PageChainCurrent(facts, sid, from.page);
    }
  }

  ghost predicate InputKeysDistinct(inputs: seq<PageInput>) {
    forall i, j | 0 <= i < j < |inputs| :: inputs[i].key != inputs[j].key
  }

  /** With distinct asset keys every page keeps its asset and its checks. */
  lemma {:induction false} DistinctKeysStay(inputs: seq<PageInput>, k: nat, code: string)
    requires InputKeysDistinct(inputs) && k < |inputs| && CheckFor(inputs[k].checks, code).Some?
    ensures LastFor(inputs, inputs[k].key) == LastCompiling(inputs, inputs[k].key, code) == Some(inputs[k])
  {
    var front := inputs[..|inputs| - 1];
    if k < |front| {
      assert front[k] == inputs[k];
      DistinctKeysStay(front, k, code);
    }
  }

  // ---- What the sweep leaves ----

  lemma {:induction false} SweptExactly(t: Tables, ds: seq<Decision>, sid: Id, now: Time, id: Id)
    requires TablesInv(t) && forall d | d in ds :: Covers(t, d)
    ensures var r := SweepAll(Sweep(t, [], []), ds, sid, now);
            CheckOn(r.tables, id) <==> CheckOn(t, id) && forall d | d in ds :: id !in d.checkIds
  {
    if ds != [] {
      var front, d := ds[..|ds| - 1], ds[|ds| - 1];
      SnocSplit(ds);
      SweptExactly(t, front, sid, now, id);
      SweepAllInv(t, front, sid, now);
      var s := SweepAll(Sweep(t, [], []), front, sid, now);
      var m := SweepAsset(s, d, sid, now);
      assert Lowered(t, m);
      SweepChecksLowered(t, m, d.reason, sid, now, d.checkIds);
    }
  }

  lemma NamedForSome(ds: seq<Decision>, check: Id)
    ensures (exists d | d in ds :: check in d.checkIds) <==> (exists reason :: NamedFor(ds, check, reason))
  {
    if d :| d in ds && check in d.checkIds {
      assert NamedFor(ds, check, d.reason);
    }
  }

  lemma SweptByName(t: Tables, facts: Facts, sid: Id, row: Snapshot, gate: Gate, now: Time, id: Id)
    requires TablesInv(t)
    ensures CheckOn(Swept(t, facts, sid, row, gate, now).tables, id) <==>
            CheckOn(t, id) && !exists reason :: NamedFor(RetirementsOf(t, facts, sid, row.systemId, gate), id, reason)
  {
    var ds := RetirementsOf(t, facts, sid, row.systemId, gate);
    RetirementsCover(t, facts, sid, row.systemId, gate);
    SweptExactly(t, ds, sid, now, id);
    NamedForSome(ds, id);
  }

  /** After the whole compile the check is in service exactly if the crawl had collapsed or the check's fate
      is to stay. */
  lemma FreshCheckStays(t: Tables, facts: Facts, sid: Id, row: Snapshot, systemCode: string, now: Time, key: string, code: string)
    requires TablesInv(t) && Trusted(row) && KeysDistinct(facts)
    requires LastCompiling(PageInputs(systemCode, facts, sid), key, code).Some?
    ensures var check := CheckAt(Upserted(t, facts, sid, row, systemCode).tables, row.systemId, key, code);
            && check.Some?
            && (CheckOn(CompileBody(t, facts, sid, row, systemCode, now).tables, check.value) <==>
                Collapsed(t, facts, sid, row.systemId) || FateOf(facts, sid, PageInputs(systemCode, facts, sid), key, code).None?)
  {
    var gate := GateFor(t, facts, sid, row);
    var inputs := PageInputs(systemCode, facts, sid);
    var u := Upserted(t, facts, sid, row, systemCode).tables;
    GateMeaning(t, facts, sid, row);
    FreshCheckFate(t, facts, sid, row, systemCode, gate, key, code);
    UpsertPagesInv(t, row.systemId, sid, inputs);
    SweptByName(u, facts, sid, row, gate, now, CheckAt(u, row.systemId, key, code).value);
    if FateOf(facts, sid, inputs, key, code).Some? {
      assert gate.allow ==>
          NamedFor(RetirementsOf(u, facts, sid, row.systemId, gate), CheckAt(u, row.systemId, key, code).value, FateOf(facts, sid, inputs, key, code).value);
    }
  }

  lemma RouteOfActive(u: Tables, pages: seq<Page>, assets: seq<Id>, asset: Id)
    requires Distinct(assets) && asset in assets
    ensures KnownRoute(PageTruth(u, pages, assets), asset) == AssetRoute(u, pages, asset)
  {
    PageTruthMeaning(u, pages, assets);
    if AssetRoute(u, pages, asset) != "" {
      assert ActivePage(asset, AssetRoute(u, pages, asset)) in PageTruth(u, pages, assets);
    }
  }
}
