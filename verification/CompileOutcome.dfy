/** What a compile takes out of service, read off the tables before it and the snapshot's facts. */
module CompileOutcome {
  import opened Basics
  import opened Sorting
  import opened Text
  import opened Corpus
  import opened Reconciliation
  import opened RetirementLaws
  import opened AssetCompiler
  import opened LifecycleLaws
  import opened GateLaws
  import opened FreshCheckLaws

  // ---- Closed gate ----

  lemma {:induction false} UpsertChecksIdle(p: Pass, assetId: Id, compiled: seq<CompiledCheck>)
    ensures var q := UpsertChecks(p, assetId, false, compiled);
            && q.reactivated == p.reactivated && q.tables.assets == p.tables.assets && p.tables.nextId <= q.tables.nextId
            && (forall id | id in p.tables.checks && id < p.tables.nextId ::
                  id in q.tables.checks && q.tables.checks[id].lifecycle == p.tables.checks[id].lifecycle)
  {
    if compiled != [] {
      UpsertChecksIdle(p, assetId, compiled[..|compiled| - 1]);
      var r := UpsertChecks(p, assetId, false, compiled[..|compiled| - 1]);
      FirstMeaning(CheckRows(r.tables.checks, assetId, compiled[|compiled| - 1].code));
    }
  }

  lemma UpsertAssetIdle(t: Tables, systemId: Id, sid: Id, input: PageInput)
    ensures var (u, id) := UpsertAsset(t, systemId, sid, false, input);
            && u.checks == t.checks && t.nextId <= u.nextId
            && (forall a | a in t.assets && a < t.nextId :: a in u.assets && u.assets[a].lifecycle == t.assets[a].lifecycle)
  {
    FirstMeaning(AssetRows(t.assets, systemId, input.key));
  }

  /** Rows keep their lifecycle. */
  ghost predicate Idle(t: Tables, u: Tables) {
    && (forall id | id in t.checks :: id in u.checks && u.checks[id].lifecycle == t.checks[id].lifecycle)
    && (forall id | id in t.assets :: id in u.assets && u.assets[id].lifecycle == t.assets[id].lifecycle)
  }

  lemma {:induction false} UpsertPagesIdle(t: Tables, systemId: Id, sid: Id, inputs: seq<PageInput>)
    requires Attached(t)
    ensures var q := UpsertPages(Pass(t, []), systemId, sid, false, inputs);
            q.reactivated == [] && t.nextId <= q.tables.nextId && Idle(t, q.tables)
  {
    if inputs != [] {
      var front, input := inputs[..|inputs| - 1], inputs[|inputs| - 1];
      UpsertPagesIdle(t, systemId, sid, front);
      var p := UpsertPages(Pass(t, []), systemId, sid, false, front);
      UpsertAssetIdle(p.tables, systemId, sid, input);
      var (u, id) := UpsertAsset(p.tables, systemId, sid, false, input);
      UpsertChecksIdle(p.(tables := u), id, input.checks);
    }
  }

  /** A snapshot that is not full, degraded, without score or below 0.7, or one that has fewer than half of
      the routes served before, retires nothing. */
  lemma ClosedRetiresNothing(t: Tables, facts: Facts, sid: Id, row: Snapshot, systemCode: string, now: Time)
    requires KeysDistinct(facts) && (!Trusted(row) || Collapsed(t, facts, sid, row.systemId))
    ensures var r := CompileBody(t, facts, sid, row, systemCode, now);
            r.retiredAssets == [] && r.retiredChecks == [] && r.tables == Upserted(t, facts, sid, row, systemCode).tables
  {
    GateMeaning(t, facts, sid, row);
    var pass := Upserted(t, facts, sid, row, systemCode);
    assert RetirementsOf(pass.tables, facts, sid, row.systemId, GateFor(t, facts, sid, row)) == [];
  }

  /** An untrusted one does not bring anything back either: every asset and check keeps its lifecycle. */
  lemma UntrustedMovesNothing(t: Tables, facts: Facts, sid: Id, row: Snapshot, systemCode: string, now: Time)
    requires Attached(t) && KeysDistinct(facts) && !Trusted(row)
    ensures var r := CompileBody(t, facts, sid, row, systemCode, now);
            r.resumedChecks == [] && Idle(t, r.tables)
  {
    ClosedRetiresNothing(t, facts, sid, row, systemCode, now);
    UpsertPagesIdle(t, row.systemId, sid, PageInputs(systemCode, facts, sid));
    var r := CompileBody(t, facts, sid, row, systemCode, now);
    DedupeMembers<Id>([]);
    FilterMembers(Dedupe<Id>([]), NotIn(r.retiredChecks));
  }

  // ---- Open gate ----

  /** The page row exists and its route does not occur in the snapshot. */
  ghost predicate PageGone(facts: Facts, sid: Id, pageId: Id) {
    exists p :: p in facts.pages && p.id == pageId && Strip(p.route) != "" && Strip(p.route) !in SnapshotRoutes(facts, sid)
  }

  lemma PageGoneRoute(u: Tables, facts: Facts, sid: Id, a: Id)
    requires KeysDistinct(facts) && a in u.assets
    ensures var route := AssetRoute(u, facts.pages, a);
            route != "" && route !in TruthFor(facts, sid).routes <==> PageGone(facts, sid, u.assets[a].pageId)
  {
    CurrentRoutes(facts, sid);
    KeysIdentify(facts);
    FoundPage(facts.pages, u.assets[a].pageId);
    if p :| p in facts.pages && p.id == u.assets[a].pageId {
      FindPageMeaning(facts.pages, p);
    }
  }

  ghost predicate NamesAsset(ds: seq<Decision>, a: Id) {
    exists d | d in ds :: d.assetId == a && d.reason == MissingPage
  }

  lemma DecidedAssets(pages: seq<ActivePage>, checks: seq<ActiveCheck>, truth: SnapshotTruth, gate: Gate, a: Id)
    requires AssetsDistinct(pages) && ChecksDistinct(checks) && gate.allow
    ensures NamesAsset(Decisions(pages, checks, truth, gate), a) <==>
            KnownRoute(pages, a) != "" && KnownRoute(pages, a) !in truth.routes
  {
    RetirementExact(pages, checks, truth, gate);
    var ds := Decisions(pages, checks, truth, gate);
    if NamesAsset(ds, a) {
      var d :| d in ds && d.assetId == a && d.reason == MissingPage;
      var k :| 0 <= k < |ds| && ds[k] == d;
    }
    if k :| 0 <= k < |ds| && ds[k].assetId == a && ds[k].reason == MissingPage {
      assert ds[k] in ds;
    }
  }

  lemma NamedAssets(u: Tables, facts: Facts, sid: Id, systemId: Id, gate: Gate, a: Id)
    requires KeysDistinct(facts) && gate.allow
    ensures NamesAsset(RetirementsOf(u, facts, sid, systemId, gate), a) <==>
            AssetOn(u, a) && u.assets[a].systemId == systemId && PageGone(facts, sid, u.assets[a].pageId)
  {
    var assets := ActiveAssets(u, systemId);
    ActiveAssetsKnown(u, systemId);
    ActiveChecksKnown(u, assets);
    PageTruthMeaning(u, facts.pages, assets);
    CheckTruthMeaning(u, ActiveChecks(u, assets));
    DecidedAssets(PageTruth(u, facts.pages, assets), CheckTruth(u, ActiveChecks(u, assets)), TruthFor(facts, sid), gate, a);
    if a in assets {
      RouteOfActive(u, facts.pages, assets, a);
      PageGoneRoute(u, facts, sid, a);
    }
  }

  lemma {:induction false} SweptAssets(t: Tables, ds: seq<Decision>, sid: Id, now: Time, a: Id)
    requires TablesInv(t) && forall d | d in ds :: Covers(t, d)
    ensures var s := SweepAll(Sweep(t, [], []), ds, sid, now);
            && (AssetOn(s.tables, a) <==> AssetOn(t, a) && !NamesAsset(ds, a))
            && (a in s.assets <==> AssetOn(t, a) && NamesAsset(ds, a))
  {
    if ds != [] {
      var front, d := ds[..|ds| - 1], ds[|ds| - 1];
      SnocSplit(ds);
      SweptAssets(t, front, sid, now, a);
      SweepAllInv(t, front, sid, now);
      SweepAllInv(t, ds, sid, now);
      var s := SweepAll(Sweep(t, [], []), front, sid, now);
      SweepAssetLowered(t, s, d, sid, now);
      SweepChecksLowered(t, SweepAsset(s, d, sid, now), d.reason, sid, now, d.checkIds);
      assert NamesAsset(ds, a) <==> NamesAsset(front, a) || (d.assetId == a && d.reason == MissingPage);
    }
  }

  // ---- Assets that the snapshot does not list ----

  /** The row that upserting the page finds for its key. */
  predicate FoundBy(t: Tables, systemId: Id, a: Id, input: PageInput) {
    FindAsset(t.assets, systemId, input.key) == Some(a)
  }

  ghost predicate FoundByOne(t: Tables, systemId: Id, a: Id, inputs: seq<PageInput>) {
    exists input :: input in inputs && FoundBy(t, systemId, a, input)
  }

  lemma FoundByFront(t: Tables, systemId: Id, a: Id, front: seq<PageInput>, last: PageInput)
    ensures FoundByOne(t, systemId, a, front + [last]) <==> FoundByOne(t, systemId, a, front) || FoundBy(t, systemId, a, last)
  {
    if input :| input in front && FoundBy(t, systemId, a, input) {
      assert input in front + [last];
    }
    assert last in front + [last];
  }

  lemma UpsertAssetOthers(t: Tables, systemId: Id, sid: Id, input: PageInput, a: Id)
    requires TablesInv(t) && a in t.assets && !FoundBy(t, systemId, a, input)
    ensures var (u, id) := UpsertAsset(t, systemId, sid, true, input); a in u.assets && u.assets[a] == t.assets[a]
  {
    FirstMeaning(AssetRows(t.assets, systemId, input.key));
  }

  lemma UpsertPageAssets(p: Pass, systemId: Id, sid: Id, input: PageInput)
    requires TablesInv(p.tables)
    ensures UpsertPage(p, systemId, sid, true, input).tables.assets == UpsertAsset(p.tables, systemId, sid, true, input).0.assets
  {
    UpsertAssetInv(p.tables, systemId, sid, input);
    var (u, id) := UpsertAsset(p.tables, systemId, sid, true, input);
    UpsertChecksInv(u, Pass(u, []), id, input.checks);
    UpsertChecksTables(p.(tables := u), id, input.checks);
  }

  lemma FoundEarlier(t: Tables, u: Tables, systemId: Id, a: Id, input: PageInput)
    requires a in t.assets && a in u.assets && u.assets[a] == t.assets[a] && FoundBy(u, systemId, a, input)
    requires FindAsset(t.assets, systemId, input.key).Some? ==>
               FindAsset(u.assets, systemId, input.key) == FindAsset(t.assets, systemId, input.key)
    ensures FoundBy(t, systemId, a, input)
  {
    FirstMeaning(AssetRows(t.assets, systemId, input.key));
    FirstMeaning(AssetRows(u.assets, systemId, input.key));
    assert a in AssetRows(t.assets, systemId, input.key);
  }

  /** Upserting leaves an asset alone that no page of the snapshot finds. */
  lemma {:induction false} UnlistedStays(t: Tables, systemId: Id, sid: Id, inputs: seq<PageInput>, a: Id)
    requires TablesInv(t) && a in t.assets && !FoundByOne(t, systemId, a, inputs)
    ensures var u := UpsertPages(Pass(t, []), systemId, sid, true, inputs).tables; a in u.assets && u.assets[a] == t.assets[a]
  {
    if inputs != [] {
      var front, last := inputs[..|inputs| - 1], inputs[|inputs| - 1];
      assert inputs == front + [last];
      FoundByFront(t, systemId, a, front, last);
      UnlistedStays(t, systemId, sid, front, a);
      UpsertPagesInv(t, systemId, sid, front);
      var p := UpsertPages(Pass(t, []), systemId, sid, true, front);
      RowsKeepIdentity(t, systemId, sid, front, systemId, last.key, 0, "");
      if FoundBy(p.tables, systemId, a, last) {
        FoundEarlier(t, p.tables, systemId, a, last);
      }
      UpsertAssetOthers(p.tables, systemId, sid, last, a);
      UpsertPageAssets(p, systemId, sid, last);
    }
  }

  /** Every other asset afterwards is found by a page of the snapshot. */
  lemma {:induction false} NewIsListed(t: Tables, systemId: Id, sid: Id, inputs: seq<PageInput>, a: Id)
    requires TablesInv(t)
    requires a in UpsertPages(Pass(t, []), systemId, sid, true, inputs).tables.assets
    requires a !in t.assets || FoundByOne(t, systemId, a, inputs)
    ensures FoundByOne(UpsertPages(Pass(t, []), systemId, sid, true, inputs).tables, systemId, a, inputs)
  {
    var u := UpsertPages(Pass(t, []), systemId, sid, true, inputs).tables;
    if a in t.assets {
      var input :| input in inputs && FoundBy(t, systemId, a, input);
      RowsKeepIdentity(t, systemId, sid, inputs, systemId, input.key, 0, "");
      assert FoundBy(u, systemId, a, input);
    } else {
      NewRowIsListed(t, systemId, sid, inputs, a);
    }
  }

  lemma {:induction false} NewRowIsListed(t: Tables, systemId: Id, sid: Id, inputs: seq<PageInput>, a: Id)
    requires TablesInv(t) && a !in t.assets
    requires a in UpsertPages(Pass(t, []), systemId, sid, true, inputs).tables.assets
    ensures FoundByOne(UpsertPages(Pass(t, []), systemId, sid, true, inputs).tables, systemId, a, inputs)
  {
    var front, last := inputs[..|inputs| - 1], inputs[|inputs| - 1];
    assert inputs == front + [last];
    UpsertPagesInv(t, systemId, sid, front);
    var p := UpsertPages(Pass(t, []), systemId, sid, true, front);
    var u := UpsertPages(Pass(t, []), systemId, sid, true, inputs).tables;
    UpsertPageAssets(p, systemId, sid, last);
    UpsertAssetInstalls(p.tables, systemId, sid, last);
    FoundByFront(u, systemId, a, front, last);
    if a in p.tables.assets {
      NewRowIsListed(t, systemId, sid, front, a);
      var input :| input in front && FoundBy(p.tables, systemId, a, input);
      PageKeepsIdentity(p, systemId, sid, last, systemId, input.key, 0, "");
      assert FoundBy(u, systemId, a, input);
    } else {
      FirstMeaning(AssetRows(p.tables.assets, systemId, last.key));
      assert FoundBy(u, systemId, a, last);
    }
  }

  /** The asset of a listed page stands on a page of the snapshot. */
  lemma ListedNotGone(t: Tables, facts: Facts, sid: Id, systemId: Id, systemCode: string, a: Id)
    requires TablesInv(t) && KeysDistinct(facts)
    requires var inputs := PageInputs(systemCode, facts, sid);
             FoundByOne(UpsertPages(Pass(t, []), systemId, sid, true, inputs).tables, systemId, a, inputs)
    ensures var u := UpsertPages(Pass(t, []), systemId, sid, true, PageInputs(systemCode, facts, sid)).tables;
            a in u.assets && !PageGone(facts, sid, u.assets[a].pageId)
  {
    var inputs := PageInputs(systemCode, facts, sid);
    var u := UpsertPages(Pass(t, []), systemId, sid, true, inputs).tables;
    var input :| input in inputs && FoundBy(u, systemId, a, input);
    InputListed(inputs, input);
    UpsertPagesInstall(t, systemId, sid, inputs, input.key, "");
    var on := LastFor(inputs, input.key).value;
    assert HasAsset(u, systemId, on);
    InputsAre(systemCode, facts, sid, on);
    FilterMembers(facts.pages, PageIn(sid));
    KeysIdentify(facts);
  }

  lemma {:induction false} InputListed(inputs: seq<PageInput>, input: PageInput)
    requires input in inputs
    ensures LastFor(inputs, input.key).Some?
  {
    if inputs[|inputs| - 1].key != input.key {
      InputListed(inputs[..|inputs| - 1], input);
    }
  }

  // ---- Main results ----

  /** The row is the first of the system with the key. */
  predicate HoldsKey(t: Tables, systemId: Id, key: string, a: Id) {
    && a in t.assets && t.assets[a].systemId == systemId && t.assets[a].key == key
    && forall b | b in t.assets && t.assets[b].systemId == systemId && t.assets[b].key == key :: a <= b
  }

  /** Some page of the snapshot has the asset's key. */
  ghost predicate ListedAsset(t: Tables, facts: Facts, sid: Id, systemId: Id, systemCode: string, a: Id) {
    exists p :: p in facts.pages && p.snapshotId == sid && HoldsKey(t, systemId, AssetKey(systemCode, p.route, p.title), a)
  }

  lemma HoldsFound(t: Tables, systemId: Id, key: string, a: Id)
    ensures HoldsKey(t, systemId, key, a) <==> FindAsset(t.assets, systemId, key) == Some(a)
  {
    var rows := AssetRows(t.assets, systemId, key);
    FirstMeaning(rows);
    assert FindAsset(t.assets, systemId, key) == First(rows);
    if HoldsKey(t, systemId, key, a) {
      assert a in rows && First(rows).value in rows;
    }
    if First(rows) == Some(a) {
      forall b | b in t.assets && t.assets[b].systemId == systemId && t.assets[b].key == key ensures a <= b {
        assert b in rows;
      }
    }
  }

  lemma ListedFound(t: Tables, facts: Facts, sid: Id, systemId: Id, systemCode: string, a: Id)
    requires KeysDistinct(facts)
    ensures ListedAsset(t, facts, sid, systemId, systemCode, a) <==> FoundByOne(t, systemId, a, PageInputs(systemCode, facts, sid))
  {
    var pages, inputs := Sort(PagesOf(facts, sid), PageOrder), PageInputs(systemCode, facts, sid);
    SortMembers(PagesOf(facts, sid), PageOrder);
    FilterMembers(facts.pages, PageIn(sid));
    if p :| p in facts.pages && p.snapshotId == sid && HoldsKey(t, systemId, AssetKey(systemCode, p.route, p.title), a) {
      assert p in pages;
      var i :| 0 <= i < |pages| && pages[i] == p;
      HoldsFound(t, systemId, inputs[i].key, a);
      assert FoundBy(t, systemId, a, inputs[i]);
    }
    if input :| input in inputs && FoundBy(t, systemId, a, input) {
      InputsAre(systemCode, facts, sid, input);
      HoldsFound(t, systemId, input.key, a);
    }
  }

  ghost predicate ToRetire(t: Tables, facts: Facts, sid: Id, row: Snapshot, systemCode: string, a: Id) {
    && a in t.assets && t.assets[a].lifecycle == InService && t.assets[a].systemId == row.systemId
    && !ListedAsset(t, facts, sid, row.systemId, systemCode, a)
    && PageGone(facts, sid, t.assets[a].pageId)
  }

  lemma GoneAfterUpserts(t: Tables, facts: Facts, sid: Id, row: Snapshot, systemCode: string, a: Id)
    requires TablesInv(t) && KeysDistinct(facts) && Trusted(row)
    ensures var u := Upserted(t, facts, sid, row, systemCode).tables;
            AssetOn(u, a) && u.assets[a].systemId == row.systemId && PageGone(facts, sid, u.assets[a].pageId)
            <==> ToRetire(t, facts, sid, row, systemCode, a)
  {
    var inputs := PageInputs(systemCode, facts, sid);
    var u := Upserted(t, facts, sid, row, systemCode).tables;
    ListedFound(t, facts, sid, row.systemId, systemCode, a);
    if a in t.assets && !FoundByOne(t, row.systemId, a, inputs) {
      UnlistedStays(t, row.systemId, sid, inputs, a);
    } else if a in u.assets {
      NewIsListed(t, row.systemId, sid, inputs, a);
      ListedNotGone(t, facts, sid, row.systemId, systemCode, a);
    }
  }

  /** A trusted snapshot that has not collapsed retires exactly the assets in service of its system that no
      page of it lists and whose page has a route that does not occur in it. */
  lemma AssetsRetiredExactly(t: Tables, facts: Facts, sid: Id, row: Snapshot, systemCode: string, now: Time, a: Id)
    requires TablesInv(t) && KeysDistinct(facts) && Trusted(row) && !Collapsed(t, facts, sid, row.systemId)
    ensures var r := CompileBody(t, facts, sid, row, systemCode, now);
            && (a in r.retiredAssets <==> ToRetire(t, facts, sid, row, systemCode, a))
            && (a in r.retiredAssets ==> a in r.tables.assets && r.tables.assets[a].lifecycle != InService)
  {
    var u := Upserted(t, facts, sid, row, systemCode).tables;
    var gate := GateFor(t, facts, sid, row);
    GateMeaning(t, facts, sid, row);
    UpsertPagesInv(t, row.systemId, sid, PageInputs(systemCode, facts, sid));
    GoneAfterUpserts(t, facts, sid, row, systemCode, a);
    RetiredAsset(u, facts, sid, row, gate, now, a);
    var s := Swept(u, facts, sid, row, gate, now);
    DedupeMembers(s.assets);
  }

  lemma RetiredAsset(u: Tables, facts: Facts, sid: Id, row: Snapshot, gate: Gate, now: Time, a: Id)
    requires TablesInv(u) && KeysDistinct(facts) && gate.allow
    ensures var s := Swept(u, facts, sid, row, gate, now);
            && (a in s.assets <==> AssetOn(u, a) && u.assets[a].systemId == row.systemId && PageGone(facts, sid, u.assets[a].pageId))
            && (a in s.assets ==> a in s.tables.assets && !AssetOn(s.tables, a))
  {
    var ds := RetirementsOf(u, facts, sid, row.systemId, gate);
    RetirementsCover(u, facts, sid, row.systemId, gate);
    SweptAssets(u, ds, sid, now, a);
    SweepAllInv(u, ds, sid, now);
    NamedAssets(u, facts, sid, row.systemId, gate, a);
  }

  // ---- Checks ----

  lemma MissingAreActive(checks: seq<ActiveCheck>, a: Id, id: Id)
    requires id in ChecksOfAsset(checks, a)
    ensures exists c :: c in checks && c.checkId == id
  {
    ChecksOfAssetMeaning(checks, a);
  }

  lemma GroupedAreActive(pages: seq<ActivePage>, checks: seq<ActiveCheck>, truth: SnapshotTruth, g: Decision, id: Id)
    requires g in GroupsFor(pages, checks, truth) && id in g.checkIds
    ensures exists c :: c in checks && c.checkId == id
  {
    var routes, missing := RoutesByAsset(pages), ToSet(MissingAssets(pages, truth));
    GroupsMeaning(checks, routes, missing, truth);
    assert InGroup(GroupsFor(pages, checks, truth), g.assetId, g.reason, id);
    var c :| Grouped(checks, routes, missing, truth, g.assetId, g.reason, id, c);
  }

  lemma DecisionChecks(pages: seq<ActivePage>, checks: seq<ActiveCheck>, truth: SnapshotTruth, gate: Gate, k: nat)
    requires gate.allow && k < |Decisions(pages, checks, truth, gate)|
    ensures var d, missing := Decisions(pages, checks, truth, gate)[k], MissingAssets(pages, truth);
            || (k < |missing| && d.checkIds == ChecksOfAsset(checks, missing[k]))
            || (exists g :: g in GroupsFor(pages, checks, truth) && d.checkIds == SortedIds(g.checkIds))
  {
    DecisionParts(pages, checks, truth, gate);
    var missing, groups := MissingAssets(pages, truth), GroupsFor(pages, checks, truth);
    if k >= |missing| {
      assert groups[k - |missing|] in groups;
    }
  }

  lemma NamedAreActive(pages: seq<ActivePage>, checks: seq<ActiveCheck>, truth: SnapshotTruth, gate: Gate, id: Id, reason: Reason)
    requires gate.allow && NamedFor(Decisions(pages, checks, truth, gate), id, reason)
    ensures exists c :: c in checks && c.checkId == id
  {
    var ds := Decisions(pages, checks, truth, gate);
    var d :| d in ds && id in d.checkIds && d.reason == reason;
    var k :| 0 <= k < |ds| && ds[k] == d;
    DecisionChecks(pages, checks, truth, gate, k);
    if g :| g in GroupsFor(pages, checks, truth) && d.checkIds == SortedIds(g.checkIds) {
      SortedIdsMeaning(g.checkIds);
      GroupedAreActive(pages, checks, truth, g, id);
    } else {
      MissingAreActive(checks, MissingAssets(pages, truth)[k], id);
    }
  }

  lemma NamedInSystem(u: Tables, facts: Facts, sid: Id, systemId: Id, gate: Gate, id: Id, reason: Reason)
    requires gate.allow && NamedFor(RetirementsOf(u, facts, sid, systemId, gate), id, reason)
    ensures CheckOn(u, id) && AssetOn(u, u.checks[id].assetId) && u.assets[u.checks[id].assetId].systemId == systemId
  {
    var assets := ActiveAssets(u, systemId);
    ActiveAssetsKnown(u, systemId);
    ActiveChecksKnown(u, assets);
    PageTruthMeaning(u, facts.pages, assets);
    CheckTruthMeaning(u, ActiveChecks(u, assets));
    NamedAreActive(PageTruth(u, facts.pages, assets), CheckTruth(u, ActiveChecks(u, assets)), TruthFor(facts, sid), gate, id, reason);
  }

  /** Why a check in service has to go, after the upserts. */
  ghost function Due(u: Tables, facts: Facts, sid: Id, systemId: Id, id: Id): Option<Reason> {
    if CheckOn(u, id) && AssetOn(u, u.checks[id].assetId) && u.assets[u.checks[id].assetId].systemId == systemId then
      Verdict(ActiveCheck(id, u.checks[id].assetId, u.checks[id].dependencies), AssetRoute(u, facts.pages, u.checks[id].assetId), TruthFor(facts, sid))
    else None
  }

  lemma NamedIffDue(u: Tables, facts: Facts, sid: Id, systemId: Id, gate: Gate, id: Id)
    requires gate.allow
    ensures (exists reason :: NamedFor(RetirementsOf(u, facts, sid, systemId, gate), id, reason)) <==> Due(u, facts, sid, systemId, id).Some?
  {
    if reason :| NamedFor(RetirementsOf(u, facts, sid, systemId, gate), id, reason) {
      NamedInSystem(u, facts, sid, systemId, gate, id, reason);
    }
    if CheckOn(u, id) && AssetOn(u, u.checks[id].assetId) && u.assets[u.checks[id].assetId].systemId == systemId {
      NamedByVerdict(u, facts, sid, systemId, gate, id);
    }
  }

  lemma RetiredCheck(u: Tables, facts: Facts, sid: Id, row: Snapshot, gate: Gate, now: Time, id: Id)
    requires TablesInv(u) && gate.allow
    ensures id in Swept(u, facts, sid, row, gate, now).checks <==> Due(u, facts, sid, row.systemId, id).Some?
  {
    var ds := RetirementsOf(u, facts, sid, row.systemId, gate);
    RetirementsCover(u, facts, sid, row.systemId, gate);
    SweepAllInv(u, ds, sid, now);
    SweptByName(u, facts, sid, row, gate, now, id);
    NamedIffDue(u, facts, sid, row.systemId, gate, id);
  }

  lemma {:induction false} SweepChecksRecord(s: Sweep, reason: Reason, sid: Id, now: Time, ids: seq<Id>, id: Id)
    requires id in s.tables.checks
    ensures var r := SweepChecks(s, reason, sid, now, ids);
            && id in r.tables.checks
            && r.tables.checks[id] ==
               if id in ids && s.tables.checks[id].lifecycle == InService then RetireCheck(s.tables.checks[id], reason, sid, now)
               else s.tables.checks[id]
  {
    if ids != [] {
      SweepChecksRecord(s, reason, sid, now, ids[..|ids| - 1], id);
      SnocSplit(ids);
    }
  }

  lemma {:induction false} SweptRecord(t: Tables, ds: seq<Decision>, sid: Id, now: Time, id: Id, reason: Reason)
    requires id in t.checks && forall d | d in ds && id in d.checkIds :: d.reason == reason
    ensures var s := SweepAll(Sweep(t, [], []), ds, sid, now);
            && id in s.tables.checks
            && s.tables.checks[id] ==
               if t.checks[id].lifecycle == InService && (exists d :: d in ds && id in d.checkIds) then RetireCheck(t.checks[id], reason, sid, now)
               else t.checks[id]
  {
    if ds != [] {
      var front, d := ds[..|ds| - 1], ds[|ds| - 1];
      SnocSplit(ds);
      SweptRecord(t, front, sid, now, id, reason);
      var s := SweepAll(Sweep(t, [], []), front, sid, now);
      SweepChecksRecord(SweepAsset(s, d, sid, now), d.reason, sid, now, d.checkIds, id);
      assert d in ds;
    }
  }

  /** The row of a retired check says why, when and by which snapshot. */
  ghost predicate RetiredRow(before: PageCheck, after: PageCheck, reason: Reason, sid: Id, now: Time) {
    && after.assetId == before.assetId && after.code == before.code && after.goal == before.goal && after.dependencies == before.dependencies
    && after.lifecycle == RetiredMissing && after.retiredAt == Some(now) && after.retiredBy == Some(sid)
    && after.retiredReason == Some(match reason
                                   case MissingPage => "missing_page"
                                   case MissingMenuChain => "missing_menu_chain"
                                   case MissingKeyElement => "missing_key_element")
  }

  lemma RetiredCheckRow(u: Tables, facts: Facts, sid: Id, row: Snapshot, gate: Gate, now: Time, id: Id)
    requires TablesInv(u) && gate.allow && Due(u, facts, sid, row.systemId, id).Some?
    ensures var s := Swept(u, facts, sid, row, gate, now);
            id in u.checks && id in s.tables.checks
            && RetiredRow(u.checks[id], s.tables.checks[id], Due(u, facts, sid, row.systemId, id).value, sid, now)
  {
    var ds := RetirementsOf(u, facts, sid, row.systemId, gate);
    var reason := Due(u, facts, sid, row.systemId, id).value;
    NamedByVerdict(u, facts, sid, row.systemId, gate, id);
    forall d | d in ds && id in d.checkIds ensures d.reason == reason {
      assert NamedFor(ds, id, d.reason);
    }
    assert NamedFor(ds, id, reason);
    SweptRecord(u, ds, sid, now, id, reason);
  }

  /** And it retires exactly the checks in service, under assets in service of its system, that have a
      reason to go. */
  lemma ChecksRetiredExactly(t: Tables, facts: Facts, sid: Id, row: Snapshot, systemCode: string, now: Time, id: Id)
    requires TablesInv(t) && KeysDistinct(facts) && Trusted(row) && !Collapsed(t, facts, sid, row.systemId)
    ensures id in CompileBody(t, facts, sid, row, systemCode, now).retiredChecks <==>
            Due(Upserted(t, facts, sid, row, systemCode).tables, facts, sid, row.systemId, id).Some?
    ensures var u, r := Upserted(t, facts, sid, row, systemCode).tables, CompileBody(t, facts, sid, row, systemCode, now);
            Due(u, facts, sid, row.systemId, id).Some? ==>
              && id in u.checks && id in r.tables.checks
              && RetiredRow(u.checks[id], r.tables.checks[id], Due(u, facts, sid, row.systemId, id).value, sid, now)
  {
    var u := Upserted(t, facts, sid, row, systemCode).tables;
    var gate := GateFor(t, facts, sid, row);
    GateMeaning(t, facts, sid, row);
    UpsertPagesInv(t, row.systemId, sid, PageInputs(systemCode, facts, sid));
    RetiredCheck(u, facts, sid, row, gate, now, id);
    if Due(u, facts, sid, row.systemId, id).Some? {
      RetiredCheckRow(u, facts, sid, row, gate, now, id);
    }
    DedupeMembers(Swept(u, facts, sid, row, gate, now).checks);
  }
}
