/** What a compile keeps and moves: a check in service always belongs to an asset in service, and the
    checks a compile reports as retired or brought back are exactly the ones that moved. */
module LifecycleLaws {
  import opened Basics
  import opened Sorting
  import opened Corpus
  import opened Reconciliation
  import opened RetirementLaws
  import opened AssetCompiler

  predicate AssetOn(t: Tables, id: Id) {
    id in t.assets && t.assets[id].lifecycle == InService
  }

  predicate CheckOn(t: Tables, id: Id) {
    id in t.checks && t.checks[id].lifecycle == InService
  }

  ghost predicate Attached(t: Tables) {
    && (forall id | id in t.checks :: t.checks[id].assetId in t.assets)
    && (forall id | id in t.assets :: id < t.nextId)
    && (forall id | id in t.checks :: id < t.nextId)
  }

  /** The lifecycle law. */
  ghost predicate ServiceInv(t: Tables) {
    forall id | CheckOn(t, id) :: AssetOn(t, t.checks[id].assetId)
  }

  ghost predicate TablesInv(t: Tables) {
    Attached(t) && ServiceInv(t)
  }

  // ---- Upserts ----

  lemma UpsertAssetInv(t: Tables, systemId: Id, sid: Id, input: PageInput)
    requires TablesInv(t)
    ensures var (u, id) := UpsertAsset(t, systemId, sid, true, input);
            && TablesInv(u) && AssetOn(u, id)
            && u.checks == t.checks && t.nextId <= u.nextId
            && (forall a | AssetOn(t, a) :: AssetOn(u, a))
  {
    var found := FindAsset(t.assets, systemId, input.key);
    FirstMeaning(set id | id in t.assets && t.assets[id].systemId == systemId && t.assets[id].key == input.key);
    var (u, id) := UpsertAsset(t, systemId, sid, true, input);
    forall c | CheckOn(u, c) ensures AssetOn(u, u.checks[c].assetId) {
      assert CheckOn(t, c);
    }
  }

  /** How a pass relates to the tables it started from. */
  ghost predicate Upgraded(t: Tables, p: Pass) {
    var u := p.tables;
    && t.nextId <= u.nextId
    && (forall id | id in u.checks && id !in t.checks :: t.nextId <= id && CheckOn(u, id))
    && (forall id | id in t.checks :: id in u.checks && SameCheck(t.checks[id], u.checks[id]))
    && (forall id | id in t.checks :: CheckOn(u, id) <==> CheckOn(t, id) || id in p.reactivated)
    && (forall id | id in p.reactivated :: id in t.checks && !CheckOn(t, id))
  }

  predicate SameCheck(c: PageCheck, d: PageCheck) {
    c.assetId == d.assetId && c.code == d.code
  }

  lemma UpsertCheckUpgrades(t: Tables, p: Pass, assetId: Id, compiled: CompiledCheck)
    requires Attached(p.tables) && Upgraded(t, p)
    requires forall id | id in t.checks :: id < t.nextId
    ensures Upgraded(t, UpsertCheck(p, assetId, true, compiled))
  {
    FirstMeaning(set id | id in p.tables.checks && p.tables.checks[id].assetId == assetId && p.tables.checks[id].code == compiled.code);
  }

  lemma UpsertCheckInv(t: Tables, p: Pass, assetId: Id, compiled: CompiledCheck)
    requires TablesInv(p.tables) && AssetOn(p.tables, assetId) && Upgraded(t, p)
    requires forall id | id in t.checks :: id < t.nextId
    ensures var q := UpsertCheck(p, assetId, true, compiled);
            && TablesInv(q.tables) && q.tables.assets == p.tables.assets && Upgraded(t, q)
  {
    UpsertCheckUpgrades(t, p, assetId, compiled);
    FirstMeaning(set id | id in p.tables.checks && p.tables.checks[id].assetId == assetId && p.tables.checks[id].code == compiled.code);
    var q := UpsertCheck(p, assetId, true, compiled);
    forall c | CheckOn(q.tables, c) ensures AssetOn(q.tables, q.tables.checks[c].assetId) {
      if c in p.tables.checks && p.tables.checks[c].assetId != assetId {
        assert CheckOn(p.tables, c);
      }
    }
  }

  lemma {:induction false} UpsertChecksInv(t: Tables, p: Pass, assetId: Id, compiled: seq<CompiledCheck>)
    requires TablesInv(p.tables) && AssetOn(p.tables, assetId) && Upgraded(t, p)
    requires forall id | id in t.checks :: id < t.nextId
    ensures var q := UpsertChecks(p, assetId, true, compiled);
            && TablesInv(q.tables) && q.tables.assets == p.tables.assets && Upgraded(t, q)
  {
    if compiled != [] {
      var front := compiled[..|compiled| - 1];
      UpsertChecksInv(t, p, assetId, front);
      UpsertCheckInv(t, UpsertChecks(p, assetId, true, front), assetId, compiled[|compiled| - 1]);
    }
  }

  lemma {:induction false} UpsertPagesInv(t: Tables, systemId: Id, sid: Id, inputs: seq<PageInput>)
    requires TablesInv(t)
    ensures var q := UpsertPages(Pass(t, []), systemId, sid, true, inputs);
            TablesInv(q.tables) && Upgraded(t, q)
  {
    if inputs != [] {
      var front, input := inputs[..|inputs| - 1], inputs[|inputs| - 1];
      UpsertPagesInv(t, systemId, sid, front);
      var p := UpsertPages(Pass(t, []), systemId, sid, true, front);
      UpsertAssetInv(p.tables, systemId, sid, input);
      var (u, assetId) := UpsertAsset(p.tables, systemId, sid, true, input);
      UpsertChecksInv(t, p.(tables := u), assetId, input.checks);
    }
  }

  // ---- Retirement ----

  /** How a sweep relates to the tables it started from. */
  ghost predicate Lowered(t: Tables, s: Sweep) {
    var u := s.tables;
    && u.nextId == t.nextId && u.checks.Keys == t.checks.Keys && u.assets.Keys == t.assets.Keys
    && (forall id | id in t.checks :: SameCheck(t.checks[id], u.checks[id]))
    && (forall id | id in t.checks :: CheckOn(u, id) <==> CheckOn(t, id) && id !in s.checks)
    && (forall id | id in t.assets :: AssetOn(u, id) <==> AssetOn(t, id) && id !in s.assets)
    && (forall id | id in s.checks :: CheckOn(t, id))
    && (forall id | id in s.assets :: AssetOn(t, id))
  }

  lemma SweepCheckLowered(t: Tables, s: Sweep, reason: Reason, sid: Id, now: Time, id: Id)
    requires Lowered(t, s)
    ensures var r := SweepCheck(s, reason, sid, now, id);
            && Lowered(t, r) && r.tables.assets == s.tables.assets && r.assets == s.assets
            && (forall c :: CheckOn(r.tables, c) <==> CheckOn(s.tables, c) && c != id)
  {
  }

  lemma {:induction false} SweepChecksLowered(t: Tables, s: Sweep, reason: Reason, sid: Id, now: Time, ids: seq<Id>)
    requires Lowered(t, s)
    ensures var r := SweepChecks(s, reason, sid, now, ids);
            && Lowered(t, r) && r.tables.assets == s.tables.assets && r.assets == s.assets
            && (forall id :: CheckOn(r.tables, id) <==> CheckOn(s.tables, id) && id !in ids)
  {
    if ids != [] {
      var front, id := ids[..|ids| - 1], ids[|ids| - 1];
      SweepChecksLowered(t, s, reason, sid, now, front);
      SweepCheckLowered(t, SweepChecks(s, reason, sid, now, front), reason, sid, now, id);
      assert ids == front + [id];
    }
  }

  /** A missing-page decision takes along every check of the asset still in service. */
  ghost predicate Covers(t: Tables, d: Decision) {
    d.reason == MissingPage ==> forall id | CheckOn(t, id) && t.checks[id].assetId == d.assetId :: id in d.checkIds
  }

  lemma SweepAssetLowered(t: Tables, s: Sweep, d: Decision, sid: Id, now: Time)
    requires Lowered(t, s)
    ensures var m := SweepAsset(s, d, sid, now);
            && Lowered(t, m) && m.tables.checks == s.tables.checks && m.tables.nextId == s.tables.nextId
            && m.tables.assets.Keys == s.tables.assets.Keys
            && (forall a :: AssetOn(m.tables, a) <==> AssetOn(s.tables, a) && !(d.reason == MissingPage && a == d.assetId))
  {
  }

  lemma SweepDecisionInv(t: Tables, s: Sweep, d: Decision, sid: Id, now: Time)
    requires Lowered(t, s) && TablesInv(s.tables) && Covers(t, d)
    ensures var r := SweepDecision(s, d, sid, now);
            Lowered(t, r) && TablesInv(r.tables)
  {
    var m := SweepAsset(s, d, sid, now);
    SweepAssetLowered(t, s, d, sid, now);
    SweepChecksLowered(t, m, d.reason, sid, now, d.checkIds);
    var r := SweepDecision(s, d, sid, now);
    forall id | CheckOn(r.tables, id) ensures AssetOn(r.tables, r.tables.checks[id].assetId) {
      assert CheckOn(m.tables, id) && CheckOn(s.tables, id) && CheckOn(t, id);
      assert AssetOn(s.tables, s.tables.checks[id].assetId);
      assert d.reason == MissingPage ==> t.checks[id].assetId != d.assetId;
    }
  }

  lemma {:induction false} SweepAllInv(t: Tables, ds: seq<Decision>, sid: Id, now: Time)
    requires TablesInv(t) && forall d | d in ds :: Covers(t, d)
    ensures var r := SweepAll(Sweep(t, [], []), ds, sid, now);
            Lowered(t, r) && TablesInv(r.tables)
  {
    if ds != [] {
      var front, d := ds[..|ds| - 1], ds[|ds| - 1];
      assert d in ds;
      SweepAllInv(t, front, sid, now);
      SweepDecisionInv(t, SweepAll(Sweep(t, [], []), front, sid, now), d, sid, now);
    }
  }

  // ---- Decisions cover ----

  lemma {:induction false} PageTruthMeaning(t: Tables, pages: seq<Page>, assetIds: seq<Id>)
    requires Distinct(assetIds)
    ensures AssetsDistinct(PageTruth(t, pages, assetIds))
    ensures forall p :: p in PageTruth(t, pages, assetIds) <==>
              p.assetId in assetIds && p.route == AssetRoute(t, pages, p.assetId) && p.route != ""
  {
    if assetIds != [] {
      var front, id := assetIds[..|assetIds| - 1], assetIds[|assetIds| - 1];
      PageTruthMeaning(t, pages, front);
      assert assetIds == front + [id];
      var rest := PageTruth(t, pages, front);
      forall i | 0 <= i < |rest| ensures rest[i].assetId != id {
        assert rest[i] in rest;
      }
    }
  }

  lemma CheckTruthMeaning(t: Tables, checkIds: seq<Id>)
    requires Distinct(checkIds) && forall id | id in checkIds :: id in t.checks
    ensures ChecksDistinct(CheckTruth(t, checkIds))
    ensures forall id | id in checkIds :: ActiveCheck(id, t.checks[id].assetId, t.checks[id].dependencies) in CheckTruth(t, checkIds)
    ensures forall c | c in CheckTruth(t, checkIds) ::
              c.checkId in checkIds && c.assetId == t.checks[c.checkId].assetId && c.dependencies == t.checks[c.checkId].dependencies
  {
    forall id | id in checkIds ensures ActiveCheck(id, t.checks[id].assetId, t.checks[id].dependencies) in CheckTruth(t, checkIds) {
      var k :| 0 <= k < |checkIds| && checkIds[k] == id;
      assert CheckTruth(t, checkIds)[k] == ActiveCheck(id, t.checks[id].assetId, t.checks[id].dependencies);
    }
  }

  lemma RetirementsCover(t: Tables, facts: Facts, sid: Id, systemId: Id, gate: Gate)
    requires TablesInv(t)
    ensures forall d | d in RetirementsOf(t, facts, sid, systemId, gate) :: Covers(t, d)
  {
    var assets := ActiveAssets(t, systemId);
    ActiveAssetsKnown(t, systemId);
    ActiveChecksKnown(t, assets);
    PageTruthMeaning(t, facts.pages, assets);
    CheckTruthMeaning(t, ActiveChecks(t, assets));
    var pages, checks := PageTruth(t, facts.pages, assets), CheckTruth(t, ActiveChecks(t, assets));
    var truth := TruthOf(Sort(PagesOf(facts, sid), PageOrder), Sort(MenusOf(facts, sid), DisplayOrder), Sort(ElementsOf(facts, sid), ByPageThenId));
    var ds := RetirementsOf(t, facts, sid, systemId, gate);
    if gate.allow {
      DecisionParts(pages, checks, truth, gate);
      MissingMeaning(pages, truth);
      forall d | d in ds ensures Covers(t, d) {
        var k :| 0 <= k < |ds| && ds[k] == d;
        if d.reason == MissingPage {
          assert k < |MissingAssets(pages, truth)|;
          MissingInService(t, facts.pages, assets, truth, d.assetId);
          MissingCovers(t, assets, d);
        }
      }
    }
  }

  lemma MissingCovers(t: Tables, assets: seq<Id>, d: Decision)
    requires TablesInv(t) && d.assetId in assets && forall id | id in ActiveChecks(t, assets) :: id in t.checks
    requires d.checkIds == ChecksOfAsset(CheckTruth(t, ActiveChecks(t, assets)), d.assetId)
    ensures forall id | CheckOn(t, id) && t.checks[id].assetId == d.assetId :: id in d.checkIds
  {
    var checks := CheckTruth(t, ActiveChecks(t, assets));
    ActiveChecksKnown(t, assets);
    ChecksOfAssetMeaning(checks, d.assetId);
    CheckTruthMeaning(t, ActiveChecks(t, assets));
    forall id | CheckOn(t, id) && t.checks[id].assetId == d.assetId ensures id in d.checkIds {
      assert id in ActiveChecks(t, assets);
      assert ActiveCheck(id, t.checks[id].assetId, t.checks[id].dependencies) in checks;
    }
  }

  lemma MissingInService(t: Tables, pages: seq<Page>, assets: seq<Id>, truth: SnapshotTruth, assetId: Id)
    requires Distinct(assets)
    ensures assetId in MissingAssets(PageTruth(t, pages, assets), truth) ==> assetId in assets
  {
    PageTruthMeaning(t, pages, assets);
    MissingMeaning(PageTruth(t, pages, assets), truth);
  }

  // ---- The whole body ----

  /** How a compile moves checks. The lifecycle law holds afterwards; checks keep asset and code; the ones
      reported as retired are out of service, and include all that have been taken out; the ones
      reported as resumed are exactly those that were out of service and now are in; no check is both. */
  ghost predicate Moves(t: Tables, r: Compiled) {
    && TablesInv(r.tables)
    && (forall id | id in t.checks :: id in r.tables.checks && SameCheck(t.checks[id], r.tables.checks[id]))
    && (forall id :: id in r.resumedChecks <==> id in t.checks && !CheckOn(t, id) && CheckOn(r.tables, id))
    && (forall id | id in r.retiredChecks :: id in r.tables.checks && !CheckOn(r.tables, id))
    && (forall id | id in t.checks && CheckOn(t, id) && !CheckOn(r.tables, id) :: id in r.retiredChecks)
    && (forall id | id in r.resumedChecks :: id !in r.retiredChecks)
  }

  lemma CompileBodyMoves(t: Tables, facts: Facts, sid: Id, row: Snapshot, systemCode: string, now: Time)
    requires TablesInv(t) && GoodSnapshot(row)
    ensures Moves(t, CompileBody(t, facts, sid, row, systemCode, now))
  {
    var pass := Upserted(t, facts, sid, row, systemCode);
    var sweep := Swept(pass.tables, facts, sid, row, GateFor(t, facts, sid, row), now);
    BodyStages(t, facts, sid, row, systemCode, now);
    MovesCompose(t, pass, sweep);
  }

  lemma BodyStages(t: Tables, facts: Facts, sid: Id, row: Snapshot, systemCode: string, now: Time)
    requires TablesInv(t) && GoodSnapshot(row)
    ensures var pass := Upserted(t, facts, sid, row, systemCode);
            var sweep := Swept(pass.tables, facts, sid, row, GateFor(t, facts, sid, row), now);
            && TablesInv(pass.tables) && Upgraded(t, pass)
            && TablesInv(sweep.tables) && Lowered(pass.tables, sweep)
  {
    var pass := Upserted(t, facts, sid, row, systemCode);
    var gate := GateFor(t, facts, sid, row);
    UpsertPagesInv(t, row.systemId, sid, PageInputs(systemCode, facts, sid));
    RetirementsCover(pass.tables, facts, sid, row.systemId, gate);
    SweepAllInv(pass.tables, RetirementsOf(pass.tables, facts, sid, row.systemId, gate), sid, now);
  }

  lemma MovesCompose(t: Tables, pass: Pass, sweep: Sweep)
    requires Upgraded(t, pass) && Lowered(pass.tables, sweep) && TablesInv(sweep.tables)
    ensures Moves(t, Assemble(pass.reactivated, sweep))
  {
    var retired := Dedupe(sweep.checks);
    var resumed := Filter(Dedupe(pass.reactivated), NotIn(retired));
    DedupeMembers(sweep.checks);
    DedupeMembers(pass.reactivated);
    FilterMembers(Dedupe(pass.reactivated), NotIn(retired));
    forall id ensures id in resumed <==> id in t.checks && !CheckOn(t, id) && CheckOn(sweep.tables, id) {
      assert id in resumed <==> id in pass.reactivated && id !in sweep.checks;
      assert id in t.checks ==> id in pass.tables.checks;
    }
  }
}
