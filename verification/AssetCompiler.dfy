/** The compile step: assets and checks are created, updated, reactivated and retired from the active
    snapshot: `asset_compiler/service.py`. Functions here are the specification; the class `Store`
    carries the same steps out in place. */
module AssetCompiler {
  import opened Basics
  import opened Sorting
  import opened Text
  import opened Corpus
  import opened ModulePlans
  import opened Reconciliation

  datatype Lifecycle = InService | RetiredMissing | RetiredReplaced | RetiredManual

  datatype PageAsset = PageAsset(
    systemId: Id, key: string, pageId: Id, compiledFrom: Id,
    lifecycle: Lifecycle, retiredReason: Option<string>, retiredAt: Option<Time>, retiredBy: Option<Id>)

  datatype PageCheck = PageCheck(
    assetId: Id, code: string, goal: string, dependencies: Dependencies,
    lifecycle: Lifecycle, retiredReason: Option<string>, retiredAt: Option<Time>, retiredBy: Option<Id>)

  // ---- Names derived from a page ----

  function Segments(route: string, current: string): seq<string> {
    if route == "" then (if current == "" then [] else [current])
    else if route[0] == '/' then (if current == "" then [] else [current]) + Segments(route[1..], "")
    else Segments(route[1..], current + [route[0]])
  }

  function ReplaceChar(text: string, from: char, to: char): string {
    Map(text, (c: char) => if c == from then to else c)
  }

  function AssetKey(systemCode: string, route: string, title: Option<string>): string {
    var segments := Segments(route, "");
    if segments != [] then ReplaceChar(Join([Lower(systemCode)] + segments, "."), '-', '_')
    else
      var fallback := if title.Some? && title.value != "" then title.value else "page";
      Join([Lower(systemCode), Lower(ReplaceChar(Strip(fallback), ' ', '_'))], ".")
  }

  function DefaultState(route: string): string {
    var segments := Segments(route, "");
    (if segments == [] then "page" else segments[|segments| - 1]) + ":default"
  }

  // ---- What a page contributes ----

  datatype CompiledCheck = CompiledCheck(code: string, goal: string, dependencies: Dependencies)

  datatype PageInput = PageInput(page: Page, key: string, checks: seq<CompiledCheck>)

  function MenuLabels(facts: Facts, sid: Id, pageId: Id): seq<string> {
    Filter(Map(Filter(Sort(MenusOf(facts, sid), DisplayOrder), OnPage(pageId)), NameOf), NonEmpty)
  }

  predicate ByPageThenId(a: PageElement, b: PageElement) {
    if a.pageId != b.pageId then a.pageId < b.pageId else a.id <= b.id
  }

  function PageElements(facts: Facts, sid: Id, pageId: Id): seq<PageElement> {
    Filter(Sort(ElementsOf(facts, sid), ByPageThenId), ElementOn(pageId))
  }

  function StateOf(defaultState: string): PageElement -> RepresentativeState {
    (e: PageElement) =>
      RepresentativeState(
        if Normalized(e.stateSignature) == "" then defaultState else Normalized(e.stateSignature), Normalized(e.entryType))
  }

  predicate Representative(s: RepresentativeState) {
    s.signature != "" && s.entryType != ""
  }

  function RepresentativeStates(elements: seq<PageElement>, defaultState: string): seq<RepresentativeState> {
    Dedupe(Filter(Map(elements, StateOf(defaultState)), Representative))
  }

  function DefinitionsOf(facts: Facts, sid: Id, page: Page): seq<CheckDefinition> {
    var elements := PageElements(facts, sid, page.id);
    StandardChecks(
      exists e | e in elements :: Strip(e.kind) == "table",
      (exists e | e in elements :: SuggestsCreate(Normalized(e.text))) || SuggestsCreate(Normalized(page.summary)),
      RepresentativeStates(elements, DefaultState(page.route)),
      DefaultState(page.route))
  }

  function ContextOf(facts: Facts, sid: Id, page: Page): PageContext {
    PageContext(
      MenuLabels(facts, sid, page.id), page.route, DefaultState(page.route),
      exists e | e in PageElements(facts, sid, page.id) :: Strip(e.kind) == "table", "")
  }

  /** A check's dependencies go through its module plan. */
  function CompileCheck(ctx: PageContext, d: CheckDefinition): CompiledCheck {
    var state := if d.state == "" then ctx.defaultState else d.state;
    CompiledCheck(d.code, d.goal, BlockingDependency(Plan(d.code, ctx, state, Bundle([])), d.assertion))
  }

  function CompileWith(ctx: PageContext): CheckDefinition -> CompiledCheck {
    (d: CheckDefinition) => CompileCheck(ctx, d)
  }

  function InputOf(systemCode: string, facts: Facts, sid: Id, page: Page): PageInput {
    PageInput(
      page, AssetKey(systemCode, page.route, page.title),
      Map(DefinitionsOf(facts, sid, page), CompileWith(ContextOf(facts, sid, page))))
  }

  function InputWith(systemCode: string, facts: Facts, sid: Id): Page -> PageInput {
    (p: Page) => InputOf(systemCode, facts, sid, p)
  }

  function PageInputs(systemCode: string, facts: Facts, sid: Id): seq<PageInput> {
    Map(Sort(PagesOf(facts, sid), PageOrder), InputWith(systemCode, facts, sid))
  }

  // ---- Upserts ----

  datatype Tables = Tables(assets: map<Id, PageAsset>, checks: map<Id, PageCheck>, nextId: Id)

  /** Tables and the checks brought back into service so far. */
  datatype Pass = Pass(tables: Tables, reactivated: seq<Id>)

  lemma IdOrder()
    ensures TotalOrder(IdLe)
  {
  }

  function First(ids: set<Id>): Option<Id> {
    IdOrder();
    var ordered := Ascending(ids, IdLe);
    if ordered == [] then None else Some(ordered[0])
  }

  lemma FirstMeaning(ids: set<Id>)
    ensures First(ids).None? <==> ids == {}
    ensures First(ids).Some? ==> First(ids).value in ids && forall id | id in ids :: First(ids).value <= id
  {
    IdOrder();
    AscendingMembers(ids, IdLe);
    var ordered := Ascending(ids, IdLe);
    if ordered != [] {
      assert ordered[0] in ordered;
      forall id | id in ids ensures ordered[0] <= id {
        var k :| 0 <= k < |ordered| && ordered[k] == id;
        assert k > 0 ==> IdLe(ordered[0], ordered[k]);
      }
    }
  }

  function FindAsset(assets: map<Id, PageAsset>, systemId: Id, key: string): Option<Id> {
    First(set id | id in assets && assets[id].systemId == systemId && assets[id].key == key)
  }

  function FindCheck(checks: map<Id, PageCheck>, assetId: Id, code: string): Option<Id> {
    First(set id | id in checks && checks[id].assetId == assetId && checks[id].code == code)
  }

  function ReactivateAsset(a: PageAsset): PageAsset {
    a.(lifecycle := InService, retiredReason := None, retiredAt := None, retiredBy := None)
  }

  function ReactivateCheck(c: PageCheck): PageCheck {
    c.(lifecycle := InService, retiredReason := None, retiredAt := None, retiredBy := None)
  }

  /** `good` is whether the snapshot is full, not degraded and scores at least 0.7. */
  function UpdatedAsset(a: PageAsset, pageId: Id, sid: Id, good: bool): PageAsset {
    var moved := a.(pageId := pageId, compiledFrom := sid);
    if good && moved.lifecycle != InService then ReactivateAsset(moved) else moved
  }

  function UpsertAsset(t: Tables, systemId: Id, sid: Id, good: bool, input: PageInput): (Tables, Id) {
    var found := FindAsset(t.assets, systemId, input.key);
    FirstMeaning(set id | id in t.assets && t.assets[id].systemId == systemId && t.assets[id].key == input.key);
    match found
    case None =>
      (t.(assets := t.assets[t.nextId := PageAsset(systemId, input.key, input.page.id, sid, InService, None, None, None)],
          nextId := t.nextId + 1), t.nextId)
    case Some(id) =>
      (t.(assets := t.assets[id := UpdatedAsset(t.assets[id], input.page.id, sid, good)]), id)
  }

  function UpdatedCheck(c: PageCheck, compiled: CompiledCheck, good: bool): PageCheck {
    var moved := c.(goal := compiled.goal, dependencies := compiled.dependencies);
    if good && moved.lifecycle != InService then ReactivateCheck(moved) else moved
  }

  function UpsertCheck(p: Pass, assetId: Id, good: bool, compiled: CompiledCheck): Pass {
    var t := p.tables;
    FirstMeaning(set id | id in t.checks && t.checks[id].assetId == assetId && t.checks[id].code == compiled.code);
    match FindCheck(t.checks, assetId, compiled.code)
    case None =>
      p.(tables := t.(
         checks := t.checks[t.nextId := PageCheck(assetId, compiled.code, compiled.goal, compiled.dependencies, InService, None, None, None)],
         nextId := t.nextId + 1))
    case Some(id) =>
      Pass(t.(checks := t.checks[id := UpdatedCheck(t.checks[id], compiled, good)]),
           if good && t.checks[id].lifecycle != InService then p.reactivated + [id] else p.reactivated)
  }

  function UpsertChecks(p: Pass, assetId: Id, good: bool, compiled: seq<CompiledCheck>): Pass {
    if compiled == [] then p
    else UpsertCheck(UpsertChecks(p, assetId, good, compiled[..|compiled| - 1]), assetId, good, compiled[|compiled| - 1])
  }

  function UpsertPage(p: Pass, systemId: Id, sid: Id, good: bool, input: PageInput): Pass {
    var (t, assetId) := UpsertAsset(p.tables, systemId, sid, good, input);
    UpsertChecks(p.(tables := t), assetId, good, input.checks)
  }

  function UpsertPages(p: Pass, systemId: Id, sid: Id, good: bool, inputs: seq<PageInput>): Pass {
    if inputs == [] then p
    else UpsertPage(UpsertPages(p, systemId, sid, good, inputs[..|inputs| - 1]), systemId, sid, good, inputs[|inputs| - 1])
  }

  // ---- Retirement ----

  function AssetsInService(t: Tables, systemId: Id): set<Id> {
    set id | id in t.assets && t.assets[id].systemId == systemId && t.assets[id].lifecycle == InService
  }

  function ChecksInService(t: Tables, assetIds: seq<Id>): set<Id> {
    set id | id in t.checks && t.checks[id].assetId in assetIds && t.checks[id].lifecycle == InService
  }

  function ActiveAssets(t: Tables, systemId: Id): seq<Id> {
    IdOrder();
    Ascending(AssetsInService(t, systemId), IdLe)
  }

  function ActiveChecks(t: Tables, assetIds: seq<Id>): seq<Id> {
    IdOrder();
    Ascending(ChecksInService(t, assetIds), IdLe)
  }

  function FindPage(pages: seq<Page>, id: Id): Option<Page> {
    if pages == [] then None
    else if pages[|pages| - 1].id == id then Some(pages[|pages| - 1])
    else FindPage(pages[..|pages| - 1], id)
  }

  /** The normalised route of an asset's page; blank when there is none. */
  function AssetRoute(t: Tables, pages: seq<Page>, assetId: Id): string {
    if assetId !in t.assets then ""
    else
      match FindPage(pages, t.assets[assetId].pageId)
      case None => ""
      case Some(page) => Strip(page.route)
  }

  function PageTruth(t: Tables, pages: seq<Page>, assetIds: seq<Id>): seq<ActivePage> {
    if assetIds == [] then []
    else
      var id := assetIds[|assetIds| - 1];
      PageTruth(t, pages, assetIds[..|assetIds| - 1])
      + if AssetRoute(t, pages, id) == "" then [] else [ActivePage(id, AssetRoute(t, pages, id))]
  }

  function CheckTruth(t: Tables, checkIds: seq<Id>): seq<ActiveCheck>
    requires forall id | id in checkIds :: id in t.checks
  {
    seq(|checkIds|, i requires 0 <= i < |checkIds| =>
      assert checkIds[i] in checkIds;
      ActiveCheck(checkIds[i], t.checks[checkIds[i]].assetId, t.checks[checkIds[i]].dependencies))
  }

  /** The distinct routes of the system's active assets. */
  function CountedRoutes(t: Tables, pages: seq<Page>, systemId: Id): set<string> {
    var assets := ActiveAssets(t, systemId);
    set id | id in assets && id in t.assets && FindPage(pages, t.assets[id].pageId).Some? :: AssetRoute(t, pages, id)
  }

  /** How many there were before this compile. */
  function PreviousPageCount(t: Tables, pages: seq<Page>, systemId: Id): nat {
    |CountedRoutes(t, pages, systemId)|
  }

  lemma ActiveChecksKnown(t: Tables, assetIds: seq<Id>)
    ensures forall id :: id in ActiveChecks(t, assetIds) <==>
              id in t.checks && t.checks[id].assetId in assetIds && t.checks[id].lifecycle == InService
    ensures Distinct(ActiveChecks(t, assetIds))
  {
    IdOrder();
    AscendingMembers(ChecksInService(t, assetIds), IdLe);
  }

  lemma ActiveAssetsKnown(t: Tables, systemId: Id)
    ensures forall id :: id in ActiveAssets(t, systemId) <==>
              id in t.assets && t.assets[id].systemId == systemId && t.assets[id].lifecycle == InService
    ensures Distinct(ActiveAssets(t, systemId))
  {
    IdOrder();
    AscendingMembers(AssetsInService(t, systemId), IdLe);
  }

  function RetirementsOf(t: Tables, facts: Facts, sid: Id, systemId: Id, gate: Gate): seq<Decision> {
    var assets := ActiveAssets(t, systemId);
    ActiveChecksKnown(t, assets);
    Decisions(
      PageTruth(t, facts.pages, assets), CheckTruth(t, ActiveChecks(t, assets)),
      TruthOf(Sort(PagesOf(facts, sid), PageOrder), Sort(MenusOf(facts, sid), DisplayOrder), Sort(ElementsOf(facts, sid), ByPageThenId)),
      gate)
  }

  function ReasonText(r: Reason): string {
    match r
    case MissingPage => "missing_page"
    case MissingMenuChain => "missing_menu_chain"
    case MissingKeyElement => "missing_key_element"
  }

  function RetireAsset(a: PageAsset, sid: Id, now: Time): PageAsset {
    a.(lifecycle := RetiredMissing, retiredReason := Some("missing_page"), retiredAt := Some(now), retiredBy := Some(sid))
  }

  function RetireCheck(c: PageCheck, reason: Reason, sid: Id, now: Time): PageCheck {
    c.(lifecycle := RetiredMissing, retiredReason := Some(ReasonText(reason)), retiredAt := Some(now), retiredBy := Some(sid))
  }

  /** Tables, retired assets and retired checks so far. */
  datatype Sweep = Sweep(tables: Tables, assets: seq<Id>, checks: seq<Id>)

  function SweepCheck(s: Sweep, reason: Reason, sid: Id, now: Time, id: Id): Sweep {
    var t := s.tables;
    if id !in t.checks || t.checks[id].lifecycle != InService then s
    else s.(tables := t.(checks := t.checks[id := RetireCheck(t.checks[id], reason, sid, now)]), checks := s.checks + [id])
  }

  function SweepChecks(s: Sweep, reason: Reason, sid: Id, now: Time, ids: seq<Id>): Sweep {
    if ids == [] then s
    else SweepCheck(SweepChecks(s, reason, sid, now, ids[..|ids| - 1]), reason, sid, now, ids[|ids| - 1])
  }

  function SweepAsset(s: Sweep, d: Decision, sid: Id, now: Time): Sweep {
    var t := s.tables;
    if d.reason == MissingPage && d.assetId in t.assets && t.assets[d.assetId].lifecycle == InService then
      s.(tables := t.(assets := t.assets[d.assetId := RetireAsset(t.assets[d.assetId], sid, now)]), assets := s.assets + [d.assetId])
    else s
  }

  function SweepDecision(s: Sweep, d: Decision, sid: Id, now: Time): Sweep {
    SweepChecks(SweepAsset(s, d, sid, now), d.reason, sid, now, d.checkIds)
  }

  function SweepAll(s: Sweep, ds: seq<Decision>, sid: Id, now: Time): Sweep {
    if ds == [] then s
    else SweepDecision(SweepAll(s, ds[..|ds| - 1], sid, now), ds[|ds| - 1], sid, now)
  }

  // ---- The whole body ----

  predicate GoodSnapshot(s: Snapshot) {
    s.crawlType == "full" && !s.degraded && s.quality.Some? && s.quality.value >= 0.7
  }

  /** What a compile has done to the tables and which checks it took out of or back into service. */
  datatype Compiled = Compiled(tables: Tables, retiredAssets: seq<Id>, retiredChecks: seq<Id>, resumedChecks: seq<Id>)

  function GateFor(t: Tables, facts: Facts, sid: Id, row: Snapshot): Gate {
    EvaluateGate(
      row.crawlType, row.degraded, row.quality, |RouteIndex(Sort(PagesOf(facts, sid), PageOrder)).Values - {""}|,
      PreviousPageCount(t, facts.pages, row.systemId))
  }

  function Upserted(t: Tables, facts: Facts, sid: Id, row: Snapshot, systemCode: string): Pass {
    UpsertPages(Pass(t, []), row.systemId, sid, GoodSnapshot(row), PageInputs(systemCode, facts, sid))
  }

  function Swept(t: Tables, facts: Facts, sid: Id, row: Snapshot, gate: Gate, now: Time): Sweep {
    SweepAll(Sweep(t, [], []), RetirementsOf(t, facts, sid, row.systemId, gate), sid, now)
  }

  function NotIn(ids: seq<Id>): Id -> bool {
    (id: Id) => id !in ids
  }

  function CompileBody(t: Tables, facts: Facts, sid: Id, row: Snapshot, systemCode: string, now: Time): Compiled {
    var pass := Upserted(t, facts, sid, row, systemCode);
    Assemble(pass.reactivated, Swept(pass.tables, facts, sid, row, GateFor(t, facts, sid, row), now))
  }

  /** A check both brought back and retired in the same compile counts as retired only. */
  function Assemble(reactivated: seq<Id>, sweep: Sweep): Compiled {
    Compiled(sweep.tables, Dedupe(sweep.assets), Dedupe(sweep.checks), Filter(Dedupe(reactivated), NotIn(Dedupe(sweep.checks))))
  }
}
