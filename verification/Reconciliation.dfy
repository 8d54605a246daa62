/** Retirement decisions: `asset_compiler/reconciliation.py`. */
module Reconciliation {
  import opened Basics
  import opened Sorting
  import opened Text
  import opened Corpus
  import opened ModulePlans

  datatype Dependencies = Dependencies(menuChain: seq<string>, required: seq<Required>)

  /** Text of one crawled element, normalised. */
  datatype ElementRow = ElementRow(kind: string, role: string, text: string)

  datatype SnapshotTruth = SnapshotTruth(
    routes: set<string>, chains: map<string, seq<string>>, elements: map<string, seq<ElementRow>>)

  datatype Gate = Gate(allow: bool, collapse: Option<(nat, nat)>)

  datatype ActivePage = ActivePage(assetId: Id, route: string)

  datatype ActiveCheck = ActiveCheck(checkId: Id, assetId: Id, dependencies: Dependencies)

  datatype Reason = MissingPage | MissingMenuChain | MissingKeyElement

  datatype Decision = Decision(assetId: Id, checkIds: seq<Id>, reason: Reason)

  // ---- Quality gate ----

  /** Scores are real numbers; the collapse ratio is compared by cross-multiplication. */
  function EvaluateGate(crawlType: string, degraded: bool, quality: Option<real>, current: nat, previous: nat): Gate {
    if crawlType != "full" || degraded || quality.None? || quality.value < 0.7 then Gate(false, None)
    else if previous == 0 then Gate(true, None)
    else if 2 * current < previous then Gate(false, Some((current, previous)))
    else Gate(true, None)
  }

  // ---- Snapshot truth ----

  function RouteIndex(pages: seq<Page>): map<Id, string> {
    if pages == [] then map[]
    else RouteIndex(pages[..|pages| - 1])[pages[|pages| - 1].id := Strip(pages[|pages| - 1].route)]
  }

  function RouteAt(index: map<Id, string>, pageId: Option<Id>): string {
    if pageId.Some? && pageId.value in index then index[pageId.value] else ""
  }

  /** Menus by page, menus without a page last, each page's menus in display order. */
  predicate TruthOrder(a: MenuNode, b: MenuNode) {
    if a.pageId.None? != b.pageId.None? then b.pageId.None?
    else if a.pageId != b.pageId then a.pageId.value <= b.pageId.value
    else DisplayOrder(a, b)
  }

  function Extended<T>(table: map<string, seq<T>>, key: string, value: T): map<string, seq<T>> {
    table[key := At(table, key) + [value]]
  }

  function At<T>(table: map<string, seq<T>>, key: string): seq<T> {
    if key in table then table[key] else []
  }

  predicate Charted(index: map<Id, string>, m: MenuNode) {
    RouteAt(index, m.pageId) != "" && Strip(m.name) != ""
  }

  function Chains(index: map<Id, string>, menus: seq<MenuNode>): map<string, seq<string>> {
    if menus == [] then map[]
    else
      var m := menus[|menus| - 1];
      var rest := Chains(index, menus[..|menus| - 1]);
      if Charted(index, m) then Extended(rest, RouteAt(index, m.pageId), Strip(m.name)) else rest
  }

  function RowOf(e: PageElement): ElementRow {
    ElementRow(Strip(e.kind), Normalized(e.role), Normalized(e.text))
  }

  function Rows(index: map<Id, string>, elements: seq<PageElement>): map<string, seq<ElementRow>> {
    if elements == [] then map[]
    else
      var e := elements[|elements| - 1];
      var rest := Rows(index, elements[..|elements| - 1]);
      if RouteAt(index, Some(e.pageId)) != "" then Extended(rest, RouteAt(index, Some(e.pageId)), RowOf(e)) else rest
  }

  function TruthOf(pages: seq<Page>, menus: seq<MenuNode>, elements: seq<PageElement>): SnapshotTruth {
    var index := RouteIndex(pages);
    SnapshotTruth(index.Values - {""}, Chains(index, Sort(menus, TruthOrder)), Rows(index, elements))
  }

  method BuildCurrentSnapshotTruth(pages: seq<Page>, menus: seq<MenuNode>, elements: seq<PageElement>) returns (r: SnapshotTruth)
    ensures r == TruthOf(pages, menus, elements)
  {
    var index: map<Id, string> := map[];
    for i := 0 to |pages|
      invariant index == RouteIndex(pages[..i])
    {
      TakeTake(pages, i);
      index := index[pages[i].id := Strip(pages[i].route)];
    }
    assert pages[..|pages|] == pages;
    var sorted := Sort(menus, TruthOrder);
    var chains: map<string, seq<string>> := map[];
    for i := 0 to |sorted|
      invariant chains == Chains(index, sorted[..i])
    {
      TakeTake(sorted, i);
      var route, name := RouteAt(index, sorted[i].pageId), Strip(sorted[i].name);
      if route == "" || name == "" { continue; }
      chains := Extended(chains, route, name);
    }
    assert sorted[..|sorted|] == sorted;
    var rows: map<string, seq<ElementRow>> := map[];
    for i := 0 to |elements|
      invariant rows == Rows(index, elements[..i])
    {
      TakeTake(elements, i);
      var route := RouteAt(index, Some(elements[i].pageId));
      if route == "" { continue; }
      rows := Extended(rows, route, RowOf(elements[i]));
    }
    assert elements[..|elements|] == elements;
    r := SnapshotTruth(index.Values - {""}, chains, rows);
  }

  // ---- Dependencies of a check ----

  const TABLE_REQUIRED := Required("table", "table", "")

  const DIALOG_REQUIRED := Required("dialog", "dialog", "")

  predicate NonEmpty(text: string) {
    text != ""
  }

  function CleanLabels(labels: seq<string>): seq<string> {
    Filter(Map(labels, Strip), NonEmpty)
  }

  function CleanRequired(r: Required): Required {
    Required(Strip(r.kind), Strip(r.role), Strip(r.text))
  }

  predicate Demanding(r: Required) {
    r.kind != "" || r.role != "" || r.text != ""
  }

  function CleanRequirements(required: seq<Required>): seq<Required> {
    Filter(Map(required, CleanRequired), Demanding)
  }

  function StepLabels(step: Step): seq<string> {
    var v := if "menu_chain" in step.params then step.params["menu_chain"] else Null;
    if v.Labels? then CleanLabels(v.labels) else []
  }

  /** The last navigation step decides the chain. */
  function ChainOf(steps: seq<Step>): seq<string> {
    if steps == [] then []
    else if Strip(steps[|steps| - 1].name) == NAVIGATE then StepLabels(steps[|steps| - 1])
    else ChainOf(steps[..|steps| - 1])
  }

  function DerivedFromSteps(steps: seq<Step>): seq<Required> {
    if steps == [] then []
    else
      DerivedFromSteps(steps[..|steps| - 1])
      + if Strip(steps[|steps| - 1].name) == TABLE_VISIBLE then [TABLE_REQUIRED] else []
  }

  function DerivedFromAssertion(a: Assertion): seq<Required> {
    if Strip(a.name) == "table_visible" then [TABLE_REQUIRED]
    else if Strip(a.name) == "modal_visible" then [DIALOG_REQUIRED]
    else []
  }

  function BlockingDependency(steps: seq<Step>, assertion: Assertion): Dependencies {
    Dependencies(
      ChainOf(steps),
      Dedupe(CleanRequirements(assertion.required) + DerivedFromSteps(steps) + DerivedFromAssertion(assertion)))
  }

  method BuildBlockingDependency(steps: seq<Step>, assertion: Assertion) returns (r: Dependencies)
    ensures r == BlockingDependency(steps, assertion)
  {
    var chain: seq<string> := [];
    var derived: seq<Required> := [];
    for i := 0 to |steps|
      invariant chain == ChainOf(steps[..i]) && derived == DerivedFromSteps(steps[..i])
    {
      TakeTake(steps, i);
      var name := Strip(steps[i].name);
      if name == NAVIGATE { chain := StepLabels(steps[i]); }
      if name == TABLE_VISIBLE { derived := derived + [TABLE_REQUIRED]; }
    }
    assert steps[..|steps|] == steps;
    var all := CleanRequirements(assertion.required) + derived + DerivedFromAssertion(assertion);
    var required: seq<Required> := [];
    for i := 0 to |all|
      invariant required == Dedupe(all[..i])
    {
      TakeTake(all, i);
      if all[i] in required { continue; }
      required := required + [all[i]];
    }
    assert all[..|all|] == all;
    r := Dependencies(chain, required);
  }

  function NormalDependencies(d: Dependencies): Dependencies {
    Dependencies(CleanLabels(d.menuChain), CleanRequirements(d.required))
  }

  // ---- Satisfaction ----

  /** The scan: walk the current labels once, matching expected labels as early as possible. */
  predicate Scan(expected: seq<string>, current: seq<string>) {
    if expected == [] then true
    else if current == [] then false
    else Scan(if current[0] == expected[0] then expected[1..] else expected, current[1..])
  }

  method MenuChainSatisfied(expected: seq<string>, current: seq<string>) returns (ok: bool)
    ensures ok == Scan(expected, current)
    ensures ok <==> Subsequence(expected, current)
  {
    ScanIsSubsequence(expected, current);
    if expected == [] { return true; }
    if current == [] { return false; }
    var index := 0;
    for i := 0 to |current|
      invariant 0 <= index < |expected|
      invariant Scan(expected, current) == Scan(expected[index..], current[i..])
    {
      assert current[i..][1..] == current[i + 1..] && expected[index..][1..] == expected[index + 1..];
      if current[i] == expected[index] {
        index := index + 1;
        if index == |expected| { return true; }
      }
    }
    ok := false;
  }

  /** The greedy scan decides the subsequence relation exactly. */
  lemma ScanIsSubsequence(expected: seq<string>, current: seq<string>)
    ensures Scan(expected, current) <==> Subsequence(expected, current)
  {
    if Scan(expected, current) {
      var at := ScanEmbeds(expected, current);
    }
    if Subsequence(expected, current) {
      var at :| Embeds(expected, current, at);
      EmbeddingScans(expected, current, at);
    }
  }

  function Shift(at: seq<nat>): seq<nat> {
    Map(at, (k: nat) => k + 1)
  }

  lemma {:induction false} ScanEmbeds(expected: seq<string>, current: seq<string>) returns (at: seq<nat>)
    requires Scan(expected, current)
    ensures Embeds(expected, current, at)
  {
    if expected == [] {
      at := [];
    } else if current[0] == expected[0] {
      at := ScanEmbeds(expected[1..], current[1..]);
      at := [0] + Shift(at);
    } else {
      at := ScanEmbeds(expected, current[1..]);
      at := Shift(at);
    }
  }

  lemma {:induction false} EmbeddingScans(expected: seq<string>, current: seq<string>, at: seq<nat>)
    requires Embeds(expected, current, at)
    ensures Scan(expected, current)
  {
    if expected != [] {
      assert current[at[0]] == expected[0];
      if current[0] == expected[0] {
        EmbeddingScans(expected[1..], current[1..], seq(|at| - 1, i requires 0 <= i < |at| - 1 => Below(at, i + 1)));
      } else {
        EmbeddingScans(expected, current[1..], seq(|at|, i requires 0 <= i < |at| => Below(at, i)));
      }
    }
  }

  function Below(at: seq<nat>, i: nat): nat
    requires i < |at|
  {
    if at[i] == 0 then 0 else at[i] - 1
  }

  predicate Matches(r: Required, row: ElementRow) {
    && (Strip(r.kind) == "" || row.kind == Strip(r.kind))
    && (Strip(r.role) == "" || row.role == Strip(r.role))
    && (Strip(r.text) == "" || row.text == Strip(r.text))
  }

  predicate RequiredSatisfied(required: seq<Required>, rows: seq<ElementRow>) {
    forall r | r in required :: exists row | row in rows :: Matches(r, row)
  }

  // ---- Decisions ----

  function RoutesByAsset(pages: seq<ActivePage>): map<Id, string> {
    if pages == [] then map[]
    else RoutesByAsset(pages[..|pages| - 1])[pages[|pages| - 1].assetId := pages[|pages| - 1].route]
  }

  function IsMissing(truth: SnapshotTruth): ActivePage -> bool {
    (p: ActivePage) => p.route != "" && p.route !in truth.routes
  }

  function AssetOf(p: ActivePage): Id { p.assetId }

  function MissingAssets(pages: seq<ActivePage>, truth: SnapshotTruth): seq<Id> {
    Map(Filter(pages, IsMissing(truth)), AssetOf)
  }

  function CheckOf(assetId: Id): ActiveCheck -> bool {
    (c: ActiveCheck) => c.assetId == assetId
  }

  function IdOf(c: ActiveCheck): Id { c.checkId }

  function ChecksOfAsset(checks: seq<ActiveCheck>, assetId: Id): seq<Id> {
    Map(Filter(checks, CheckOf(assetId)), IdOf)
  }

  /** Why a check on a present page must go, if it must: the chain first, then the elements. */
  function PresentReason(c: ActiveCheck, route: string, truth: SnapshotTruth): Option<Reason> {
    var d := NormalDependencies(c.dependencies);
    if d.menuChain != [] && !Scan(d.menuChain, At(truth.chains, route)) then Some(MissingMenuChain)
    else if d.required != [] && !RequiredSatisfied(d.required, At(truth.elements, route)) then Some(MissingKeyElement)
    else None
  }

  function RouteOfAsset(routes: map<Id, string>, assetId: Id): string {
    if assetId in routes then routes[assetId] else ""
  }

  function GroupReason(c: ActiveCheck, routes: map<Id, string>, missing: set<Id>, truth: SnapshotTruth): Option<Reason> {
    var route := RouteOfAsset(routes, c.assetId);
    if c.assetId in missing || route == "" || route !in truth.routes then None else PresentReason(c, route, truth)
  }

  /** Group a check under its asset and reason, groups in order of first use. */
  function AddToGroups(groups: seq<Decision>, assetId: Id, reason: Reason, checkId: Id): seq<Decision> {
    if groups == [] then [Decision(assetId, [checkId], reason)]
    else if groups[0].assetId == assetId && groups[0].reason == reason then
      [groups[0].(checkIds := groups[0].checkIds + [checkId])] + groups[1..]
    else [groups[0]] + AddToGroups(groups[1..], assetId, reason, checkId)
  }

  function Groups(checks: seq<ActiveCheck>, routes: map<Id, string>, missing: set<Id>, truth: SnapshotTruth): seq<Decision> {
    if checks == [] then []
    else
      var c := checks[|checks| - 1];
      var rest := Groups(checks[..|checks| - 1], routes, missing, truth);
      match GroupReason(c, routes, missing, truth)
      case None => rest
      case Some(reason) => AddToGroups(rest, c.assetId, reason, c.checkId)
  }

  predicate IdLe(a: Id, b: Id) { a <= b }

  function SortedIds(ids: seq<Id>): seq<Id> {
    Ascending(ToSet(ids), IdLe)
  }

  function Finished(d: Decision): Decision {
    d.(checkIds := SortedIds(d.checkIds))
  }

  function MissingDecision(checks: seq<ActiveCheck>): Id -> Decision {
    (assetId: Id) => Decision(assetId, ChecksOfAsset(checks, assetId), MissingPage)
  }

  function Decisions(pages: seq<ActivePage>, checks: seq<ActiveCheck>, truth: SnapshotTruth, gate: Gate): seq<Decision> {
    if !gate.allow then []
    else
      var missing := MissingAssets(pages, truth);
      Map(missing, MissingDecision(checks))
      + Map(Groups(checks, RoutesByAsset(pages), ToSet(missing), truth), Finished)
  }

  method ReconcileRetirementDecisions(
    pages: seq<ActivePage>, checks: seq<ActiveCheck>, truth: SnapshotTruth, gate: Gate) returns (r: seq<Decision>)
    ensures r == Decisions(pages, checks, truth, gate)
  {
    if !gate.allow { return []; }
    r := [];
    var routes: map<Id, string> := map[];
    for i := 0 to |pages|
      invariant routes == RoutesByAsset(pages[..i])
    {
      TakeTake(pages, i);
      routes := routes[pages[i].assetId := pages[i].route];
    }
    assert pages[..|pages|] == pages;
    var missing := MissingAssets(pages, truth);
    for i := 0 to |missing|
      invariant r == Map(missing[..i], MissingDecision(checks))
    {
      TakeTake(missing, i);
      r := r + [Decision(missing[i], ChecksOfAsset(checks, missing[i]), MissingPage)];
    }
    assert missing[..|missing|] == missing;
    var groups: seq<Decision> := [];
    for i := 0 to |checks|
      invariant groups == Groups(checks[..i], routes, ToSet(missing), truth)
    {
      TakeTake(checks, i);
      var c := checks[i];
      if c.assetId in missing { continue; }
      var route := RouteOfAsset(routes, c.assetId);
      if route == "" || route !in truth.routes { continue; }
      var d := NormalDependencies(c.dependencies);
      var chainOk := MenuChainSatisfied(d.menuChain, At(truth.chains, route));
      if d.menuChain != [] && !chainOk {
        groups := AddToGroups(groups, c.assetId, MissingMenuChain, c.checkId);
      } else if d.required != [] && !RequiredSatisfied(d.required, At(truth.elements, route)) {
        groups := AddToGroups(groups, c.assetId, MissingKeyElement, c.checkId);
      }
    }
    assert checks[..|checks|] == checks;
    r := r + Map(groups, Finished);
  }
}
