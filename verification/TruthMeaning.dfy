/** What the current snapshot's truth holds, and when a check has lost its menu chain or an element, read
    off the fact rows. */
module TruthMeaning {
  import opened Basics
  import opened Sorting
  import opened Text
  import opened Corpus
  import opened ModulePlans
  import opened Reconciliation
  import opened RetirementLaws
  import opened AssetCompiler
  import opened GateLaws
  import opened FreshCheckLaws

  // ---- Rows of a route ----

  /** A page of the snapshot with this route. */
  ghost predicate PageAt(facts: Facts, sid: Id, route: string, pageId: Id) {
    exists p :: p in facts.pages && p.snapshotId == sid && p.id == pageId && Strip(p.route) == route
  }

  ghost predicate MenuAt(facts: Facts, sid: Id, route: string, m: MenuNode) {
    m in facts.menus && m.snapshotId == sid && Strip(m.name) != "" && m.pageId.Some? && PageAt(facts, sid, route, m.pageId.value)
  }

  ghost predicate ElementAt(facts: Facts, sid: Id, route: string, e: PageElement) {
    e in facts.elements && e.snapshotId == sid && PageAt(facts, sid, route, e.pageId)
  }

  /** By page, then by depth, sort order and identifier. */
  predicate Before(a: MenuNode, b: MenuNode)
    requires a.pageId.Some? && b.pageId.Some?
  {
    || a.pageId.value < b.pageId.value
    || (a.pageId == b.pageId &&
        (a.depth < b.depth || (a.depth == b.depth && (a.sortOrder < b.sortOrder || (a.sortOrder == b.sortOrder && a.id < b.id)))))
  }

  /** The labelled menus on the route's pages, each once, in order. */
  ghost predicate RouteMenus(facts: Facts, sid: Id, route: string, rows: seq<MenuNode>) {
    && (forall m :: m in rows <==> MenuAt(facts, sid, route, m))
    && (forall i, j | 0 <= i < j < |rows| :: rows[i].pageId.Some? && rows[j].pageId.Some? && Before(rows[i], rows[j]))
  }

  function LabelOf(m: MenuNode): string { Strip(m.name) }

  // ---- The route index ----

  lemma IndexAt(facts: Facts, sid: Id, pageId: Id, route: string)
    requires KeysDistinct(facts) && route != ""
    ensures RouteAt(RouteIndex(Sort(PagesOf(facts, sid), PageOrder)), Some(pageId)) == route <==> PageAt(facts, sid, route, pageId)
  {
    var pages := Sort(PagesOf(facts, sid), PageOrder);
    SortMembers(PagesOf(facts, sid), PageOrder);
    FilterMembers(facts.pages, PageIn(sid));
    KeysIdentify(facts);
    if pageId in RouteIndex(pages) {
      var p := RouteIndexPage(pages, pageId);
    }
    if p :| p in facts.pages && p.snapshotId == sid && p.id == pageId && Strip(p.route) == route {
      RouteIndexMeaning(pages, p);
    }
  }

  // ---- Chains ----

  function Charts(index: map<Id, string>, route: string): MenuNode -> bool {
    (m: MenuNode) => Charted(index, m) && RouteAt(index, m.pageId) == route
  }

  lemma {:induction false} LabelsOfRoute(index: map<Id, string>, menus: seq<MenuNode>, route: string)
    ensures RouteLabels(index, menus, route) == Map(Filter(menus, Charts(index, route)), LabelOf)
  {
    if menus != [] {
      var front, m := menus[..|menus| - 1], menus[|menus| - 1];
      LabelsOfRoute(index, front, route);
      var kept := Filter(front, Charts(index, route));
      assert Map(kept + [m], LabelOf) == Map(kept, LabelOf) + [LabelOf(m)];
    }
  }

  function SnapshotMenus(facts: Facts, sid: Id): seq<MenuNode> {
    Sort(Sort(MenusOf(facts, sid), DisplayOrder), TruthOrder)
  }

  lemma SnapshotMenusListed(facts: Facts, sid: Id)
    requires KeysDistinct(facts)
    ensures Distinct(SnapshotMenus(facts, sid)) && Sorted(SnapshotMenus(facts, sid), TruthOrder)
    ensures forall m :: m in SnapshotMenus(facts, sid) <==> m in facts.menus && m.snapshotId == sid
  {
    var shown := Sort(MenusOf(facts, sid), DisplayOrder);
    MenuOrders();
    assert Distinct(facts.menus);
    FilterDistinct(facts.menus, MenuIn(sid));
    FilterMembers(facts.menus, MenuIn(sid));
    SortPermutes(MenusOf(facts, sid), DisplayOrder);
    SortPermutes(shown, TruthOrder);
    PermutedDistinct(MenusOf(facts, sid), SnapshotMenus(facts, sid));
    SortMembers(MenusOf(facts, sid), DisplayOrder);
    SortMembers(shown, TruthOrder);
    SortSorts(shown, TruthOrder);
  }

  function ChartedMenus(facts: Facts, sid: Id, route: string): seq<MenuNode> {
    Filter(SnapshotMenus(facts, sid), Charts(RouteIndex(Sort(PagesOf(facts, sid), PageOrder)), route))
  }

  lemma ChartedListed(facts: Facts, sid: Id, route: string)
    requires KeysDistinct(facts) && route != ""
    ensures RouteMenus(facts, sid, route, ChartedMenus(facts, sid, route))
  {
    var index := RouteIndex(Sort(PagesOf(facts, sid), PageOrder));
    var rows := ChartedMenus(facts, sid, route);
    SnapshotMenusListed(facts, sid);
    FilterMembers(SnapshotMenus(facts, sid), Charts(index, route));
    FilterKeepsSorted(SnapshotMenus(facts, sid), Charts(index, route), TruthOrder);
    FilterDistinct(SnapshotMenus(facts, sid), Charts(index, route));
    KeysIdentify(facts);
    forall m ensures m in rows <==> MenuAt(facts, sid, route, m) {
      if m.pageId.Some? { IndexAt(facts, sid, m.pageId.value, route); }
    }
    forall i, j | 0 <= i < j < |rows| ensures rows[i].pageId.Some? && rows[j].pageId.Some? && Before(rows[i], rows[j]) {
      assert rows[i] in rows && rows[j] in rows && TruthOrder(rows[i], rows[j]) && rows[i] != rows[j];
    }
  }

  /** The truth's chain of a route lists the stripped names of exactly the labelled menus on the pages with
      that route, page by page in display order. */
  lemma ChainMeaning(facts: Facts, sid: Id, route: string)
    requires KeysDistinct(facts) && route != ""
    ensures exists rows :: RouteMenus(facts, sid, route, rows) && At(TruthFor(facts, sid).chains, route) == Map(rows, LabelOf)
  {
    var index := RouteIndex(Sort(PagesOf(facts, sid), PageOrder));
    ChainsCollect(index, SnapshotMenus(facts, sid), route);
    LabelsOfRoute(index, SnapshotMenus(facts, sid), route);
    ChartedListed(facts, sid, route);
  }

  // ---- Elements ----

  /** The element has the kind, role and text the requirement names. */
  ghost predicate Meets(e: PageElement, r: Required) {
    && (Strip(r.kind) != "" ==> Strip(e.kind) == Strip(r.kind))
    && (Strip(r.role) != "" ==> Normalized(e.role) == Strip(r.role))
    && (Strip(r.text) != "" ==> Normalized(e.text) == Strip(r.text))
  }

  lemma {:induction false} RowsListed(index: map<Id, string>, elements: seq<PageElement>, route: string, row: ElementRow)
    requires route != ""
    ensures row in At(Rows(index, elements), route) <==>
            exists e :: e in elements && RouteAt(index, Some(e.pageId)) == route && RowOf(e) == row
  {
    if elements != [] {
      RowsListed(index, elements[..|elements| - 1], route, row);
      SnocSplit(elements);
    }
  }

  lemma MeetsRow(e: PageElement, r: Required)
    ensures Matches(r, RowOf(e)) <==> Meets(e, r)
  {
  }

  /** A requirement is met exactly if some element on the route's pages meets it. */
  lemma ElementMeaning(facts: Facts, sid: Id, route: string, r: Required)
    requires KeysDistinct(facts) && route != ""
    ensures (exists row :: row in At(TruthFor(facts, sid).elements, route) && Matches(r, row)) <==>
            exists e :: ElementAt(facts, sid, route, e) && Meets(e, r)
  {
    var index, elements := RouteIndex(Sort(PagesOf(facts, sid), PageOrder)), Sort(ElementsOf(facts, sid), ByPageThenId);
    var rows := At(TruthFor(facts, sid).elements, route);
    SortMembers(ElementsOf(facts, sid), ByPageThenId);
    FilterMembers(facts.elements, ElementIn(sid));
    if row :| row in rows && Matches(r, row) {
      RowsListed(index, elements, route, row);
      var e :| e in elements && RouteAt(index, Some(e.pageId)) == route && RowOf(e) == row;
      IndexAt(facts, sid, e.pageId, route);
      MeetsRow(e, r);
    }
    if e :| ElementAt(facts, sid, route, e) && Meets(e, r) {
      IndexAt(facts, sid, e.pageId, route);
      RowsListed(index, elements, route, RowOf(e));
      MeetsRow(e, r);
    }
  }

  // ---- Verdicts ----

  predicate AtOrBefore(a: MenuNode, b: MenuNode) {
    a == b || (a.pageId.Some? && b.pageId.Some? && Before(a, b))
  }

  lemma RouteMenusUnique(facts: Facts, sid: Id, route: string, rows: seq<MenuNode>, other: seq<MenuNode>)
    requires RouteMenus(facts, sid, route, rows) && RouteMenus(facts, sid, route, other)
    ensures rows == other
  {
    DistinctPermutes(rows, other);
    SortedUnique(rows, other, AtOrBefore);
  }

  /** The labels occur, in this order, among those of the menus on the route's pages. */
  ghost predicate ChainShown(facts: Facts, sid: Id, route: string, chain: seq<string>) {
    exists rows :: RouteMenus(facts, sid, route, rows) && Subsequence(chain, Map(rows, LabelOf))
  }

  ghost predicate Unmet(facts: Facts, sid: Id, route: string, r: Required) {
    forall e | ElementAt(facts, sid, route, e) :: !Meets(e, r)
  }

  lemma ChainShownMeaning(facts: Facts, sid: Id, route: string, chain: seq<string>)
    requires KeysDistinct(facts) && route != ""
    ensures Subsequence(chain, At(TruthFor(facts, sid).chains, route)) <==> ChainShown(facts, sid, route, chain)
  {
    ChainMeaning(facts, sid, route);
    var rows :| RouteMenus(facts, sid, route, rows) && At(TruthFor(facts, sid).chains, route) == Map(rows, LabelOf);
    if ChainShown(facts, sid, route, chain) {
      var other :| RouteMenus(facts, sid, route, other) && Subsequence(chain, Map(other, LabelOf));
      RouteMenusUnique(facts, sid, route, rows, other);
    }
  }

  /** A check whose asset stands on a route has to go exactly if no page of the snapshot has the route, or
      else its labels do not occur in order among those of the route's menus, or else no element on the
      route's pages meets one of its requirements. */
  lemma VerdictByRows(c: ActiveCheck, route: string, facts: Facts, sid: Id)
    requires KeysDistinct(facts)
    ensures var d := NormalDependencies(c.dependencies);
            Verdict(c, route, TruthFor(facts, sid)) ==
            if route == "" then None
            else if route !in SnapshotRoutes(facts, sid) then Some(MissingPage)
            else if !ChainShown(facts, sid, route, d.menuChain) then Some(MissingMenuChain)
            else if exists r :: r in d.required && Unmet(facts, sid, route, r) then Some(MissingKeyElement)
            else None
  {
    CurrentRoutes(facts, sid);
    var d := NormalDependencies(c.dependencies);
    if route != "" {
      ChainShownMeaning(facts, sid, route, d.menuChain);
      forall r ensures Unmet(facts, sid, route, r) <==> forall row | row in At(TruthFor(facts, sid).elements, route) :: !Matches(r, row) {
        ElementMeaning(facts, sid, route, r);
      }
    }
  }
}
