/** What decides a current-state switch, read off the stored rows: the quality of the draft, and route by
    route the title, the menu labels and the elements that the pages of both snapshots show. */
module SwitchMeaning {
  import opened Basics
  import opened Sorting
  import opened Text
  import opened Corpus
  import opened CorpusHistory
  import opened SemanticDiff

  // ---- What a page shows ----

  ghost predicate LabelRow(facts: Facts, sid: Id, pageId: Id, m: MenuNode) {
    m in facts.menus && m.snapshotId == sid && m.pageId == Some(pageId) && Strip(m.name) != ""
  }

  /** By depth, then by sort order, then by identifier. */
  predicate Above(a: MenuNode, b: MenuNode) {
    || a.depth < b.depth
    || (a.depth == b.depth && a.sortOrder < b.sortOrder)
    || (a.depth == b.depth && a.sortOrder == b.sortOrder && a.id < b.id)
  }

  /** The page's labelled menu rows of the snapshot, each once, in order. */
  ghost predicate ListsRows(facts: Facts, sid: Id, pageId: Id, rows: seq<MenuNode>) {
    && (forall m :: m in rows <==> LabelRow(facts, sid, pageId, m))
    && (forall i, j | 0 <= i < j < |rows| :: Above(rows[i], rows[j]))
  }

  function StrippedName(m: MenuNode): string { Strip(m.name) }

  ghost predicate ShowsLabels(facts: Facts, sid: Id, pageId: Id, labels: seq<string>) {
    exists rows :: ListsRows(facts, sid, pageId, rows) && labels == Map(rows, StrippedName)
  }

  ghost predicate Describes(d: Descriptor, e: PageElement) {
    && d.kind == Strip(e.kind) && d.role == Normalized(e.role)
    && d.text == Strip(Normalized(e.text) + "|state=" + Normalized(e.stateSignature) + "|context=" + e.stateContext)
  }

  ghost predicate ShowsElement(facts: Facts, sid: Id, pageId: Id, d: Descriptor) {
    exists e :: e in facts.elements && e.snapshotId == sid && e.pageId == pageId && Describes(d, e)
  }

  // ---- Labels ----

  lemma RowsUnique(facts: Facts, sid: Id, pageId: Id, rows: seq<MenuNode>, other: seq<MenuNode>)
    requires ListsRows(facts, sid, pageId, rows) && ListsRows(facts, sid, pageId, other)
    ensures rows == other
  {
    DistinctPermutes(rows, other);
    SortedUnique(rows, other, AtOrAbove);
  }

  predicate AtOrAbove(a: MenuNode, b: MenuNode) {
    a == b || Above(a, b)
  }

  lemma LabelsUnique(facts: Facts, sid: Id, pageId: Id, labels: seq<string>, other: seq<string>)
    requires ShowsLabels(facts, sid, pageId, labels) && ShowsLabels(facts, sid, pageId, other)
    ensures labels == other
  {
    var rows :| ListsRows(facts, sid, pageId, rows) && labels == Map(rows, StrippedName);
    var more :| ListsRows(facts, sid, pageId, more) && other == Map(more, StrippedName);
    RowsUnique(facts, sid, pageId, rows, more);
  }

  predicate NamedMenu(m: MenuNode) {
    Strip(m.name) != ""
  }

  /** Dropping blank names before or after stripping is the same. */
  lemma {:induction false} LabelsOfRows(menus: seq<MenuNode>)
    ensures Filter(Map(Filter(Map(menus, NameOf), NonBlank), Strip), Nonempty) == Map(Filter(menus, NamedMenu), StrippedName)
  {
    if menus != [] {
      var front, m := menus[..|menus| - 1], menus[|menus| - 1];
      LabelsOfRows(front);
      assert Map(menus, NameOf) == Map(front, NameOf) + [m.name];
      var names := Filter(Map(front, NameOf), NonBlank);
      assert Map(names + [m.name], Strip) == Map(names, Strip) + [Strip(m.name)];
      assert Map(Filter(front, NamedMenu) + [m], StrippedName) == Map(Filter(front, NamedMenu), StrippedName) + [Strip(m.name)];
    }
  }

  lemma MenuOrder()
    ensures TotalPreorder(PageThenDisplayOrder)
  {
  }

  function PageMenus(facts: Facts, sid: Id, pageId: Id): seq<MenuNode> {
    Filter(Filter(Sort(MenusOf(facts, sid), PageThenDisplayOrder), OnPage(pageId)), NamedMenu)
  }

  lemma SortedDistinct(facts: Facts, sid: Id)
    requires KeysDistinct(facts)
    ensures Distinct(Sort(MenusOf(facts, sid), PageThenDisplayOrder))
  {
    assert Distinct(facts.menus);
    FilterDistinct(facts.menus, MenuIn(sid));
    SortPermutes(MenusOf(facts, sid), PageThenDisplayOrder);
    PermutedDistinct(MenusOf(facts, sid), Sort(MenusOf(facts, sid), PageThenDisplayOrder));
  }

  lemma PageMenusListed(facts: Facts, sid: Id, pageId: Id)
    requires KeysDistinct(facts)
    ensures ListsRows(facts, sid, pageId, PageMenus(facts, sid, pageId))
  {
    var sorted := Sort(MenusOf(facts, sid), PageThenDisplayOrder);
    var rows := PageMenus(facts, sid, pageId);
    MenuOrder();
    SortSorts(MenusOf(facts, sid), PageThenDisplayOrder);
    SortMembers(MenusOf(facts, sid), PageThenDisplayOrder);
    SortedDistinct(facts, sid);
    FilterMembers(facts.menus, MenuIn(sid));
    FilterMembers(sorted, OnPage(pageId));
    FilterMembers(Filter(sorted, OnPage(pageId)), NamedMenu);
    FilterKeepsSorted(sorted, OnPage(pageId), PageThenDisplayOrder);
    FilterKeepsSorted(Filter(sorted, OnPage(pageId)), NamedMenu, PageThenDisplayOrder);
    FilterDistinct(sorted, OnPage(pageId));
    FilterDistinct(Filter(sorted, OnPage(pageId)), NamedMenu);
    KeysIdentify(facts);
    forall i, j | 0 <= i < j < |rows| ensures Above(rows[i], rows[j]) {
      assert rows[i] in rows && rows[j] in rows && PageThenDisplayOrder(rows[i], rows[j]);
    }
  }

  // ---- Elements ----

  lemma TextNeverBlank(a: string, b: string)
    ensures Strip(a + "|state=" + b) != ""
  {
    var s := a + "|state=" + b;
    var before, after := StripAround(s);
    assert s[|a|] == '|' && s[|a|] in s;
    assert '|' in before || '|' in Strip(s) || '|' in after;
  }

  lemma DescriptorDescribes(e: PageElement)
    ensures Describes(DescriptorOf(SemanticElement(e)), e) && Informative(DescriptorOf(SemanticElement(e)))
  {
    var state := Normalized(e.stateSignature) + "|context=" + e.stateContext;
    TextNeverBlank(Normalized(e.text), state);
    assert Normalized(e.text) + "|state=" + Normalized(e.stateSignature) + "|context=" + e.stateContext
        == Normalized(e.text) + "|state=" + state;
  }

  function PageRows(facts: Facts, sid: Id, pageId: Id): seq<PageElement> {
    Filter(Sort(ElementsOf(facts, sid), ElementOrder), ElementOn(pageId))
  }

  lemma PageRowsMembers(facts: Facts, sid: Id, pageId: Id)
    ensures forall e :: e in PageRows(facts, sid, pageId) <==> e in facts.elements && e.snapshotId == sid && e.pageId == pageId
  {
    SortMembers(ElementsOf(facts, sid), ElementOrder);
    FilterMembers(facts.elements, ElementIn(sid));
    FilterMembers(Sort(ElementsOf(facts, sid), ElementOrder), ElementOn(pageId));
  }

  lemma DescriptorsOfRows(rows: seq<PageElement>, d: Descriptor)
    ensures d in Descriptors(Map(rows, SemanticElement)) <==> exists e :: e in rows && Describes(d, e)
  {
    var raw := Map(rows, SemanticElement);
    if d in Descriptors(raw) {
      var i :| 0 <= i < |raw| && DescriptorOf(raw[i]) == d;
      DescriptorDescribes(rows[i]);
      assert rows[i] in rows;
    }
    if e :| e in rows && Describes(d, e) {
      DescriptorDescribes(e);
      var i :| 0 <= i < |rows| && rows[i] == e;
      assert raw[i] in raw && DescriptorOf(raw[i]) == d;
    }
  }

  lemma KeyElementsShown(facts: Facts, sid: Id, pageId: Id)
    ensures forall d :: d in KeyElements(Map(PageRows(facts, sid, pageId), SemanticElement)) <==> ShowsElement(facts, sid, pageId, d)
  {
    var rows := PageRows(facts, sid, pageId);
    PageRowsMembers(facts, sid, pageId);
    DescriptorOrder();
    AscendingMembers(Descriptors(Map(rows, SemanticElement)), DescriptorLe);
    forall d ensures d in Descriptors(Map(rows, SemanticElement)) <==> ShowsElement(facts, sid, pageId, d) {
      DescriptorsOfRows(rows, d);
    }
  }

  // ---- Fingerprints ----

  /** A page's fingerprint holds its stripped route and title, the stripped non-blank names of exactly the
      menus of its snapshot that belong to it, one a row and in order, and exactly the descriptors of its
      element rows. */
  lemma FingerprintMeaning(facts: Facts, sid: Id, page: Page)
    requires KeysDistinct(facts)
    ensures var fp := PageFingerprint(facts, sid, page);
            && fp.route == Strip(page.route) && fp.title == Normalized(page.title)
            && ShowsLabels(facts, sid, page.id, fp.menuChain)
            && (forall d :: d in fp.keyElements <==> ShowsElement(facts, sid, page.id, d))
  {
    PageMenusListed(facts, sid, page.id);
    LabelsOfRows(Filter(Sort(MenusOf(facts, sid), PageThenDisplayOrder), OnPage(page.id)));
    KeyElementsShown(facts, sid, page.id);
  }

  /** Two pages show the same: title, label list and descriptors. */
  ghost predicate SamePage(facts: Facts, sid: Id, p: Page, other: Id, q: Page) {
    && Normalized(p.title) == Normalized(q.title)
    && (forall labels :: ShowsLabels(facts, sid, p.id, labels) <==> ShowsLabels(facts, other, q.id, labels))
    && (forall d :: ShowsElement(facts, sid, p.id, d) <==> ShowsElement(facts, other, q.id, d))
  }

  lemma SameFingerprint(facts: Facts, sid: Id, p: Page, other: Id, q: Page)
    requires KeysDistinct(facts)
    ensures PageFingerprint(facts, sid, p) == PageFingerprint(facts, other, q) <==>
            Strip(p.route) == Strip(q.route) && SamePage(facts, sid, p, other, q)
  {
    var f, g := PageFingerprint(facts, sid, p), PageFingerprint(facts, other, q);
    FingerprintMeaning(facts, sid, p);
    FingerprintMeaning(facts, other, q);
    if f == g {
      forall labels ensures ShowsLabels(facts, sid, p.id, labels) <==> ShowsLabels(facts, other, q.id, labels) {
        if ShowsLabels(facts, sid, p.id, labels) { LabelsUnique(facts, sid, p.id, labels, f.menuChain); }
        if ShowsLabels(facts, other, q.id, labels) { LabelsUnique(facts, other, q.id, labels, g.menuChain); }
      }
    }
    if SamePage(facts, sid, p, other, q) {
      LabelsUnique(facts, sid, p.id, f.menuChain, g.menuChain);
      var a, b := Map(PageRows(facts, sid, p.id), SemanticElement), Map(PageRows(facts, other, q.id), SemanticElement);
      assert f.keyElements == KeyElements(a) && g.keyElements == KeyElements(b);
      SameKeyElements(a, b);
    }
  }

  lemma SameKeyElements(a: seq<RawElement>, b: seq<RawElement>)
    requires forall d :: d in KeyElements(a) <==> d in KeyElements(b)
    ensures KeyElements(a) == KeyElements(b)
  {
    DescriptorOrder();
    AscendingMembers(Descriptors(a), DescriptorLe);
    AscendingMembers(Descriptors(b), DescriptorLe);
    forall d ensures d in Descriptors(a) <==> d in Descriptors(b) {
      assert d in KeyElements(a) <==> d in KeyElements(b);
    }
    assert Descriptors(a) == Descriptors(b);
  }

  // ---- Whole snapshots ----

  /** Every page of the snapshot has a route, and no two have the same. */
  ghost predicate RoutesClean(facts: Facts, sid: Id) {
    && (forall p | p in facts.pages && p.snapshotId == sid :: Strip(p.route) != "")
    && (forall p, q | p in facts.pages && q in facts.pages && p.snapshotId == q.snapshotId == sid && p.id != q.id ::
          Strip(p.route) != Strip(q.route))
  }

  ghost predicate Counterpart(facts: Facts, sid: Id, p: Page, other: Id) {
    exists q :: q in facts.pages && q.snapshotId == other && Strip(p.route) == Strip(q.route) && SamePage(facts, sid, p, other, q)
  }

  /** Both snapshots have the same routes and show the same on each. */
  ghost predicate SameCorpus(facts: Facts, sid: Id, other: Id) {
    && (forall p | p in facts.pages && p.snapshotId == sid :: Counterpart(facts, sid, p, other))
    && (forall q | q in facts.pages && q.snapshotId == other :: Counterpart(facts, other, q, sid))
  }

  lemma {:induction false} FingerprintsAt(facts: Facts, sid: Id, pages: seq<Page>, i: nat)
    requires i < |pages|
    ensures PageFingerprints(facts, sid, pages)[i] == PageFingerprint(facts, sid, pages[i])
  {
    if i < |pages| - 1 {
      FingerprintsAt(facts, sid, pages[..|pages| - 1], i);
    }
  }

  function StatePages(facts: Facts, sid: Id): seq<Page> {
    Sort(PagesOf(facts, sid), PageOrder)
  }

  lemma StatePagesMembers(facts: Facts, sid: Id)
    ensures forall p :: p in StatePages(facts, sid) <==> p in facts.pages && p.snapshotId == sid
    ensures KeysDistinct(facts) ==> Distinct(StatePages(facts, sid))
  {
    SortMembers(PagesOf(facts, sid), PageOrder);
    FilterMembers(facts.pages, PageIn(sid));
    if KeysDistinct(facts) {
      assert Distinct(facts.pages);
      FilterDistinct(facts.pages, PageIn(sid));
      SortPermutes(PagesOf(facts, sid), PageOrder);
      PermutedDistinct(PagesOf(facts, sid), StatePages(facts, sid));
    }
  }

  lemma StateMembers(facts: Facts, sid: Id, fp: SemanticDiff.Fingerprint)
    ensures fp in SemanticState(facts, sid) <==>
            exists p :: p in facts.pages && p.snapshotId == sid && PageFingerprint(facts, sid, p) == fp
  {
    var pages, state := StatePages(facts, sid), SemanticState(facts, sid);
    StatePagesMembers(facts, sid);
    if fp in state {
      var i :| 0 <= i < |state| && state[i] == fp;
      FingerprintsAt(facts, sid, pages, i);
      assert pages[i] in pages;
    }
    if p :| p in facts.pages && p.snapshotId == sid && PageFingerprint(facts, sid, p) == fp {
      assert p in pages;
      var i :| 0 <= i < |pages| && pages[i] == p;
      FingerprintsAt(facts, sid, pages, i);
    }
  }

  lemma StateRoutes(facts: Facts, sid: Id)
    requires KeysDistinct(facts)
    ensures forall i | 0 <= i < |SemanticState(facts, sid)| :: SemanticState(facts, sid)[i].route == Strip(StatePages(facts, sid)[i].route)
  {
    var pages, state := StatePages(facts, sid), SemanticState(facts, sid);
    forall i | 0 <= i < |state| ensures state[i].route == Strip(pages[i].route) {
      FingerprintsAt(facts, sid, pages, i);
      FingerprintMeaning(facts, sid, pages[i]);
    }
  }

  lemma IndexableClean(facts: Facts, sid: Id)
    requires KeysDistinct(facts) && Indexable(SemanticState(facts, sid))
    ensures RoutesClean(facts, sid)
  {
    var pages, state := StatePages(facts, sid), SemanticState(facts, sid);
    StatePagesMembers(facts, sid);
    StateRoutes(facts, sid);
    forall p | p in facts.pages && p.snapshotId == sid ensures Strip(p.route) != "" {
      assert p in pages;
      var i :| 0 <= i < |pages| && pages[i] == p;
      assert state[i].route != "";
    }
    forall p, q | p in facts.pages && q in facts.pages && p.snapshotId == q.snapshotId == sid && p.id != q.id
      ensures Strip(p.route) != Strip(q.route)
    {
      assert p in pages && q in pages;
      var i :| 0 <= i < |pages| && pages[i] == p;
      var j :| 0 <= j < |pages| && pages[j] == q;
      assert state[i].route != state[j].route;
    }
  }

  lemma CleanIndexable(facts: Facts, sid: Id)
    requires KeysDistinct(facts) && RoutesClean(facts, sid)
    ensures Indexable(SemanticState(facts, sid))
  {
    var pages, state := StatePages(facts, sid), SemanticState(facts, sid);
    StatePagesMembers(facts, sid);
    StateRoutes(facts, sid);
    KeysIdentify(facts);
    forall i, j | 0 <= i < j < |state| ensures state[i].route != state[j].route {
      assert pages[i] in pages && pages[j] in pages && pages[i] != pages[j];
    }
    forall i | 0 <= i < |state| ensures state[i].route != "" {
      assert pages[i] in pages;
    }
  }

  lemma StateIndexable(facts: Facts, sid: Id)
    requires KeysDistinct(facts)
    ensures Indexable(SemanticState(facts, sid)) <==> RoutesClean(facts, sid)
  {
    if Indexable(SemanticState(facts, sid)) {
      IndexableClean(facts, sid);
    }
    if RoutesClean(facts, sid) {
      CleanIndexable(facts, sid);
    }
  }

  lemma Covered(facts: Facts, sid: Id, other: Id)
    requires KeysDistinct(facts)
    ensures ToSet(SemanticState(facts, sid)) <= ToSet(SemanticState(facts, other)) <==>
            forall p | p in facts.pages && p.snapshotId == sid :: Counterpart(facts, sid, p, other)
  {
    var a, b := SemanticState(facts, sid), SemanticState(facts, other);
    if ToSet(a) <= ToSet(b) {
      forall p | p in facts.pages && p.snapshotId == sid ensures Counterpart(facts, sid, p, other) {
        var fp := PageFingerprint(facts, sid, p);
        StateMembers(facts, sid, fp);
        assert fp in ToSet(a);
        StateMembers(facts, other, fp);
        var q :| q in facts.pages && q.snapshotId == other && PageFingerprint(facts, other, q) == fp;
        SameFingerprint(facts, sid, p, other, q);
      }
    }
    if forall p | p in facts.pages && p.snapshotId == sid :: Counterpart(facts, sid, p, other) {
      forall fp | fp in ToSet(a) ensures fp in ToSet(b) {
        StateMembers(facts, sid, fp);
        var p :| p in facts.pages && p.snapshotId == sid && PageFingerprint(facts, sid, p) == fp;
        assert Counterpart(facts, sid, p, other);
        var q :| q in facts.pages && q.snapshotId == other && Strip(p.route) == Strip(q.route) && SamePage(facts, sid, p, other, q);
        SameFingerprint(facts, sid, p, other, q);
        StateMembers(facts, other, fp);
      }
    }
  }

  lemma SameState(facts: Facts, sid: Id, other: Id)
    requires KeysDistinct(facts)
    ensures ToSet(SemanticState(facts, sid)) == ToSet(SemanticState(facts, other)) <==> SameCorpus(facts, sid, other)
  {
    Covered(facts, sid, other);
    Covered(facts, other, sid);
  }

  // ---- The switch ----

  predicate GoodEnough(s: Snapshot) {
    s.crawlType == "full" && !s.degraded && s.quality.Some? && s.quality.value >= 0.9
  }

  function OutOfUse(s: Snapshot, now: Time): Snapshot {
    s.(state := Discarded, discardedAt := Some(now))
  }

  function InUse(s: Snapshot, now: Time): Snapshot {
    s.(state := Active, activatedAt := Some(now), discardedAt := None)
  }

  /** A draft against the active snapshot of its system: discarded for its quality, refused for its routes,
      discarded because both show the same on the same routes, or put in the place of the active one, which
      goes into the history as it was, with its facts. */
  lemma SwitchByRows(c: Corpus, active: Id, draft: Id, now: Time)
    requires Inv(c) && active in c.snapshots && draft in c.snapshots
    requires c.snapshots[active].state == Active && c.snapshots[draft].state == Draft
    requires c.snapshots[active].systemId == c.snapshots[draft].systemId
    ensures var (d, r) := Switch(c, draft, now);
            var clean := RoutesClean(c.facts, active) && RoutesClean(c.facts, draft);
            var discarded := c.(snapshots := c.snapshots[draft := OutOfUse(c.snapshots[draft], now)]);
            if !GoodEnough(c.snapshots[draft]) then r == Ok(DiscardedLowQuality) && d == discarded
            else if !clean then d == c && r.Err? && r.error.BadRoutes?
            else if SameCorpus(c.facts, active, draft) then r == Ok(DiscardedNoChange(active)) && d == discarded
            else r == Ok(Promoted(Some(active)))
                 && d.snapshots == c.snapshots[active := OutOfUse(c.snapshots[active], now)][draft := InUse(c.snapshots[draft], now)]
                 && d.snapshotHist == c.snapshotHist + [SnapshotHist(active, c.snapshots[active], draft, "semantic_change")]
                 && d.facts == c.facts && d.factHist == Append(c.factHist, FactsOf(c.facts, active))
  {
    LoadedIs(c, active, draft);
    SemanticDiff.NoChangeMeaning(SemanticState(c.facts, active), SemanticState(c.facts, draft));
    StateIndexable(c.facts, active);
    StateIndexable(c.facts, draft);
    SameState(c.facts, active, draft);
  }

  lemma LoadedIs(c: Corpus, active: Id, draft: Id)
    requires AtMostOneActive(c) && IsActive(c.snapshots, active) && active != draft && draft in c.snapshots
    requires c.snapshots[active].systemId == c.snapshots[draft].systemId
    ensures LoadActive(c.snapshots, c.snapshots[draft].systemId, draft) == Some(active)
  {
    LoadActiveMeaning(c.snapshots, c.snapshots[draft].systemId, draft);
    assert active in ActiveIn(c.snapshots, c.snapshots[draft].systemId);
  }

  /** A draft whose system has no active snapshot goes into use if it is good enough. */
  lemma FirstSwitch(c: Corpus, draft: Id, now: Time)
    requires draft in c.snapshots && c.snapshots[draft].state == Draft
    requires forall id | id in c.snapshots && c.snapshots[id].state == Active :: c.snapshots[id].systemId != c.snapshots[draft].systemId
    ensures var row := c.snapshots[draft];
            Switch(c, draft, now)
            == if GoodEnough(row) then (c.(snapshots := c.snapshots[draft := InUse(row, now)]), Ok(Promoted(None)))
               else (c.(snapshots := c.snapshots[draft := OutOfUse(row, now)]), Ok(DiscardedLowQuality))
  {
    LoadActiveMeaning(c.snapshots, c.snapshots[draft].systemId, draft);
  }

  /** One shared route with another title, label list or descriptor on it makes all the difference. */
  lemma ChangedPagePromotes(c: Corpus, active: Id, draft: Id, now: Time, p: Page, q: Page)
    requires Inv(c) && active in c.snapshots && draft in c.snapshots
    requires c.snapshots[active].state == Active && c.snapshots[draft].state == Draft && GoodEnough(c.snapshots[draft])
    requires c.snapshots[active].systemId == c.snapshots[draft].systemId
    requires RoutesClean(c.facts, active) && RoutesClean(c.facts, draft)
    requires p in c.facts.pages && p.snapshotId == active && q in c.facts.pages && q.snapshotId == draft
    requires Strip(p.route) == Strip(q.route) && !SamePage(c.facts, active, p, draft, q)
    ensures Switch(c, draft, now).1 == Ok(Promoted(Some(active)))
  {
    SwitchByRows(c, active, draft, now);
    OneCounterpart(c.facts, active, p, draft, q);
    assert SameCorpus(c.facts, active, draft) ==> Counterpart(c.facts, active, p, draft);
  }

  lemma OneCounterpart(facts: Facts, sid: Id, p: Page, other: Id, q: Page)
    requires KeysDistinct(facts) && RoutesClean(facts, other)
    requires q in facts.pages && q.snapshotId == other && Strip(p.route) == Strip(q.route)
    ensures Counterpart(facts, sid, p, other) ==> SamePage(facts, sid, p, other, q)
  {
    KeysIdentify(facts);
  }

  /** For example a renamed menu: the page's only label differs. */
  lemma RenamedMenuShows(facts: Facts, sid: Id, p: Page, other: Id, q: Page, a: MenuNode, b: MenuNode)
    requires forall m :: LabelRow(facts, sid, p.id, m) <==> m == a
    requires forall m :: LabelRow(facts, other, q.id, m) <==> m == b
    requires Strip(a.name) != Strip(b.name)
    ensures !SamePage(facts, sid, p, other, q)
  {
    assert ListsRows(facts, sid, p.id, [a]) && ListsRows(facts, other, q.id, [b]);
    assert Map([a], StrippedName)[0] != Map([b], StrippedName)[0];
    assert ShowsLabels(facts, sid, p.id, Map([a], StrippedName));
    assert ShowsLabels(facts, other, q.id, Map([b], StrippedName));
    if SamePage(facts, sid, p, other, q) {
      LabelsUnique(facts, other, q.id, Map([a], StrippedName), Map([b], StrippedName));
    }
  }
}
