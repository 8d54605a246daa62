/** Writing a combined crawl as page, menu and element rows: `crawler_service/service.py`. Row identifiers
    are handed out by the database; here they are given. */
module CrawlPersistence {
  import opened Basics
  import opened Corpus
  import opened CrawlAssembly

  // ---- Pages ----

  /** The page map: for each route the last page written for it. */
  function PageMap(pages: seq<PageCandidate>, ids: seq<Id>): map<string, Id>
    requires |ids| == |pages|
  {
    if pages == [] then map[]
    else PageMap(pages[..|pages| - 1], ids[..|pages| - 1])[pages[|pages| - 1].route := ids[|pages| - 1]]
  }

  function PageRow(sid: Id, id: Id, c: PageCandidate): Page {
    Page(id, sid, c.route, c.title, c.summary)
  }

  method PersistPages(sid: Id, pages: seq<PageCandidate>, ids: seq<Id>) returns (rows: seq<Page>, pageMap: map<string, Id>)
    requires |ids| == |pages|
    ensures |rows| == |pages|
    ensures forall i | 0 <= i < |rows| ::
              && rows[i].id == ids[i] && rows[i].snapshotId == sid && rows[i].route == pages[i].route
              && rows[i].title == pages[i].title && rows[i].summary == pages[i].summary
    ensures pageMap == PageMap(pages, ids)
  {
    rows, pageMap := [], map[];
    for i := 0 to |pages|
      invariant |rows| == i && forall k | 0 <= k < i :: rows[k] == Page(ids[k], sid, pages[k].route, pages[k].title, pages[k].summary)
      invariant pageMap == PageMap(pages[..i], ids[..i])
    {
      TakeTake(pages, i);
      TakeTake(ids, i);
      rows := rows + [Page(ids[i], sid, pages[i].route, pages[i].title, pages[i].summary)];
      pageMap := pageMap[pages[i].route := ids[i]];
    }
    assert pages[..|pages|] == pages && ids[..|ids|] == ids;
  }

  /** With distinct routes the page map leads from each route to the one page with it. */
  lemma {:induction false} PageMapMeaning(pages: seq<PageCandidate>, ids: seq<Id>)
    requires |ids| == |pages| && forall i, j | 0 <= i < j < |pages| :: pages[i].route != pages[j].route
    ensures forall i | 0 <= i < |pages| :: pages[i].route in PageMap(pages, ids) && PageMap(pages, ids)[pages[i].route] == ids[i]
  {
    if pages != [] {
      var n := |pages| - 1;
      PageMapMeaning(pages[..n], ids[..n]);
      assert forall i | 0 <= i < n :: pages[..n][i] == pages[i] && ids[..n][i] == ids[i];
    }
  }

  // ---- Menus ----

  /** The latest of the first `n` menus with the identity. */
  function LatestIdentity(menus: seq<MenuCandidate>, n: nat, key: string): Option<nat>
    requires n <= |menus|
  {
    if n == 0 then None else if menus[n - 1].identity == Some(key) then Some(n - 1) else LatestIdentity(menus, n - 1, key)
  }

  /** The latest of the first `n` menus with the name. */
  function LatestNamed(menus: seq<MenuCandidate>, n: nat, name: string): Option<nat>
    requires n <= |menus|
  {
    if n == 0 then None else if menus[n - 1].name == name then Some(n - 1) else LatestNamed(menus, n - 1, name)
  }

  /** A menu's parent among the earlier ones: by identity if that finds one, else by name; a menu that names
      no parent still looks for one with an empty name. */
  function ParentOf(menus: seq<MenuCandidate>, i: nat): Option<nat>
    requires i < |menus|
  {
    var byIdentity := if menus[i].parentIdentity.Some? then LatestIdentity(menus, i, menus[i].parentIdentity.value) else None;
    if byIdentity.Some? then byIdentity else LatestNamed(menus, i, menus[i].parentName.GetOr(""))
  }

  lemma {:induction false} LatestIdentityMeaning(menus: seq<MenuCandidate>, n: nat, key: string)
    requires n <= |menus|
    ensures match LatestIdentity(menus, n, key)
            case None => forall k | 0 <= k < n :: menus[k].identity != Some(key)
            case Some(j) => j < n && menus[j].identity == Some(key) && forall k | j < k < n :: menus[k].identity != Some(key)
  {
    if n > 0 { LatestIdentityMeaning(menus, n - 1, key); }
  }

  lemma {:induction false} LatestNamedMeaning(menus: seq<MenuCandidate>, n: nat, name: string)
    requires n <= |menus|
    ensures match LatestNamed(menus, n, name)
            case None => forall k | 0 <= k < n :: menus[k].name != name
            case Some(j) => j < n && menus[j].name == name && forall k | j < k < n :: menus[k].name != name
  {
    if n > 0 { LatestNamedMeaning(menus, n - 1, name); }
  }

  lemma ParentEarlier(menus: seq<MenuCandidate>, i: nat)
    requires i < |menus|
    ensures ParentOf(menus, i).Some? ==> ParentOf(menus, i).value < i
  {
    LatestNamedMeaning(menus, i, menus[i].parentName.GetOr(""));
    if menus[i].parentIdentity.Some? {
      LatestIdentityMeaning(menus, i, menus[i].parentIdentity.value);
    }
  }

  function PageIdOf(pageMap: map<string, Id>, m: MenuCandidate): Option<Id> {
    if PageRef(m) in pageMap then Some(pageMap[PageRef(m)]) else None
  }

  function MenuRow(sid: Id, menus: seq<MenuCandidate>, ids: seq<Id>, pageMap: map<string, Id>, i: nat): MenuNode
    requires i < |menus| == |ids|
  {
    ParentEarlier(menus, i);
    var parent := ParentOf(menus, i);
    var m := menus[i];
    MenuNode(ids[i], sid, if parent.Some? then Some(ids[parent.value]) else None, PageIdOf(pageMap, m),
             m.name, m.route, m.depth, m.sortOrder)
  }

  /** The identity and label maps hold the latest menu of each key. */
  method PersistMenus(sid: Id, menus: seq<MenuCandidate>, ids: seq<Id>, pageMap: map<string, Id>) returns (rows: seq<MenuNode>)
    requires |ids| == |menus|
    ensures |rows| == |menus| && forall i | 0 <= i < |rows| :: rows[i] == MenuRow(sid, menus, ids, pageMap, i)
  {
    rows := [];
    var identityMap: map<string, Id>, labelMap: map<string, Id> := map[], map[];
    for i := 0 to |menus|
      invariant |rows| == i && forall k | 0 <= k < i :: rows[k] == MenuRow(sid, menus, ids, pageMap, k)
      invariant forall key :: AtIndex(identityMap, key, ids, LatestIdentity(menus, i, key))
      invariant forall name :: AtIndex(labelMap, name, ids, LatestNamed(menus, i, name))
    {
      var m := menus[i];
      ParentEarlier(menus, i);
      var parent: Option<Id> := None;
      if m.parentIdentity.Some? {
        LatestIdentityMeaning(menus, i, m.parentIdentity.value);
        assert AtIndex(identityMap, m.parentIdentity.value, ids, LatestIdentity(menus, i, m.parentIdentity.value));
        if m.parentIdentity.value in identityMap {
          parent := Some(identityMap[m.parentIdentity.value]);
        }
      }
      var name := m.parentName.GetOr("");
      assert AtIndex(labelMap, name, ids, LatestNamed(menus, i, name));
      if parent.None? && name in labelMap {
        parent := Some(labelMap[name]);
      }
      rows := rows + [MenuNode(ids[i], sid, parent, PageIdOf(pageMap, m), m.name, m.route, m.depth, m.sortOrder)];
      ghost var labels, next := labelMap, i + 1;
      labelMap := labelMap[m.name := ids[i]];
      forall key ensures AtIndex(labelMap, key, ids, LatestNamed(menus, next, key)) {
        assert AtIndex(labels, key, ids, LatestNamed(menus, i, key));
      }
      if m.identity.Some? {
        identityMap := identityMap[m.identity.value := ids[i]];
      }
    }
  }

  /** A map entry is the identifier at the position, absent when there is none. */
  ghost predicate AtIndex(m: map<string, Id>, key: string, ids: seq<Id>, at: Option<nat>) {
    match at
    case None => key !in m
    case Some(j) => j < |ids| && key in m && m[key] == ids[j]
  }

  // ---- Elements ----

  /** How a context is written as canonical JSON text. */
  type Render = map<string, string> -> string

  function ElementRow(sid: Id, id: Id, c: ElementCandidate, pageId: Id, render: Render): PageElement {
    PageElement(id, sid, pageId, c.kind, c.role, c.text, c.signature, render(c.context),
                if "entry_type" in c.context then Some(c.context["entry_type"]) else None)
  }

  predicate HasPage(pageMap: map<string, Id>, c: ElementCandidate) {
    c.pageRoute in pageMap
  }

  /** Elements without a page are skipped; identifiers are used up in order. */
  function ElementRows(sid: Id, elements: seq<ElementCandidate>, ids: seq<Id>, pageMap: map<string, Id>, render: Render): (rows: seq<PageElement>)
    requires |ids| == |elements|
    ensures |rows| <= |elements|
  {
    if elements == [] then []
    else
      var n := |elements| - 1;
      var rows := ElementRows(sid, elements[..n], ids[..n], pageMap, render);
      if HasPage(pageMap, elements[n]) then
        rows + [ElementRow(sid, ids[|rows|], elements[n], pageMap[elements[n].pageRoute], render)]
      else rows
  }

  method PersistElements(sid: Id, elements: seq<ElementCandidate>, ids: seq<Id>, pageMap: map<string, Id>, render: Render)
    returns (rows: seq<PageElement>)
    requires |ids| == |elements|
    ensures rows == ElementRows(sid, elements, ids, pageMap, render)
  {
    rows := [];
    for i := 0 to |elements|
      invariant |rows| <= i
      invariant rows == ElementRows(sid, elements[..i], ids[..i], pageMap, render)
    {
      TakeTake(elements, i);
      TakeTake(ids, i);
      if elements[i].pageRoute in pageMap {
        var e := elements[i];
        var entry := if "entry_type" in e.context then Some(e.context["entry_type"]) else None;
        rows := rows + [PageElement(ids[|rows|], sid, pageMap[e.pageRoute], e.kind, e.role, e.text, e.signature, render(e.context), entry)];
      }
    }
    assert elements[..|elements|] == elements && ids[..|ids|] == ids;
  }

  /** When every element has a page none is skipped. */
  lemma {:induction false} AllElementsKept(sid: Id, elements: seq<ElementCandidate>, ids: seq<Id>, pageMap: map<string, Id>, render: Render)
    requires |ids| == |elements| && forall e | e in elements :: HasPage(pageMap, e)
    ensures var rows := ElementRows(sid, elements, ids, pageMap, render);
            |rows| == |elements| && forall i | 0 <= i < |rows| ::
              HasPage(pageMap, elements[i]) && rows[i] == ElementRow(sid, ids[i], elements[i], pageMap[elements[i].pageRoute], render)
  {
    if elements != [] {
      var n := |elements| - 1;
      assert elements[n] in elements;
      forall e | e in elements[..n] ensures HasPage(pageMap, e) { assert e in elements; }
      AllElementsKept(sid, elements[..n], ids[..n], pageMap, render);
    }
  }

  // ---- A whole crawl ----

  datatype Ids = Ids(pages: seq<Id>, menus: seq<Id>, elements: seq<Id>)

  ghost predicate Enough(x: Extraction, ids: Ids) {
    |ids.pages| == |x.pages| && |ids.menus| == |x.menus| && |ids.elements| == |x.elements|
  }

  method PersistFacts(sid: Id, x: Extraction, ids: Ids, render: Render) returns (facts: Facts)
    requires Enough(x, ids)
    ensures facts == FactRows(sid, x, ids, render)
  {
    var pages, pageMap := PersistPages(sid, x.pages, ids.pages);
    var menus := PersistMenus(sid, x.menus, ids.menus, pageMap);
    var elements := PersistElements(sid, x.elements, ids.elements, pageMap, render);
    facts := Facts(pages, menus, elements);
  }

  function FactRows(sid: Id, x: Extraction, ids: Ids, render: Render): Facts
    requires Enough(x, ids)
  {
    var pageMap := PageMap(x.pages, ids.pages);
    Facts(
      seq(|x.pages|, i requires 0 <= i < |x.pages| => PageRow(sid, ids.pages[i], x.pages[i])),
      seq(|x.menus|, i requires 0 <= i < |x.menus| => MenuRow(sid, x.menus, ids.menus, pageMap, i)),
      ElementRows(sid, x.elements, ids.elements, pageMap, render))
  }

  /** Distinct page routes covering the routed menus and all elements: what combining delivers. */
  ghost predicate Covered(x: Extraction) {
    && (forall i, j | 0 <= i < j < |x.pages| :: x.pages[i].route != x.pages[j].route)
    && (forall m | m in x.menus && PageRef(m) != "" :: Offers(x.pages, PageRef(m)))
    && (forall e | e in x.elements :: Offers(x.pages, e.pageRoute))
  }

  lemma CombinedCovered(discovery: Extraction, dom: Extraction, probe: Extraction, x: Extraction)
    requires Proper(CombinedPages(discovery, dom, probe)) && x.pages == Values(CombinedPages(discovery, dom, probe))
    requires x.menus == CombinedMenus(discovery, dom, probe) && x.elements == CombinedElements(dom, probe)
    ensures Covered(x)
  {
    CombinedProper(discovery, dom, probe);
    var d := CombinedPages(discovery, dom, probe);
    forall r | r in d.at ensures Offers(x.pages, r) {
      assert r in d.keys;
      var i :| 0 <= i < |d.keys| && d.keys[i] == r;
      assert x.pages[i].route == r && x.pages[i] in x.pages;
    }
    forall m | m in x.menus && PageRef(m) != "" ensures Offers(x.pages, PageRef(m)) {
      assert Mentions(x.menus, PageRef(m));
    }
    forall e | e in x.elements ensures Offers(x.pages, e.pageRoute) {
      assert Hosts(x.elements, e.pageRoute);
    }
    forall i, j | 0 <= i < j < |x.pages| ensures x.pages[i].route != x.pages[j].route {
      assert d.keys[i] in d.at && d.keys[j] in d.at;
    }
  }

  ghost predicate HasRow(pages: seq<Page>, id: Id, route: string) {
    exists p :: p in pages && p.id == id && p.route == route
  }

  /** Every routed menu's row points to the page row with its route, every element has a row on the page
      row with its route, and no page, menu or element is lost. */
  lemma NothingHomeless(sid: Id, x: Extraction, ids: Ids, render: Render)
    requires Enough(x, ids) && Covered(x)
    ensures var f := FactRows(sid, x, ids, render);
            && |f.pages| == |x.pages| && |f.menus| == |x.menus| && |f.elements| == |x.elements|
            && (forall i | 0 <= i < |x.menus| && PageRef(x.menus[i]) != "" ::
                  f.menus[i].pageId.Some? && HasRow(f.pages, f.menus[i].pageId.value, PageRef(x.menus[i])))
            && (forall i | 0 <= i < |x.elements| :: HasRow(f.pages, f.elements[i].pageId, x.elements[i].pageRoute))
  {
    var f, pageMap := FactRows(sid, x, ids, render), PageMap(x.pages, ids.pages);
    forall e | e in x.elements ensures HasPage(pageMap, e) {
      PageFor(sid, x, ids, render, e.pageRoute);
    }
    AllElementsKept(sid, x.elements, ids.elements, pageMap, render);
    forall i | 0 <= i < |x.menus| && PageRef(x.menus[i]) != ""
      ensures f.menus[i].pageId.Some? && HasRow(f.pages, f.menus[i].pageId.value, PageRef(x.menus[i]))
    {
      assert x.menus[i] in x.menus;
      PageFor(sid, x, ids, render, PageRef(x.menus[i]));
    }
    forall i | 0 <= i < |x.elements| ensures HasRow(f.pages, f.elements[i].pageId, x.elements[i].pageRoute) {
      assert x.elements[i] in x.elements;
      PageFor(sid, x, ids, render, x.elements[i].pageRoute);
    }
  }

  lemma PageFor(sid: Id, x: Extraction, ids: Ids, render: Render, route: string)
    requires Enough(x, ids) && Covered(x) && Offers(x.pages, route)
    ensures var pageMap := PageMap(x.pages, ids.pages);
            route in pageMap && HasRow(FactRows(sid, x, ids, render).pages, pageMap[route], route)
  {
    PageMapMeaning(x.pages, ids.pages);
    var pages := FactRows(sid, x, ids, render).pages;
    var c :| c in x.pages && c.route == route;
    var i :| 0 <= i < |x.pages| && x.pages[i] == c;
    assert pages[i].id == ids.pages[i] && pages[i].route == route && pages[i] in pages;
  }

  /** What the written rows say: each page, menu and element with its own data, on the right page row. */
  lemma RowsTellAll(sid: Id, x: Extraction, ids: Ids, render: Render, i: nat)
    requires Enough(x, ids) && Covered(x)
    ensures var f := FactRows(sid, x, ids, render);
            && (i < |x.pages| ==>
                  && f.pages[i].id == ids.pages[i] && f.pages[i].snapshotId == sid && f.pages[i].route == x.pages[i].route
                  && f.pages[i].title == x.pages[i].title && f.pages[i].summary == x.pages[i].summary)
            && (i < |x.menus| ==>
                  && f.menus[i].id == ids.menus[i] && f.menus[i].snapshotId == sid && f.menus[i].name == x.menus[i].name
                  && f.menus[i].route == x.menus[i].route && f.menus[i].depth == x.menus[i].depth
                  && f.menus[i].sortOrder == x.menus[i].sortOrder)
            && (i < |x.elements| ==>
                  && i < |f.elements| && f.elements[i].id == ids.elements[i] && f.elements[i].snapshotId == sid
                  && f.elements[i].kind == x.elements[i].kind && f.elements[i].role == x.elements[i].role
                  && f.elements[i].text == x.elements[i].text && f.elements[i].stateSignature == x.elements[i].signature
                  && f.elements[i].stateContext == render(x.elements[i].context)
                  && f.elements[i].entryType
                     == (if "entry_type" in x.elements[i].context then Some(x.elements[i].context["entry_type"]) else None))
  {
    var pageMap := PageMap(x.pages, ids.pages);
    forall e | e in x.elements ensures HasPage(pageMap, e) {
      PageFor(sid, x, ids, render, e.pageRoute);
    }
    AllElementsKept(sid, x.elements, ids.elements, pageMap, render);
  }

  /** Row identifiers not used before and not used twice. */
  ghost predicate Fresh(ids: Ids, facts: Facts) {
    && Distinct(ids.pages) && Distinct(ids.menus) && Distinct(ids.elements)
    && (forall p | p in facts.pages :: p.id !in ids.pages)
    && (forall m | m in facts.menus :: m.id !in ids.menus)
    && (forall e | e in facts.elements :: e.id !in ids.elements)
  }

  /** A covered extraction written with fresh identifiers is a crawl as the snapshot corpus expects it. */
  lemma PersistedAdmissible(c: Corpus, crawl: Crawl, x: Extraction, ids: Ids, render: Render)
    requires Enough(x, ids) && Covered(x) && Fresh(ids, c.facts) && KeysDistinct(c.facts)
    requires crawl.id !in c.snapshots && crawl.facts == FactRows(crawl.id, x, ids, render)
    ensures Admissible(c, crawl)
  {
    RowsCarryIds(crawl.id, x, ids, render);
    PagesAdmissible(c.facts.pages, crawl.facts.pages, ids.pages);
    MenusAdmissible(c.facts.menus, crawl.facts.menus, ids.menus);
    ElementsAdmissible(c.facts.elements, crawl.facts.elements, ids.elements);
  }

  lemma RowsCarryIds(sid: Id, x: Extraction, ids: Ids, render: Render)
    requires Enough(x, ids) && Covered(x)
    ensures var f := FactRows(sid, x, ids, render);
            && |f.pages| == |ids.pages| && |f.menus| == |ids.menus| && |f.elements| == |ids.elements|
            && (forall i | 0 <= i < |f.pages| :: f.pages[i].id == ids.pages[i] && f.pages[i].snapshotId == sid)
            && (forall i | 0 <= i < |f.menus| :: f.menus[i].id == ids.menus[i] && f.menus[i].snapshotId == sid)
            && (forall i | 0 <= i < |f.elements| :: f.elements[i].id == ids.elements[i] && f.elements[i].snapshotId == sid)
  {
    forall e | e in x.elements ensures HasPage(PageMap(x.pages, ids.pages), e) {
      PageFor(sid, x, ids, render, e.pageRoute);
    }
    AllElementsKept(sid, x.elements, ids.elements, PageMap(x.pages, ids.pages), render);
  }

  lemma PagesAdmissible(stored: seq<Page>, rows: seq<Page>, ids: seq<Id>)
    requires |rows| == |ids| && Distinct(ids) && forall i | 0 <= i < |rows| :: rows[i].id == ids[i]
    requires (forall i, j | 0 <= i < j < |stored| :: stored[i].id != stored[j].id) && forall p | p in stored :: p.id !in ids
    ensures forall i, j | 0 <= i < j < |stored + rows| :: (stored + rows)[i].id != (stored + rows)[j].id
  {
  }

  lemma MenusAdmissible(stored: seq<MenuNode>, rows: seq<MenuNode>, ids: seq<Id>)
    requires |rows| == |ids| && Distinct(ids) && forall i | 0 <= i < |rows| :: rows[i].id == ids[i]
    requires (forall i, j | 0 <= i < j < |stored| :: stored[i].id != stored[j].id) && forall m | m in stored :: m.id !in ids
    ensures forall i, j | 0 <= i < j < |stored + rows| :: (stored + rows)[i].id != (stored + rows)[j].id
  {
  }

  lemma ElementsAdmissible(stored: seq<PageElement>, rows: seq<PageElement>, ids: seq<Id>)
    requires |rows| == |ids| && Distinct(ids) && forall i | 0 <= i < |rows| :: rows[i].id == ids[i]
    requires (forall i, j | 0 <= i < j < |stored| :: stored[i].id != stored[j].id) && forall e | e in stored :: e.id !in ids
    ensures forall i, j | 0 <= i < j < |stored + rows| :: (stored + rows)[i].id != (stored + rows)[j].id
  {
  }
}
