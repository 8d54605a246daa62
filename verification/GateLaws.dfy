/** When a compile may retire anything, read off the tables and the facts. */
module GateLaws {
  import opened Basics
  import opened Sorting
  import opened Text
  import opened Corpus
  import opened Reconciliation
  import opened AssetCompiler

  lemma {:induction false} RouteIndexMeaning(pages: seq<Page>, page: Page)
    requires page in pages && forall p | p in pages && p.id == page.id :: p == page
    ensures page.id in RouteIndex(pages) && RouteIndex(pages)[page.id] == Strip(page.route)
  {
    var front, last := pages[..|pages| - 1], pages[|pages| - 1];
    if last.id != page.id {
      assert page in front;
      RouteIndexMeaning(front, page);
    }
  }

  lemma {:induction false} FindPageMeaning(pages: seq<Page>, page: Page)
    requires page in pages && forall p | p in pages && p.id == page.id :: p == page
    ensures FindPage(pages, page.id) == Some(page)
  {
    var last := pages[|pages| - 1];
    if last.id != page.id {
      FindPageMeaning(pages[..|pages| - 1], page);
    } else {
      assert last in pages;
    }
  }

  // ---- Route counts ----

  /** The page of an asset in service of the system. */
  ghost predicate ServesPage(t: Tables, facts: Facts, systemId: Id, p: Page) {
    p in facts.pages
    && exists a :: a in t.assets && t.assets[a].lifecycle == InService && t.assets[a].systemId == systemId && t.assets[a].pageId == p.id
  }

  /** The distinct routes the system's assets in service had before the compile, a blank one included. */
  ghost function ServedRoutes(t: Tables, facts: Facts, systemId: Id): set<string> {
    set p | p in facts.pages && ServesPage(t, facts, systemId, p) :: Strip(p.route)
  }

  /** The distinct non-blank routes of the snapshot. */
  function SnapshotRoutes(facts: Facts, sid: Id): set<string> {
    set p | p in facts.pages && p.snapshotId == sid && Strip(p.route) != "" :: Strip(p.route)
  }

  /** The snapshot has fewer than half of the routes served before. */
  ghost predicate Collapsed(t: Tables, facts: Facts, sid: Id, systemId: Id) {
    2 * |SnapshotRoutes(facts, sid)| < |ServedRoutes(t, facts, systemId)|
  }

  predicate Trusted(row: Snapshot) {
    row.crawlType == "full" && !row.degraded && row.quality.Some? && row.quality.value >= 0.7
  }

  lemma CurrentRoutes(facts: Facts, sid: Id)
    requires KeysDistinct(facts)
    ensures RouteIndex(Sort(PagesOf(facts, sid), PageOrder)).Values - {""} == SnapshotRoutes(facts, sid)
  {
    var pages := Sort(PagesOf(facts, sid), PageOrder);
    SortMembers(PagesOf(facts, sid), PageOrder);
    FilterMembers(facts.pages, PageIn(sid));
    KeysIdentify(facts);
    forall p | p in pages ensures p.id in RouteIndex(pages) && RouteIndex(pages)[p.id] == Strip(p.route) {
      RouteIndexMeaning(pages, p);
    }
    forall route | route in RouteIndex(pages).Values ensures exists p :: p in pages && Strip(p.route) == route {
      var id :| id in RouteIndex(pages) && RouteIndex(pages)[id] == route;
      var p := RouteIndexPage(pages, id);
    }
  }

  lemma {:induction false} RouteIndexPage(pages: seq<Page>, id: Id) returns (p: Page)
    requires id in RouteIndex(pages)
    ensures p in pages && p.id == id && RouteIndex(pages)[id] == Strip(p.route)
  {
    p := pages[|pages| - 1];
    if p.id != id {
      p := RouteIndexPage(pages[..|pages| - 1], id);
    }
  }

  lemma {:induction false} FoundPage(pages: seq<Page>, id: Id)
    ensures FindPage(pages, id).Some? ==> FindPage(pages, id).value in pages && FindPage(pages, id).value.id == id
  {
    if pages != [] && pages[|pages| - 1].id != id {
      FoundPage(pages[..|pages| - 1], id);
    }
  }

  lemma CountedServed(t: Tables, facts: Facts, systemId: Id, route: string)
    requires KeysDistinct(facts) && route in CountedRoutes(t, facts.pages, systemId)
    ensures route in ServedRoutes(t, facts, systemId)
  {
    var assets := ActiveAssets(t, systemId);
    ActiveAssetsKnown(t, systemId);
    var id :| id in assets && id in t.assets && FindPage(facts.pages, t.assets[id].pageId).Some?
              && AssetRoute(t, facts.pages, id) == route;
    FoundPage(facts.pages, t.assets[id].pageId);
    assert ServesPage(t, facts, systemId, FindPage(facts.pages, t.assets[id].pageId).value);
  }

  lemma ServedCounted(t: Tables, facts: Facts, systemId: Id, route: string)
    requires KeysDistinct(facts) && route in ServedRoutes(t, facts, systemId)
    ensures route in CountedRoutes(t, facts.pages, systemId)
  {
    ActiveAssetsKnown(t, systemId);
    KeysIdentify(facts);
    var p :| p in facts.pages && ServesPage(t, facts, systemId, p) && Strip(p.route) == route;
    var a :| a in t.assets && t.assets[a].lifecycle == InService && t.assets[a].systemId == systemId && t.assets[a].pageId == p.id;
    FindPageMeaning(facts.pages, p);
    assert a in ActiveAssets(t, systemId) && AssetRoute(t, facts.pages, a) == route;
  }

  lemma PreviousRoutes(t: Tables, facts: Facts, systemId: Id)
    requires KeysDistinct(facts)
    ensures CountedRoutes(t, facts.pages, systemId) == ServedRoutes(t, facts, systemId)
  {
    forall route | route in CountedRoutes(t, facts.pages, systemId) ensures route in ServedRoutes(t, facts, systemId) {
      CountedServed(t, facts, systemId, route);
    }
    forall route | route in ServedRoutes(t, facts, systemId) ensures route in CountedRoutes(t, facts.pages, systemId) {
      ServedCounted(t, facts, systemId, route);
    }
  }

  /** The gate is open exactly for a full, undegraded snapshot that scores at least 0.7 and has not
      collapsed. */
  lemma GateMeaning(t: Tables, facts: Facts, sid: Id, row: Snapshot)
    requires KeysDistinct(facts)
    ensures GateFor(t, facts, sid, row).allow <==> Trusted(row) && !Collapsed(t, facts, sid, row.systemId)
  {
    CurrentRoutes(facts, sid);
    PreviousRoutes(t, facts, row.systemId);
  }
}
