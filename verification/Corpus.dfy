/** Crawled facts, the current-state switch and the crawl job's draft bookkeeping:
    `asset_compiler/current_state_switch.py`, `jobs/crawl_job.py` and the tables they write.

    Identifiers are numbers; UUID order is numeric order. Database errors are rollbacks, that is,
    steps without effect. */
module Corpus {
  import opened Basics
  import opened Sorting
  import opened Text
  import SemanticDiff

  type Id = nat

  type Time = int

  datatype SnapshotState = Draft | Active | Discarded

  datatype Snapshot = Snapshot(
    systemId: Id, crawlType: string, degraded: bool, quality: Option<real>, state: SnapshotState,
    activatedAt: Option<Time>, discardedAt: Option<Time>, failureReason: Option<string>, startedAt: Time)

  datatype Page = Page(id: Id, snapshotId: Id, route: string, title: Option<string>, summary: Option<string>)

  datatype MenuNode = MenuNode(
    id: Id, snapshotId: Id, parentId: Option<Id>, pageId: Option<Id>, name: string, route: Option<string>,
    depth: int, sortOrder: int)

  /** `stateContext` is the canonical JSON text of the stored context, `entryType` its entry. */
  datatype PageElement = PageElement(
    id: Id, snapshotId: Id, pageId: Id, kind: string, role: Option<string>, text: Option<string>,
    stateSignature: Option<string>, stateContext: string, entryType: Option<string>)

  datatype Facts = Facts(pages: seq<Page>, menus: seq<MenuNode>, elements: seq<PageElement>)

  datatype SnapshotHist = SnapshotHist(snapshotId: Id, row: Snapshot, replacedBy: Id, reason: string)

  datatype Corpus = Corpus(
    snapshots: map<Id, Snapshot>, facts: Facts, snapshotHist: seq<SnapshotHist>, factHist: Facts,
    compileTargets: set<Id>)

  datatype SwitchOutcome = Promoted(archived: Option<Id>) | DiscardedLowQuality | DiscardedNoChange(active: Id)

  datatype SwitchError = NotFound | NotDraft | BadRoutes(error: SemanticDiff.RouteError)

  const SEMANTIC_CHANGE := "semantic_change"

  const SUPERSEDED := "superseded_by_newer_draft"

  // ---- Facts of one snapshot ----

  function PageIdLe(a: Page, b: Page): bool { a.id <= b.id }

  function MenuIdLe(a: MenuNode, b: MenuNode): bool { a.id <= b.id }

  function ElementIdLe(a: PageElement, b: PageElement): bool { a.id <= b.id }

  function PageIn(sid: Id): Page -> bool {
    (p: Page) => p.snapshotId == sid
  }

  function MenuIn(sid: Id): MenuNode -> bool {
    (m: MenuNode) => m.snapshotId == sid
  }

  function ElementIn(sid: Id): PageElement -> bool {
    (e: PageElement) => e.snapshotId == sid
  }

  function PagesOf(facts: Facts, sid: Id): seq<Page> {
    Filter(facts.pages, PageIn(sid))
  }

  function MenusOf(facts: Facts, sid: Id): seq<MenuNode> {
    Filter(facts.menus, MenuIn(sid))
  }

  function ElementsOf(facts: Facts, sid: Id): seq<PageElement> {
    Filter(facts.elements, ElementIn(sid))
  }

  function FactsOf(facts: Facts, sid: Id): Facts {
    Facts(
      Sort(PagesOf(facts, sid), PageIdLe),
      Sort(MenusOf(facts, sid), MenuIdLe),
      Sort(ElementsOf(facts, sid), ElementIdLe))
  }

  function Append(a: Facts, b: Facts): Facts {
    Facts(a.pages + b.pages, a.menus + b.menus, a.elements + b.elements)
  }

  const NO_FACTS := Facts([], [], [])

  // ---- Semantic state of a snapshot ----

  predicate PageOrder(a: Page, b: Page) {
    if a.route != b.route then StrLe(a.route, b.route) else a.id <= b.id
  }

  /** Rows without a page come first, as in the queries that order by page. */
  function PageRank(pageId: Option<Id>): int {
    match pageId case None => -1 case Some(id) => id
  }

  predicate DisplayOrder(a: MenuNode, b: MenuNode) {
    if a.depth != b.depth then a.depth < b.depth
    else if a.sortOrder != b.sortOrder then a.sortOrder < b.sortOrder
    else a.id <= b.id
  }

  predicate PageThenDisplayOrder(a: MenuNode, b: MenuNode) {
    if a.pageId != b.pageId then PageRank(a.pageId) < PageRank(b.pageId) else DisplayOrder(a, b)
  }

  predicate ElementOrder(a: PageElement, b: PageElement) {
    if a.pageId != b.pageId then a.pageId < b.pageId
    else if a.kind != b.kind then StrLe(a.kind, b.kind)
    else a.id <= b.id
  }

  function OnPage(pageId: Id): MenuNode -> bool {
    (m: MenuNode) => m.pageId == Some(pageId)
  }

  function ElementOn(pageId: Id): PageElement -> bool {
    (e: PageElement) => e.pageId == pageId
  }

  predicate NonBlank(text: string) {
    Strip(text) != ""
  }

  function NameOf(m: MenuNode): string { m.name }

  function SemanticElement(e: PageElement): SemanticDiff.RawElement {
    SemanticDiff.RawElement(
      Some(e.kind), e.role,
      Some(Normalized(e.text) + "|state=" + Normalized(e.stateSignature) + "|context=" + e.stateContext))
  }

  function PageFingerprint(facts: Facts, sid: Id, page: Page): SemanticDiff.Fingerprint {
    var menus := Filter(Sort(MenusOf(facts, sid), PageThenDisplayOrder), OnPage(page.id));
    var elements := Filter(Sort(ElementsOf(facts, sid), ElementOrder), ElementOn(page.id));
    SemanticDiff.MakeFingerprint(
      Some(page.route), page.title,
      Filter(Map(menus, NameOf), NonBlank),
      Map(elements, SemanticElement))
  }

  function PageFingerprints(facts: Facts, sid: Id, pages: seq<Page>): (r: seq<SemanticDiff.Fingerprint>)
    ensures |r| == |pages|
  {
    if pages == [] then []
    else PageFingerprints(facts, sid, pages[..|pages| - 1]) + [PageFingerprint(facts, sid, pages[|pages| - 1])]
  }

  function SemanticState(facts: Facts, sid: Id): seq<SemanticDiff.Fingerprint> {
    PageFingerprints(facts, sid, Sort(PagesOf(facts, sid), PageOrder))
  }

  // ---- Current-state switch ----

  predicate HighQuality(s: Snapshot) {
    s.crawlType == "full" && !s.degraded && s.quality.Some? && s.quality.value >= 0.9
  }

  predicate IsActive(snapshots: map<Id, Snapshot>, id: Id) {
    id in snapshots && snapshots[id].state == Active
  }

  function ActiveIn(snapshots: map<Id, Snapshot>, systemId: Id): set<Id> {
    set id | id in snapshots && snapshots[id].state == Active && snapshots[id].systemId == systemId
  }

  function RowTimes(snapshots: map<Id, Snapshot>, id: Id): (Time, Time) {
    if id !in snapshots then (0, 0)
    else (match snapshots[id].activatedAt case None => 0 case Some(t) => t, snapshots[id].startedAt)
  }

  /** Newest activation first, then newest start, then greatest identifier. */
  predicate Newer(snapshots: map<Id, Snapshot>, a: Id, b: Id) {
    var x, y := RowTimes(snapshots, a), RowTimes(snapshots, b);
    if x.0 != y.0 then x.0 > y.0 else if x.1 != y.1 then x.1 > y.1 else a >= b
  }

  function NewestFirst(snapshots: map<Id, Snapshot>): (Id, Id) -> bool {
    (a: Id, b: Id) => Newer(snapshots, a, b)
  }

  lemma NewestFirstOrder(snapshots: map<Id, Snapshot>)
    ensures TotalOrder(NewestFirst(snapshots))
  {
  }

  lemma NewestExists(snapshots: map<Id, Snapshot>, rows: set<Id>)
    requires rows != {}
    ensures exists x :: x in rows && forall y | y in rows :: Newer(snapshots, x, y)
    ensures forall x, y :: Newer(snapshots, x, y) && Newer(snapshots, y, x) ==> x == y
  {
    NewestFirstOrder(snapshots);
    LeastExists(rows, NewestFirst(snapshots));
    var x :| x in rows && forall y | y in rows :: NewestFirst(snapshots)(x, y);
    forall y | y in rows ensures Newer(snapshots, x, y) {
      assert NewestFirst(snapshots)(x, y);
    }
  }

  function Newest(snapshots: map<Id, Snapshot>, rows: set<Id>): Id
    requires rows != {}
  {
    NewestExists(snapshots, rows);
    var x :| x in rows && forall y | y in rows :: Newer(snapshots, x, y);
    x
  }

  function LoadActive(snapshots: map<Id, Snapshot>, systemId: Id, exclude: Id): Option<Id> {
    var rows := ActiveIn(snapshots, systemId) - {exclude};
    if rows == {} then None else Some(Newest(snapshots, rows))
  }

  /** Activated later, or at the same time and started later, or both at the same time and not smaller. */
  ghost predicate NoEarlier(s: Snapshot, id: Id, t: Snapshot, other: Id) {
    var a, b := s.activatedAt.GetOr(0), t.activatedAt.GetOr(0);
    a > b || (a == b && (s.startedAt > t.startedAt || (s.startedAt == t.startedAt && id >= other)))
  }

  lemma LoadActiveMeaning(snapshots: map<Id, Snapshot>, systemId: Id, exclude: Id)
    ensures var r := LoadActive(snapshots, systemId, exclude);
            && (r.None? <==> ActiveIn(snapshots, systemId) <= {exclude})
            && (r.Some? ==> r.value in ActiveIn(snapshots, systemId) && r.value != exclude)
            && (r.Some? ==> forall id | id in ActiveIn(snapshots, systemId) && id != exclude :: NoEarlier(snapshots[r.value], r.value, snapshots[id], id))
  {
    var rows := ActiveIn(snapshots, systemId) - {exclude};
    if rows != {} {
      NewestExists(snapshots, rows);
      var r := Newest(snapshots, rows);
      forall id | id in rows ensures NoEarlier(snapshots[r], r, snapshots[id], id) {
        assert Newer(snapshots, r, id);
      }
    }
  }

  function Discard(s: Snapshot, now: Time): Snapshot {
    s.(state := Discarded, discardedAt := Some(now))
  }

  function Activate(s: Snapshot, now: Time): Snapshot {
    s.(state := Active, activatedAt := Some(now), discardedAt := None)
  }

  function HistoryRow(c: Corpus, active: Id, draft: Id): SnapshotHist
    requires active in c.snapshots
  {
    SnapshotHist(active, c.snapshots[active], draft, SEMANTIC_CHANGE)
  }

  /** Archive the active snapshot with its facts, discard it, then activate the draft. */
  function Replace(c: Corpus, active: Id, draft: Id, now: Time): Corpus
    requires active in c.snapshots && draft in c.snapshots
  {
    c.(
    snapshotHist := c.snapshotHist + [HistoryRow(c, active, draft)],
    factHist := Append(c.factHist, FactsOf(c.facts, active)),
    snapshots := c.snapshots[active := Discard(c.snapshots[active], now)][draft := Activate(c.snapshots[draft], now)])
  }

  function Switch(c: Corpus, draft: Id, now: Time): (Corpus, Result<SwitchOutcome, SwitchError>) {
    if draft !in c.snapshots then (c, Err(NotFound))
    else
      var row := c.snapshots[draft];
      if row.state == Active then (c, Ok(Promoted(None)))
      else if row.state != Draft then (c, Err(NotDraft))
      else if !HighQuality(row) then
        (c.(snapshots := c.snapshots[draft := Discard(row, now)]), Ok(DiscardedLowQuality))
      else
        LoadActiveMeaning(c.snapshots, row.systemId, draft);
        match LoadActive(c.snapshots, row.systemId, draft)
        case None => (c.(snapshots := c.snapshots[draft := Activate(row, now)]), Ok(Promoted(None)))
        case Some(active) =>
          match SemanticDiff.Compare(SemanticState(c.facts, active), SemanticState(c.facts, draft))
          case Err(e) => (c, Err(BadRoutes(e)))
          case Ok(diff) =>
            if !diff.HasChanges() then
              (c.(snapshots := c.snapshots[draft := Discard(row, now)]), Ok(DiscardedNoChange(active)))
            else (Replace(c, active, draft, now), Ok(Promoted(Some(active))))
  }

  // ---- Crawl job ----

  /** What a crawl writes: one snapshot row and its facts. */
  datatype Crawl = Crawl(
    id: Id, systemId: Id, crawlType: string, degraded: bool, quality: Option<real>,
    failureReason: Option<string>, startedAt: Time, facts: Facts)

  /** The database's keys: the snapshot is new, its rows carry its identifier, and row identifiers are
      new and distinct. */
  ghost predicate Admissible(c: Corpus, crawl: Crawl) {
    && crawl.id !in c.snapshots
    && (forall p | p in crawl.facts.pages :: p.snapshotId == crawl.id)
    && (forall m | m in crawl.facts.menus :: m.snapshotId == crawl.id)
    && (forall e | e in crawl.facts.elements :: e.snapshotId == crawl.id)
    && KeysDistinct(Append(c.facts, crawl.facts))
  }

  /** Primary keys. */
  ghost predicate KeysDistinct(facts: Facts) {
    && (forall i, j | 0 <= i < j < |facts.pages| :: facts.pages[i].id != facts.pages[j].id)
    && (forall i, j | 0 <= i < j < |facts.menus| :: facts.menus[i].id != facts.menus[j].id)
    && (forall i, j | 0 <= i < j < |facts.elements| :: facts.elements[i].id != facts.elements[j].id)
  }

  lemma KeysIdentify(facts: Facts)
    requires KeysDistinct(facts)
    ensures forall p, q | p in facts.pages && q in facts.pages && p.id == q.id :: p == q
    ensures forall a, b | a in facts.menus && b in facts.menus && a.id == b.id :: a == b
  {
    forall p, q | p in facts.pages && q in facts.pages && p.id == q.id ensures p == q {
      var i :| 0 <= i < |facts.pages| && facts.pages[i] == p;
      var j :| 0 <= j < |facts.pages| && facts.pages[j] == q;
    }
    forall a, b | a in facts.menus && b in facts.menus && a.id == b.id ensures a == b {
      var i :| 0 <= i < |facts.menus| && facts.menus[i] == a;
      var j :| 0 <= j < |facts.menus| && facts.menus[j] == b;
    }
  }

  function DraftRow(crawl: Crawl): Snapshot {
    Snapshot(crawl.systemId, crawl.crawlType, crawl.degraded, crawl.quality, Draft, None, None,
             crawl.failureReason, crawl.startedAt)
  }

  function PersistCrawl(c: Corpus, crawl: Crawl): Corpus {
    c.(snapshots := c.snapshots[crawl.id := DraftRow(crawl)], facts := Append(c.facts, crawl.facts))
  }

  /** A draft of the system that is neither the one to keep nor named by an asset-compile job. */
  predicate Superseded(c: Corpus, systemId: Id, keep: Id, id: Id)
    requires id in c.snapshots
  {
    && c.snapshots[id].systemId == systemId && c.snapshots[id].state == Draft
    && id != keep && id !in c.compileTargets
  }

  function Supersede(s: Snapshot, now: Time): Snapshot {
    Discard(s, now).(failureReason := Some(SUPERSEDED))
  }

  function DiscardSuperseded(c: Corpus, systemId: Id, keep: Id, now: Time): Corpus {
    c.(snapshots := map id | id in c.snapshots ::
         if Superseded(c, systemId, keep, id) then Supersede(c.snapshots[id], now) else c.snapshots[id])
  }

  function CrawlSucceeded(c: Corpus, crawl: Crawl, now: Time): Corpus {
    var persisted := PersistCrawl(c, crawl);
    var swept := DiscardSuperseded(persisted, crawl.systemId, crawl.id, now);
    swept.(compileTargets := swept.compileTargets + {crawl.id})
  }

  /** After a successful crawl: its own row is a draft with its data, its facts are appended, a compile of it
      is requested, and of the other rows exactly the drafts of its system that no compile request names
      are discarded as superseded. */
  lemma CrawlRecorded(c: Corpus, crawl: Crawl, now: Time, id: Id)
    requires crawl.id !in c.snapshots
    ensures var d := CrawlSucceeded(c, crawl, now);
            && d.snapshots.Keys == c.snapshots.Keys + {crawl.id}
            && d.facts == Facts(c.facts.pages + crawl.facts.pages, c.facts.menus + crawl.facts.menus, c.facts.elements + crawl.facts.elements)
            && d.compileTargets == c.compileTargets + {crawl.id} && d.snapshotHist == c.snapshotHist && d.factHist == c.factHist
            && d.snapshots[crawl.id] == Snapshot(crawl.systemId, crawl.crawlType, crawl.degraded, crawl.quality, Draft, None, None,
                                                 crawl.failureReason, crawl.startedAt)
            && (id in c.snapshots ==>
                  d.snapshots[id] ==
                  if c.snapshots[id].systemId == crawl.systemId && c.snapshots[id].state == Draft && id !in c.compileTargets then
                    c.snapshots[id].(state := Discarded, discardedAt := Some(now), failureReason := Some("superseded_by_newer_draft"))
                  else c.snapshots[id])
  {
  }

  /** What is archived with a snapshot: exactly its rows, by identifier. */
  lemma FactsOfMeaning(facts: Facts, sid: Id)
    ensures var f := FactsOf(facts, sid);
            && (forall p :: p in f.pages <==> p in facts.pages && p.snapshotId == sid)
            && (forall m :: m in f.menus <==> m in facts.menus && m.snapshotId == sid)
            && (forall e :: e in f.elements <==> e in facts.elements && e.snapshotId == sid)
            && |f.pages| == |PagesOf(facts, sid)| && |f.menus| == |MenusOf(facts, sid)| && |f.elements| == |ElementsOf(facts, sid)|
    ensures var f := FactsOf(facts, sid);
            && (forall i, j | 0 <= i < j < |f.pages| :: f.pages[i].id <= f.pages[j].id)
            && (forall i, j | 0 <= i < j < |f.menus| :: f.menus[i].id <= f.menus[j].id)
            && (forall i, j | 0 <= i < j < |f.elements| :: f.elements[i].id <= f.elements[j].id)
  {
    FilterMembers(facts.pages, PageIn(sid));
    FilterMembers(facts.menus, MenuIn(sid));
    FilterMembers(facts.elements, ElementIn(sid));
    SortMembers(PagesOf(facts, sid), PageIdLe);
    SortMembers(MenusOf(facts, sid), MenuIdLe);
    SortMembers(ElementsOf(facts, sid), ElementIdLe);
    SortSorts(PagesOf(facts, sid), PageIdLe);
    SortSorts(MenusOf(facts, sid), MenuIdLe);
    SortSorts(ElementsOf(facts, sid), ElementIdLe);
  }
}
