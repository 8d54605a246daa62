/** What every run of crawls and switches keeps: one active snapshot per system, and a history that is
    a linear chain of exactly the replaced snapshots together with exactly their facts. */
module CorpusHistory {
  import opened Basics
  import opened Corpus
  import SemanticDiff

  // ---- Invariant ----

  ghost predicate AtMostOneActive(c: Corpus) {
    forall a, b | IsActive(c.snapshots, a) && IsActive(c.snapshots, b) :: c.snapshots[a].systemId == c.snapshots[b].systemId ==> a == b
  }

  ghost predicate ActiveAreHighQuality(c: Corpus) {
    forall id | IsActive(c.snapshots, id) :: HighQuality(c.snapshots[id])
  }

  ghost predicate Archived(c: Corpus, id: Id) {
    exists i :: 0 <= i < |c.snapshotHist| && c.snapshotHist[i].snapshotId == id
  }

  /** The archived snapshots are the replaced ones, each once, and each row is the one that was active. */
  ghost predicate HistoryExact(c: Corpus) {
    && (forall i, j | 0 <= i < j < |c.snapshotHist| :: c.snapshotHist[i].snapshotId != c.snapshotHist[j].snapshotId)
    && (forall i | 0 <= i < |c.snapshotHist| :: FaithfulRow(c, c.snapshotHist[i]))
    && (forall id | id in c.snapshots :: c.snapshots[id].activatedAt.Some? <==> c.snapshots[id].state == Active || Archived(c, id))
  }

  ghost predicate FaithfulRow(c: Corpus, h: SnapshotHist) {
    && h.snapshotId in c.snapshots
    && c.snapshots[h.snapshotId].state == Discarded
    && h.row.state == Active
    && h.row == c.snapshots[h.snapshotId].(state := Active, discardedAt := h.row.discardedAt)
  }

  function RowIn(systemId: Id): SnapshotHist -> bool {
    (h: SnapshotHist) => h.row.systemId == systemId
  }

  function RowsOf(hist: seq<SnapshotHist>, systemId: Id): seq<SnapshotHist> {
    Filter(hist, RowIn(systemId))
  }

  /** Each row was replaced by the next row's snapshot, the last one by `current`. */
  ghost predicate ChainTo(rows: seq<SnapshotHist>, current: Id) {
    && (forall i, j | 0 <= i < |rows| && j == i + 1 < |rows| :: rows[i].replacedBy == rows[j].snapshotId)
    && (rows != [] ==> rows[|rows| - 1].replacedBy == current)
  }

  ghost predicate Linked(c: Corpus) {
    && (forall id | IsActive(c.snapshots, id) :: ChainTo(RowsOf(c.snapshotHist, c.snapshots[id].systemId), id))
    && (forall s | ActiveIn(c.snapshots, s) == {} :: RowsOf(c.snapshotHist, s) == [])
  }

  /** The facts of the archived snapshots, snapshot by snapshot. */
  function ArchivedFacts(facts: Facts, hist: seq<SnapshotHist>): Facts {
    if hist == [] then NO_FACTS
    else Append(ArchivedFacts(facts, hist[..|hist| - 1]), FactsOf(facts, hist[|hist| - 1].snapshotId))
  }

  ghost predicate FactsConserved(c: Corpus) {
    c.factHist == ArchivedFacts(c.facts, c.snapshotHist)
  }

  ghost predicate FactsOwned(c: Corpus) {
    && (forall p | p in c.facts.pages :: p.snapshotId in c.snapshots)
    && (forall m | m in c.facts.menus :: m.snapshotId in c.snapshots)
    && (forall e | e in c.facts.elements :: e.snapshotId in c.snapshots)
    && KeysDistinct(c.facts)
  }

  ghost predicate Inv(c: Corpus) {
    && AtMostOneActive(c) && ActiveAreHighQuality(c) && HistoryExact(c) && Linked(c)
    && FactsConserved(c) && FactsOwned(c)
  }

  const EMPTY := Corpus(map[], NO_FACTS, [], NO_FACTS, {})

  lemma EmptyInv()
    ensures Inv(EMPTY)
  {
  }

  // ---- Steps that only discard drafts ----

  ghost predicate DraftsDropped(c: Corpus, d: Corpus) {
    && d.snapshots.Keys == c.snapshots.Keys
    && d.facts == c.facts && d.snapshotHist == c.snapshotHist && d.factHist == c.factHist
    && forall id | id in c.snapshots :: d.snapshots[id] == c.snapshots[id] || DroppedDraft(c.snapshots[id], d.snapshots[id])
  }

  ghost predicate DroppedDraft(s: Snapshot, t: Snapshot) {
    s.state == Draft && t.state == Discarded && t.activatedAt == s.activatedAt && t.systemId == s.systemId
  }

  lemma DraftsDroppedActive(c: Corpus, d: Corpus)
    requires DraftsDropped(c, d)
    ensures forall id :: IsActive(d.snapshots, id) <==> IsActive(c.snapshots, id)
    ensures forall id | IsActive(d.snapshots, id) :: d.snapshots[id] == c.snapshots[id]
    ensures forall s :: ActiveIn(d.snapshots, s) == ActiveIn(c.snapshots, s)
  {
    forall s ensures ActiveIn(d.snapshots, s) == ActiveIn(c.snapshots, s) {
      forall id ensures id in ActiveIn(d.snapshots, s) <==> id in ActiveIn(c.snapshots, s) {
        if id in c.snapshots { assert id in d.snapshots; }
      }
    }
  }

  lemma DraftsDroppedInv(c: Corpus, d: Corpus)
    requires Inv(c) && DraftsDropped(c, d)
    ensures Inv(d)
  {
    DraftsDroppedActive(c, d);
    assert forall id :: Archived(d, id) <==> Archived(c, id);
    forall i | 0 <= i < |d.snapshotHist| ensures FaithfulRow(d, d.snapshotHist[i]) {
      assert FaithfulRow(c, c.snapshotHist[i]);
    }
    assert HistoryExact(d) by {
      forall id | id in d.snapshots
        ensures d.snapshots[id].activatedAt.Some? <==> d.snapshots[id].state == Active || Archived(d, id)
      {
        assert id in c.snapshots;
      }
    }
  }

  // ---- Crawl ----

  lemma NoneFiltered<T(!new)>(s: seq<T>, p: T -> bool)
    requires forall x | x in s :: !p(x)
    ensures Filter(s, p) == []
  {
    FilterMembers(s, p);
    if Filter(s, p) != [] {
      assert Filter(s, p)[0] in Filter(s, p);
    }
  }

  lemma ForeignFacts(old_: Facts, new_: Facts, sid: Id)
    requires forall p | p in new_.pages :: p.snapshotId != sid
    requires forall m | m in new_.menus :: m.snapshotId != sid
    requires forall e | e in new_.elements :: e.snapshotId != sid
    ensures FactsOf(Append(old_, new_), sid) == FactsOf(old_, sid)
  {
    FilterAppend(old_.pages, new_.pages, PageIn(sid));
    FilterAppend(old_.menus, new_.menus, MenuIn(sid));
    FilterAppend(old_.elements, new_.elements, ElementIn(sid));
    NoneFiltered(new_.pages, PageIn(sid));
    NoneFiltered(new_.menus, MenuIn(sid));
    NoneFiltered(new_.elements, ElementIn(sid));
    assert PagesOf(old_, sid) + [] == PagesOf(old_, sid);
    assert MenusOf(old_, sid) + [] == MenusOf(old_, sid);
    assert ElementsOf(old_, sid) + [] == ElementsOf(old_, sid);
  }

  lemma {:induction false} ArchiveUntouchedByCrawl(c: Corpus, crawl: Crawl, hist: seq<SnapshotHist>)
    requires Admissible(c, crawl) && forall h | h in hist :: h.snapshotId in c.snapshots
    ensures ArchivedFacts(Append(c.facts, crawl.facts), hist) == ArchivedFacts(c.facts, hist)
  {
    if hist != [] {
      var last := hist[|hist| - 1];
      assert last in hist;
      ArchiveUntouchedByCrawl(c, crawl, hist[..|hist| - 1]);
      ForeignFacts(c.facts, crawl.facts, last.snapshotId);
    }
  }

  /** Rows added as drafts, everything else untouched, keep the snapshot part of the invariant. */
  lemma PersistRows(c: Corpus, crawl: Crawl)
    requires Inv(c) && Admissible(c, crawl)
    ensures var d := PersistCrawl(c, crawl);
            AtMostOneActive(d) && ActiveAreHighQuality(d) && HistoryExact(d)
    ensures forall id :: IsActive(PersistCrawl(c, crawl).snapshots, id) <==> IsActive(c.snapshots, id)
  {
    var d := PersistCrawl(c, crawl);
    assert forall id :: IsActive(d.snapshots, id) <==> IsActive(c.snapshots, id);
    forall i | 0 <= i < |c.snapshotHist| ensures FaithfulRow(d, d.snapshotHist[i]) {
      assert FaithfulRow(c, c.snapshotHist[i]);
    }
    forall id | id in d.snapshots
      ensures d.snapshots[id].activatedAt.Some? <==> d.snapshots[id].state == Active || Archived(d, id)
    {
      assert Archived(d, id) <==> Archived(c, id);
    }
  }

  lemma PersistFacts(c: Corpus, crawl: Crawl)
    requires Inv(c) && Admissible(c, crawl)
    ensures FactsConserved(PersistCrawl(c, crawl)) && FactsOwned(PersistCrawl(c, crawl))
  {
    forall h | h in c.snapshotHist ensures h.snapshotId in c.snapshots {
      assert FaithfulRow(c, h);
    }
    ArchiveUntouchedByCrawl(c, crawl, c.snapshotHist);
  }

  lemma SameActives(c: Corpus, d: Corpus, s: Id)
    requires forall id | IsActive(c.snapshots, id) :: IsActive(d.snapshots, id) && d.snapshots[id].systemId == c.snapshots[id].systemId
    requires ActiveIn(d.snapshots, s) == {}
    ensures ActiveIn(c.snapshots, s) == {}
  {
    forall id ensures id !in ActiveIn(c.snapshots, s) {
      assert id !in ActiveIn(d.snapshots, s);
      if id in ActiveIn(c.snapshots, s) { assert IsActive(c.snapshots, id); }
    }
  }

  lemma PersistInv(c: Corpus, crawl: Crawl)
    requires Inv(c) && Admissible(c, crawl)
    ensures Inv(PersistCrawl(c, crawl))
  {
    var d := PersistCrawl(c, crawl);
    PersistRows(c, crawl);
    PersistFacts(c, crawl);
    forall s | ActiveIn(d.snapshots, s) == {} ensures RowsOf(d.snapshotHist, s) == [] {
      SameActives(c, d, s);
    }
    forall id | IsActive(d.snapshots, id) ensures ChainTo(RowsOf(d.snapshotHist, d.snapshots[id].systemId), id) {
      assert IsActive(c.snapshots, id);
    }
  }

  lemma CrawlInv(c: Corpus, crawl: Crawl, now: Time)
    requires Inv(c) && Admissible(c, crawl)
    ensures Inv(CrawlSucceeded(c, crawl, now))
  {
    PersistInv(c, crawl);
    DraftsDroppedInv(PersistCrawl(c, crawl), CrawlSucceeded(c, crawl, now));
  }

  /** After a successful crawl every draft the system still has is named by an asset-compile job, and no
      other system's snapshots have moved. */
  lemma CrawlCoversDrafts(c: Corpus, crawl: Crawl, now: Time)
    ensures var d := CrawlSucceeded(c, crawl, now);
            && (forall id | id in d.snapshots && d.snapshots[id].systemId == crawl.systemId && d.snapshots[id].state == Draft ::
                  id in d.compileTargets)
            && (forall id | id in c.snapshots && id != crawl.id && c.snapshots[id].systemId != crawl.systemId ::
                  d.snapshots[id] == c.snapshots[id])
            && crawl.id in d.snapshots && d.snapshots[crawl.id].state == Draft
  {
  }

  // ---- Switch ----

  lemma FirstActivationRows(c: Corpus, draft: Id, now: Time)
    requires HistoryExact(c) && draft in c.snapshots && c.snapshots[draft].state == Draft
    ensures HistoryExact(c.(snapshots := c.snapshots[draft := Activate(c.snapshots[draft], now)]))
  {
    var d := c.(snapshots := c.snapshots[draft := Activate(c.snapshots[draft], now)]);
    forall i | 0 <= i < |c.snapshotHist| ensures FaithfulRow(d, d.snapshotHist[i]) {
      assert FaithfulRow(c, c.snapshotHist[i]);
    }
    forall id | id in d.snapshots
      ensures d.snapshots[id].activatedAt.Some? <==> d.snapshots[id].state == Active || Archived(d, id)
    {
      assert id in c.snapshots;
      assert Archived(d, id) <==> Archived(c, id);
    }
  }

  lemma FirstActivationLinks(c: Corpus, draft: Id, now: Time)
    requires Linked(c) && draft in c.snapshots && ActiveIn(c.snapshots, c.snapshots[draft].systemId) == {}
    ensures Linked(c.(snapshots := c.snapshots[draft := Activate(c.snapshots[draft], now)]))
  {
    var d := c.(snapshots := c.snapshots[draft := Activate(c.snapshots[draft], now)]);
    forall id | IsActive(d.snapshots, id) ensures ChainTo(RowsOf(d.snapshotHist, d.snapshots[id].systemId), id) {
      if id != draft {
        assert IsActive(c.snapshots, id);
      }
    }
    forall t | ActiveIn(d.snapshots, t) == {} ensures RowsOf(d.snapshotHist, t) == [] {
      assert draft !in ActiveIn(c.snapshots, c.snapshots[draft].systemId);
      SameActives(c, d, t);
    }
  }

  lemma FirstActivationInv(c: Corpus, draft: Id, now: Time)
    requires Inv(c) && draft in c.snapshots && c.snapshots[draft].state == Draft && HighQuality(c.snapshots[draft])
    requires ActiveIn(c.snapshots, c.snapshots[draft].systemId) <= {draft}
    ensures Inv(c.(snapshots := c.snapshots[draft := Activate(c.snapshots[draft], now)]))
  {
    var d := c.(snapshots := c.snapshots[draft := Activate(c.snapshots[draft], now)]);
    var s := c.snapshots[draft].systemId;
    assert ActiveIn(c.snapshots, s) == {} by {
      assert draft !in ActiveIn(c.snapshots, s);
    }
    FirstActivationRows(c, draft, now);
    FirstActivationLinks(c, draft, now);
    forall id | IsActive(d.snapshots, id) && id != draft ensures IsActive(c.snapshots, id) && c.snapshots[id].systemId != s {
      assert id !in ActiveIn(c.snapshots, s);
    }
    assert AtMostOneActive(d);
  }

  lemma ReplaceActives(c: Corpus, active: Id, draft: Id, now: Time)
    requires Replaceable(c, active, draft)
    ensures var d := Replace(c, active, draft, now);
            forall id :: IsActive(d.snapshots, id) <==> id == draft || (id != active && IsActive(c.snapshots, id))
  {
  }

  ghost predicate Replaceable(c: Corpus, active: Id, draft: Id) {
    && IsActive(c.snapshots, active)
    && draft in c.snapshots && c.snapshots[draft].state == Draft && HighQuality(c.snapshots[draft])
    && c.snapshots[active].systemId == c.snapshots[draft].systemId
  }

  lemma ReplaceHistory(c: Corpus, active: Id, draft: Id, now: Time)
    requires HistoryExact(c) && Replaceable(c, active, draft)
    ensures HistoryExact(Replace(c, active, draft, now))
  {
    var d := Replace(c, active, draft, now);
    var n := |c.snapshotHist|;
    forall i | 0 <= i < n ensures FaithfulRow(d, d.snapshotHist[i]) && d.snapshotHist[i].snapshotId != active {
      assert FaithfulRow(c, c.snapshotHist[i]);
    }
    assert d.snapshotHist[n] == HistoryRow(c, active, draft);
    assert FaithfulRow(d, d.snapshotHist[n]);
    forall id ensures Archived(d, id) <==> Archived(c, id) || id == active {
      if Archived(c, id) {
        var i :| 0 <= i < n && c.snapshotHist[i].snapshotId == id;
        assert d.snapshotHist[i].snapshotId == id;
      }
    }
    forall id | id in d.snapshots
      ensures d.snapshots[id].activatedAt.Some? <==> d.snapshots[id].state == Active || Archived(d, id)
    {
      assert id in c.snapshots;
    }
  }

  lemma ChainExtends(rows: seq<SnapshotHist>, row: SnapshotHist, next: Id)
    requires ChainTo(rows, row.snapshotId) && row.replacedBy == next
    ensures ChainTo(rows + [row], next)
  {
  }

  lemma ReplaceLinks(c: Corpus, active: Id, draft: Id, now: Time)
    requires AtMostOneActive(c) && Linked(c) && Replaceable(c, active, draft)
    ensures Linked(Replace(c, active, draft, now))
  {
    var d := Replace(c, active, draft, now);
    var s := c.snapshots[active].systemId;
    var row := HistoryRow(c, active, draft);
    ReplaceActives(c, active, draft, now);
    forall t ensures RowsOf(d.snapshotHist, t) == RowsOf(c.snapshotHist, t) + if t == s then [row] else [] {
      assert d.snapshotHist[..|c.snapshotHist|] == c.snapshotHist;
    }
    var rows := RowsOf(c.snapshotHist, s);
    assert ChainTo(rows, active);
    assert ChainTo(rows + [row], draft) by {
      ChainExtends(rows, row, draft);
    }
    forall id | IsActive(d.snapshots, id) ensures ChainTo(RowsOf(d.snapshotHist, d.snapshots[id].systemId), id) {
      if id != draft {
        assert c.snapshots[id].systemId != s;
        assert ChainTo(RowsOf(c.snapshotHist, c.snapshots[id].systemId), id);
      }
    }
    forall t | ActiveIn(d.snapshots, t) == {} ensures RowsOf(d.snapshotHist, t) == [] {
      assert draft !in ActiveIn(d.snapshots, t);
      assert t != s;
      forall id ensures id !in ActiveIn(c.snapshots, t) {
        assert id !in ActiveIn(d.snapshots, t);
        assert id in ActiveIn(c.snapshots, t) ==> id != active && IsActive(c.snapshots, id);
      }
    }
  }

  lemma ReplaceOneActive(c: Corpus, active: Id, draft: Id, now: Time)
    requires AtMostOneActive(c) && ActiveAreHighQuality(c) && Replaceable(c, active, draft)
    ensures AtMostOneActive(Replace(c, active, draft, now)) && ActiveAreHighQuality(Replace(c, active, draft, now))
  {
    var d := Replace(c, active, draft, now);
    ReplaceActives(c, active, draft, now);
    forall id | IsActive(d.snapshots, id) && id != draft
      ensures d.snapshots[id].systemId != d.snapshots[draft].systemId && d.snapshots[id] == c.snapshots[id]
    {
      assert IsActive(c.snapshots, id) && IsActive(c.snapshots, active);
    }
  }

  lemma ReplaceFacts(c: Corpus, active: Id, draft: Id, now: Time)
    requires FactsConserved(c) && FactsOwned(c) && Replaceable(c, active, draft)
    ensures FactsConserved(Replace(c, active, draft, now)) && FactsOwned(Replace(c, active, draft, now))
  {
    var d := Replace(c, active, draft, now);
    assert d.snapshotHist[..|c.snapshotHist|] == c.snapshotHist;
    assert d.snapshots.Keys == c.snapshots.Keys;
  }

  lemma ReplaceInv(c: Corpus, active: Id, draft: Id, now: Time)
    requires Inv(c) && Replaceable(c, active, draft)
    ensures Inv(Replace(c, active, draft, now))
  {
    ReplaceOneActive(c, active, draft, now);
    ReplaceHistory(c, active, draft, now);
    ReplaceLinks(c, active, draft, now);
    ReplaceFacts(c, active, draft, now);
  }

  function Dropped(c: Corpus, draft: Id, now: Time): Corpus
    requires draft in c.snapshots
  {
    c.(snapshots := c.snapshots[draft := Discard(c.snapshots[draft], now)])
  }

  function Activated(c: Corpus, draft: Id, now: Time): Corpus
    requires draft in c.snapshots
  {
    c.(snapshots := c.snapshots[draft := Activate(c.snapshots[draft], now)])
  }

  predicate IsDraft(c: Corpus, id: Id) {
    id in c.snapshots && c.snapshots[id].state == Draft
  }

  /** Both snapshots have non-blank, distinct routes. */
  ghost predicate Comparable(c: Corpus, active: Id, draft: Id) {
    SemanticDiff.Indexable(SemanticState(c.facts, active)) && SemanticDiff.Indexable(SemanticState(c.facts, draft))
  }

  /** The pages of both snapshots normalise to the same fingerprints. */
  ghost predicate SameContent(c: Corpus, active: Id, draft: Id) {
    ToSet(SemanticState(c.facts, active)) == ToSet(SemanticState(c.facts, draft))
  }

  /** The ways a switch can go, by its outcome. */
  ghost predicate SwitchMoves(c: Corpus, draft: Id, now: Time, d: Corpus, r: Result<SwitchOutcome, SwitchError>) {
    match r
    case Err(NotFound) => d == c && draft !in c.snapshots
    case Err(NotDraft) => d == c && draft in c.snapshots && c.snapshots[draft].state == Discarded
    case Err(BadRoutes(_)) => d == c && exists active :: Replaceable(c, active, draft) && !Comparable(c, active, draft)
    case Ok(DiscardedLowQuality) => IsDraft(c, draft) && !HighQuality(c.snapshots[draft]) && d == Dropped(c, draft, now)
    case Ok(DiscardedNoChange(active)) =>
      Replaceable(c, active, draft) && Comparable(c, active, draft) && SameContent(c, active, draft) && d == Dropped(c, draft, now)
    case Ok(Promoted(Some(active))) =>
      Replaceable(c, active, draft) && Comparable(c, active, draft) && !SameContent(c, active, draft) && d == Replace(c, active, draft, now)
    case Ok(Promoted(None)) =>
      || (IsActive(c.snapshots, draft) && d == c)
      || (IsDraft(c, draft) && HighQuality(c.snapshots[draft])
          && ActiveIn(c.snapshots, c.snapshots[draft].systemId) <= {draft} && d == Activated(c, draft, now))
  }

  lemma SwitchCases(c: Corpus, draft: Id, now: Time)
    ensures SwitchMoves(c, draft, now, Switch(c, draft, now).0, Switch(c, draft, now).1)
  {
    if IsDraft(c, draft) && HighQuality(c.snapshots[draft]) {
      var loaded := LoadActive(c.snapshots, c.snapshots[draft].systemId, draft);
      LoadActiveMeaning(c.snapshots, c.snapshots[draft].systemId, draft);
      if loaded.Some? {
        assert Replaceable(c, loaded.value, draft);
        SemanticDiff.NoChangeMeaning(SemanticState(c.facts, loaded.value), SemanticState(c.facts, draft));
      }
    }
  }

  lemma MovesInv(c: Corpus, draft: Id, now: Time, d: Corpus, r: Result<SwitchOutcome, SwitchError>)
    requires Inv(c) && SwitchMoves(c, draft, now, d, r)
    ensures Inv(d)
    ensures r.Ok? && r.value.Promoted? ==> IsActive(d.snapshots, draft) && HighQuality(d.snapshots[draft])
  {
    match r
    case Err(_) =>
    case Ok(DiscardedLowQuality) => DraftsDroppedInv(c, d);
    case Ok(DiscardedNoChange(_)) => DraftsDroppedInv(c, d);
    case Ok(Promoted(Some(active))) => ReplaceInv(c, active, draft, now);
    case Ok(Promoted(None)) =>
      if IsDraft(c, draft) {
        FirstActivationInv(c, draft, now);
      }
  }

  lemma SwitchInv(c: Corpus, draft: Id, now: Time)
    requires Inv(c)
    ensures Inv(Switch(c, draft, now).0)
  {
    SwitchCases(c, draft, now);
    MovesInv(c, draft, now, Switch(c, draft, now).0, Switch(c, draft, now).1);
  }

  /** The snapshot a compile goes on to use is active, of full scope, not degraded and scores at least
      0.9; on an error nothing has changed; a discard changes the draft's row alone. */
  lemma SwitchOutcomeMeaning(c: Corpus, draft: Id, now: Time)
    requires Inv(c)
    ensures var (d, r) := Switch(c, draft, now);
            && (r.Err? ==> d == c)
            && (r.Ok? && r.value.Promoted? ==> IsActive(d.snapshots, draft) && HighQuality(d.snapshots[draft]))
            && (r.Ok? && !r.value.Promoted? ==> IsDraft(c, draft) && d == Dropped(c, draft, now))
  {
    SwitchCases(c, draft, now);
    MovesInv(c, draft, now, Switch(c, draft, now).0, Switch(c, draft, now).1);
  }

  /** A well-formed high-quality draft is discarded as unchanged exactly when its pages normalise to the
      same fingerprints as the active snapshot's; history and the active snapshot then stay as they are. */
  lemma UnchangedDraftDiscarded(c: Corpus, active: Id, draft: Id, now: Time)
    requires Inv(c) && Replaceable(c, active, draft)
    requires SemanticDiff.Indexable(SemanticState(c.facts, active)) && SemanticDiff.Indexable(SemanticState(c.facts, draft))
    ensures var (d, r) := Switch(c, draft, now);
            && (r == Ok(DiscardedNoChange(active)) <==>
                  ToSet(SemanticState(c.facts, active)) == ToSet(SemanticState(c.facts, draft)))
            && (r == Ok(DiscardedNoChange(active)) || r == Ok(Promoted(Some(active))))
            && (r == Ok(DiscardedNoChange(active)) ==>
                  d == c.(snapshots := c.snapshots[draft := Discard(c.snapshots[draft], now)]))
  {
    LoadActiveMeaning(c.snapshots, c.snapshots[draft].systemId, draft);
    assert active in ActiveIn(c.snapshots, c.snapshots[draft].systemId) - {draft};
    var loaded := LoadActive(c.snapshots, c.snapshots[draft].systemId, draft);
    assert loaded == Some(active) by {
      assert IsActive(c.snapshots, loaded.value);
    }
    SemanticDiff.NoChangeMeaning(SemanticState(c.facts, active), SemanticState(c.facts, draft));
  }

  // ---- Lifecycle of snapshot rows ----

  /** How one step may move snapshot rows: `Discarded` is final, an activated row stays activated, and a
      system that has an active snapshot keeps having one. */
  ghost predicate Progress(c: Corpus, d: Corpus) {
    && (forall id | id in c.snapshots :: id in d.snapshots && d.snapshots[id].systemId == c.snapshots[id].systemId)
    && (forall id | id in c.snapshots && c.snapshots[id].state == Discarded :: d.snapshots[id] == c.snapshots[id])
    && (forall s | ActiveIn(c.snapshots, s) != {} :: ActiveIn(d.snapshots, s) != {})
    && c.snapshotHist <= d.snapshotHist
    && c.facts.pages <= d.facts.pages && c.facts.menus <= d.facts.menus && c.facts.elements <= d.facts.elements
  }

  lemma ProgressTransitive(c: Corpus, d: Corpus, e: Corpus)
    requires Progress(c, d) && Progress(d, e)
    ensures Progress(c, e)
  {
  }

  lemma DraftsDroppedProgress(c: Corpus, d: Corpus)
    requires DraftsDropped(c, d)
    ensures Progress(c, d)
  {
    DraftsDroppedActive(c, d);
  }

  lemma CrawlProgress(c: Corpus, crawl: Crawl, now: Time)
    requires Admissible(c, crawl)
    ensures Progress(c, PersistCrawl(c, crawl)) && Progress(c, CrawlSucceeded(c, crawl, now))
  {
    var d := PersistCrawl(c, crawl);
    forall s | ActiveIn(c.snapshots, s) != {} ensures ActiveIn(d.snapshots, s) != {} {
      var id :| id in ActiveIn(c.snapshots, s);
      assert id in ActiveIn(d.snapshots, s);
    }
    assert Progress(c, d);
    DraftsDroppedProgress(d, CrawlSucceeded(c, crawl, now));
    ProgressTransitive(c, d, CrawlSucceeded(c, crawl, now));
  }

  lemma MovesProgress(c: Corpus, draft: Id, now: Time, d: Corpus, r: Result<SwitchOutcome, SwitchError>)
    requires SwitchMoves(c, draft, now, d, r)
    ensures Progress(c, d)
    ensures forall id | id in c.snapshots :: id in d.snapshots && d.snapshots[id].systemId == c.snapshots[id].systemId
  {
    match r
    case Err(_) => DraftsDroppedProgress(c, c);
    case Ok(DiscardedLowQuality) => DraftDiscardProgress(c, draft, now);
    case Ok(DiscardedNoChange(_)) => DraftDiscardProgress(c, draft, now);
    case Ok(Promoted(Some(active))) => ReplaceProgress(c, active, draft, now);
    case Ok(Promoted(None)) =>
      if IsDraft(c, draft) {
        FirstActivationProgress(c, draft, now);
      } else {
        DraftsDroppedProgress(c, c);
      }
  }

  lemma SwitchProgress(c: Corpus, draft: Id, now: Time)
    ensures Progress(c, Switch(c, draft, now).0)
    ensures forall id | id in c.snapshots ::
              id in Switch(c, draft, now).0.snapshots && Switch(c, draft, now).0.snapshots[id].systemId == c.snapshots[id].systemId
    ensures Switch(c, draft, now).1.Err? ==> Switch(c, draft, now).0 == c
  {
    SwitchCases(c, draft, now);
    MovesProgress(c, draft, now, Switch(c, draft, now).0, Switch(c, draft, now).1);
  }

  lemma DraftDiscardProgress(c: Corpus, draft: Id, now: Time)
    requires draft in c.snapshots && c.snapshots[draft].state == Draft
    ensures Progress(c, Dropped(c, draft, now))
  {
    DraftsDroppedProgress(c, c.(snapshots := c.snapshots[draft := Discard(c.snapshots[draft], now)]));
  }

  lemma FirstActivationProgress(c: Corpus, draft: Id, now: Time)
    requires draft in c.snapshots && c.snapshots[draft].state == Draft
    ensures Progress(c, c.(snapshots := c.snapshots[draft := Activate(c.snapshots[draft], now)]))
  {
    var d := c.(snapshots := c.snapshots[draft := Activate(c.snapshots[draft], now)]);
    forall s | ActiveIn(c.snapshots, s) != {} ensures ActiveIn(d.snapshots, s) != {} {
      var id :| id in ActiveIn(c.snapshots, s);
      assert id in ActiveIn(d.snapshots, s);
    }
  }

  lemma ReplaceProgress(c: Corpus, active: Id, draft: Id, now: Time)
    requires Replaceable(c, active, draft)
    ensures Progress(c, Replace(c, active, draft, now))
  {
    var d := Replace(c, active, draft, now);
    forall s | ActiveIn(c.snapshots, s) != {} ensures ActiveIn(d.snapshots, s) != {} {
      var id :| id in ActiveIn(c.snapshots, s);
      assert id == active || id in ActiveIn(d.snapshots, s);
      assert id == active ==> draft in ActiveIn(d.snapshots, s);
    }
  }
}
