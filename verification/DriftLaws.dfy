/** Which changes of a page make it stale, suspect or leave it safe, read off the raw page. */
module DriftLaws {
  import opened Basics
  import opened Sorting
  import opened Text
  import opened Fingerprints

  // ---- What counts ----

  /** The candidates that name a strategy or a selector, stripped. */
  function KeptCandidates(candidates: seq<Candidate>): seq<Candidate> {
    if candidates == [] then []
    else
      var c := candidates[|candidates| - 1];
      KeptCandidates(candidates[..|candidates| - 1])
      + if Strip(c.strategy) != "" || Strip(c.selector) != "" then [Candidate(Strip(c.strategy), Strip(c.selector))] else []
  }

  /** What locates an element. */
  datatype Located = Located(kind: string, role: string, state: string, candidates: seq<Candidate>, attributes: map<string, string>)

  function LocatedBy(e: RawElement): Located {
    Located(Normalized(e.kind), Normalized(e.role), Normalized(e.stateSignature), KeptCandidates(e.candidates), e.attributes)
  }

  function UsageOf(e: RawElement): string { Normalized(e.usage) }

  function TextOf(e: RawElement): string { Normalized(e.text) }

  function MenuFacts(m: RawMenu): (string, string, int, int) {
    (Normalized(m.name), Normalized(m.route), m.depth, m.sortOrder)
  }

  // ---- Bundles ----

  lemma {:induction false} KeptAre(candidates: seq<Candidate>)
    ensures Filter(Map(candidates, CleanCandidate), NamedCandidate) == KeptCandidates(candidates)
  {
    if candidates != [] {
      var front, c := candidates[..|candidates| - 1], candidates[|candidates| - 1];
      KeptAre(front);
      assert Map(candidates, CleanCandidate) == Map(front, CleanCandidate) + [CleanCandidate(c)];
    }
  }

  lemma SummaryFaithful(a: seq<Candidate>, b: seq<Candidate>)
    ensures Summary(a) == Summary(b) <==> KeptCandidates(a) == KeptCandidates(b)
  {
    KeptAre(a);
    KeptAre(b);
    var x, y := KeptCandidates(a), KeptCandidates(b);
    var s, t := Map(x, (c: Candidate) => c.strategy), Map(y, (c: Candidate) => c.strategy);
    var u, v := Map(x, (c: Candidate) => c.selector), Map(y, (c: Candidate) => c.selector);
    if s == t && u == v {
      forall i | 0 <= i < |x| ensures x[i] == y[i] {
        assert s[i] == t[i] && u[i] == v[i];
      }
    }
  }

  lemma SameKeyRecord(e: RawElement, f: RawElement)
    ensures KeyOf(CleanElement(e)) == KeyOf(CleanElement(f)) <==> LocatedBy(e) == LocatedBy(f)
  {
    SummaryFaithful(e.candidates, f.candidates);
  }

  // ---- Stale ----

  /** The key records of a page are those of its raw elements, in some order. */
  lemma RecordsOf(p: Payload, rank: BundleSummary -> nat)
    ensures multiset(Map(NormalElements(p.elements, rank), KeyOf)) == multiset(Map(Map(p.elements, CleanElement), KeyOf))
  {
    SortPermutes(Map(p.elements, CleanElement), ElementOrder(rank));
    MapPermutes(NormalElements(p.elements, rank), Map(p.elements, CleanElement), KeyOf);
  }

  function RecordOf(e: RawElement): KeyRecord { KeyOf(CleanElement(e)) }

  lemma SameRecords(es: seq<RawElement>, fs: seq<RawElement>)
    requires multiset(Map(es, RecordOf)) == multiset(Map(fs, RecordOf))
    ensures multiset(Map(es, LocatedBy)) == multiset(Map(fs, LocatedBy))
  {
    forall e, f ensures RecordOf(e) == RecordOf(f) <==> LocatedBy(e) == LocatedBy(f) {
      SameKeyRecord(e, f);
    }
    SameImages(es, fs, RecordOf, LocatedBy);
  }

  /** A page is stale as soon as its elements are located otherwise: by kind, role, state, candidates or
      attributes, or because there are more or fewer of them. */
  lemma LocatorChangeStale(p: Payload, q: Payload, rank: BundleSummary -> nat)
    requires multiset(Map(p.elements, LocatedBy)) != multiset(Map(q.elements, LocatedBy))
    ensures Drift(Some(Build(p, rank).current), Build(q, rank)) == Stale
  {
    DriftMeaning(p, q, rank);
    RecordsOf(p, rank);
    RecordsOf(q, rank);
    assert Map(Map(p.elements, CleanElement), KeyOf) == Map(p.elements, RecordOf);
    assert Map(Map(q.elements, CleanElement), KeyOf) == Map(q.elements, RecordOf);
    if Build(p, rank).current.keyLocator == Build(q, rank).current.keyLocator {
      SameRecords(p.elements, q.elements);
    }
  }

  // ---- Suspect and safe ----

  lemma MenusSame(p: Payload, q: Payload)
    ensures NormalMenus(p.menus) == NormalMenus(q.menus) <==> multiset(Map(p.menus, MenuFacts)) == multiset(Map(q.menus, MenuFacts))
  {
    MenuItemOrder();
    SortPermutes(Map(p.menus, CleanMenu), MenuItemLe);
    SortPermutes(Map(q.menus, CleanMenu), MenuItemLe);
    if multiset(Map(p.menus, CleanMenu)) == multiset(Map(q.menus, CleanMenu)) {
      SortCanonical(Map(p.menus, CleanMenu), Map(q.menus, CleanMenu), MenuItemLe);
    }
    SameMenus(p.menus, q.menus);
  }

  lemma SameMenus(a: seq<RawMenu>, b: seq<RawMenu>)
    ensures multiset(Map(a, CleanMenu)) == multiset(Map(b, CleanMenu)) <==> multiset(Map(a, MenuFacts)) == multiset(Map(b, MenuFacts))
  {
    if multiset(Map(a, CleanMenu)) == multiset(Map(b, CleanMenu)) {
      SameImages(a, b, CleanMenu, MenuFacts);
    }
    if multiset(Map(a, MenuFacts)) == multiset(Map(b, MenuFacts)) {
      SameImages(a, b, MenuFacts, CleanMenu);
    }
  }

  /** Nothing that locates or orders an element differs. */
  predicate SamePlace(e: RawElement, f: RawElement) {
    LocatedBy(e) == LocatedBy(f) && TextOf(e) == TextOf(f)
  }

  predicate SameClean(a: Element, b: Element) {
    && a.kind == b.kind && a.role == b.role && a.text == b.text && a.stateSignature == b.stateSignature
    && a.bundle == b.bundle && a.attributes == b.attributes
  }

  predicate SameCleanUsage(a: Element, b: Element) {
    SameClean(a, b) && a.usage == b.usage
  }

  ghost predicate PlacesKept(p: Payload, q: Payload) {
    |p.elements| == |q.elements| && forall i | 0 <= i < |p.elements| :: SamePlace(p.elements[i], q.elements[i])
  }

  ghost predicate UsagesKept(p: Payload, q: Payload) {
    |p.elements| == |q.elements| && forall i | 0 <= i < |p.elements| :: UsageOf(p.elements[i]) == UsageOf(q.elements[i])
  }

  lemma SortedAlike(p: Payload, q: Payload, rank: BundleSummary -> nat)
    requires PlacesKept(p, q)
    ensures Paired(NormalElements(p.elements, rank), NormalElements(q.elements, rank), SameClean)
    ensures UsagesKept(p, q) ==> Paired(NormalElements(p.elements, rank), NormalElements(q.elements, rank), SameCleanUsage)
  {
    var s, t := Map(p.elements, CleanElement), Map(q.elements, CleanElement);
    forall i | 0 <= i < |s| ensures SameClean(s[i], t[i]) && (UsagesKept(p, q) ==> SameCleanUsage(s[i], t[i])) {
      SummaryFaithful(p.elements[i].candidates, q.elements[i].candidates);
      assert SamePlace(p.elements[i], q.elements[i]);
      assert UsagesKept(p, q) ==> UsageOf(p.elements[i]) == UsageOf(q.elements[i]);
    }
    SortPaired(s, t, ElementOrder(rank), SameClean);
    if UsagesKept(p, q) {
      SortPaired(s, t, ElementOrder(rank), SameCleanUsage);
    }
  }

  lemma KeyPartKept(es: seq<Element>, fs: seq<Element>)
    requires Paired(es, fs, SameClean)
    ensures KeyPart(es) == KeyPart(fs)
  {
    forall i | 0 <= i < |es| ensures KeyOf(es[i]) == KeyOf(fs[i]) {
      assert SameClean(es[i], fs[i]);
    }
    assert Map(es, KeyOf) == Map(fs, KeyOf);
  }

  lemma SemanticPartKept(page: PageText, other: PageText, es: seq<Element>, fs: seq<Element>)
    requires Paired(es, fs, SameCleanUsage) && page.title == other.title && page.summary == other.summary
    ensures SemanticPart(page, es) == SemanticPart(other, fs)
  {
    forall i | 0 <= i < |es| ensures es[i].usage == fs[i].usage && es[i].text == fs[i].text {
      assert SameCleanUsage(es[i], fs[i]);
    }
    assert Map(es, (e: Element) => e.usage) == Map(fs, (e: Element) => e.usage);
    assert Map(es, (e: Element) => e.text) == Map(fs, (e: Element) => e.text);
  }

  /** The page's own text and its menus, in any order. */
  ghost predicate SameAround(p: Payload, q: Payload) {
    && Normalized(p.route) == Normalized(q.route) && Normalized(p.title) == Normalized(q.title)
    && Normalized(p.summary) == Normalized(q.summary)
    && multiset(Map(p.menus, MenuFacts)) == multiset(Map(q.menus, MenuFacts))
  }

  /** As long as every element is located as before and shows the same text, a page is never stale. Then it
      is suspect as soon as route, title, summary or a menu differs, and safe if neither these nor the usage
      descriptions do; locator texts alone never count. */
  lemma PlacesKeptDrift(p: Payload, q: Payload, rank: BundleSummary -> nat)
    requires PlacesKept(p, q)
    ensures var status := Drift(Some(Build(p, rank).current), Build(q, rank));
            && status != Stale
            && (!SameAround(p, q) ==> status == Suspect)
            && (SameAround(p, q) && UsagesKept(p, q) ==> status == Safe)
  {
    SortedAlike(p, q, rank);
    var es, fs := NormalElements(p.elements, rank), NormalElements(q.elements, rank);
    KeyPartKept(es, fs);
    DriftMeaning(p, q, rank);
    MenusSame(p, q);
    if SameAround(p, q) && UsagesKept(p, q) {
      SemanticPartKept(PageOf(p), PageOf(q), es, fs);
    }
  }
}
