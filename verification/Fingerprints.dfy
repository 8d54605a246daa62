/** Page fingerprints and drift status: `asset_compiler/fingerprints.py`.

    A digest is SHA-256 over canonical JSON. Here a digest is the value that gets serialised, which
    is the same as taking serialisation followed by SHA-256 to be injective. Two payloads of
    different JSON shape (current and legacy element records) are different constructors. */
module Fingerprints {
  import opened Basics
  import opened Sorting
  import opened Text

  datatype RawMenu = RawMenu(name: Option<string>, route: Option<string>, depth: int, sortOrder: int)

  datatype MenuItem = MenuItem(name: string, route: string, depth: int, sortOrder: int)

  datatype Candidate = Candidate(strategy: string, selector: string)

  datatype BundleSummary = BundleSummary(count: nat, strategies: seq<string>, selectors: seq<string>)

  datatype RawElement = RawElement(
    kind: Option<string>, role: Option<string>, text: Option<string>, locator: Option<string>,
    stateSignature: Option<string>, usage: Option<string>, attributes: map<string, string>,
    candidates: seq<Candidate>)

  datatype Element = Element(
    kind: string, role: string, text: string, locator: string, stateSignature: string, usage: string,
    attributes: map<string, string>, bundle: BundleSummary)

  datatype PageText = PageText(route: string, title: string, summary: string)

  datatype Payload = Payload(
    route: Option<string>, title: Option<string>, summary: Option<string>,
    menus: seq<RawMenu>, elements: seq<RawElement>)

  // ---- What each digest covers ----

  datatype KeyRecord =
    | CurrentKey(kind: string, role: string, stateSignature: string, bundle: BundleSummary, attributes: map<string, string>)
    | LegacyKey(kind: string, role: string, locator: string, attributes: map<string, string>)

  datatype ElementRecord =
    | CurrentElement(element: Element)
    | LegacyElement(kind: string, role: string, text: string, locator: string, usage: string, attributes: map<string, string>)

  datatype Digest =
    | NavigationDigest(route: string, title: string, menus: seq<MenuItem>)
    | KeyDigest(keys: seq<KeyRecord>)
    | SemanticDigest(title: string, summary: string, usages: seq<string>, texts: seq<string>)
    | StructureDigest(page: PageText, menus: seq<MenuItem>, elements: seq<ElementRecord>)

  /** What an asset snapshot stores of a fingerprint. */
  datatype Stored = Stored(navigation: Digest, keyLocator: Digest, semantic: Digest, structure: Digest)

  datatype Fingerprint = Fingerprint(current: Stored, legacyKeyLocator: Digest, legacyStructure: Digest)

  datatype Component = Navigation | KeyLocator | Semantic | Structure

  datatype DriftStatus = Safe | Suspect | Stale

  // ---- Normalisation ----

  function CleanMenu(m: RawMenu): MenuItem {
    MenuItem(Normalized(m.name), Normalized(m.route), m.depth, m.sortOrder)
  }

  predicate MenuItemLe(a: MenuItem, b: MenuItem) {
    if a.depth != b.depth then a.depth < b.depth
    else if a.sortOrder != b.sortOrder then a.sortOrder < b.sortOrder
    else if a.name != b.name then StrLe(a.name, b.name)
    else StrLe(a.route, b.route)
  }

  lemma MenuItemOrder()
    ensures TotalOrder(MenuItemLe)
  {
    StrOrder();
  }

  function NormalMenus(menus: seq<RawMenu>): seq<MenuItem> {
    Sort(Map(menus, CleanMenu), MenuItemLe)
  }

  method NormalizeMenus(menus: seq<RawMenu>) returns (r: seq<MenuItem>)
    ensures r == NormalMenus(menus)
  {
    var normalized: seq<MenuItem> := [];
    for i := 0 to |menus|
      invariant normalized == Map(menus[..i], CleanMenu)
    {
      TakeTake(menus, i);
      normalized := normalized + [CleanMenu(menus[i])];
    }
    assert menus[..|menus|] == menus;
    r := Sort(normalized, MenuItemLe);
  }

  predicate NamedCandidate(c: Candidate) {
    c.strategy != "" || c.selector != ""
  }

  function CleanCandidate(c: Candidate): Candidate {
    Candidate(Strip(c.strategy), Strip(c.selector))
  }

  function Summary(candidates: seq<Candidate>): BundleSummary {
    var kept := Filter(Map(candidates, CleanCandidate), NamedCandidate);
    BundleSummary(|kept|, Map(kept, (c: Candidate) => c.strategy), Map(kept, (c: Candidate) => c.selector))
  }

  function CleanElement(e: RawElement): Element {
    Element(Normalized(e.kind), Normalized(e.role), Normalized(e.text), Normalized(e.locator),
            Normalized(e.stateSignature), Normalized(e.usage), e.attributes, Summary(e.candidates))
  }

  /** The comparison behind the element sort. `rank` stands for the hexadecimal digest of the bundle
      summary; it is some injective numbering, about which nothing else is known. */
  predicate ElementLe(rank: BundleSummary -> nat, a: Element, b: Element) {
    if a.kind != b.kind then StrLe(a.kind, b.kind)
    else if a.role != b.role then StrLe(a.role, b.role)
    else if a.text != b.text then StrLe(a.text, b.text)
    else if a.stateSignature != b.stateSignature then StrLe(a.stateSignature, b.stateSignature)
    else rank(a.bundle) <= rank(b.bundle)
  }

  function ElementOrder(rank: BundleSummary -> nat): (Element, Element) -> bool {
    (a, b) => ElementLe(rank, a, b)
  }

  lemma ElementPreorder(rank: BundleSummary -> nat)
    ensures TotalPreorder(ElementOrder(rank))
  {
    StrOrder();
  }

  function NormalElements(elements: seq<RawElement>, rank: BundleSummary -> nat): seq<Element> {
    Sort(Map(elements, CleanElement), ElementOrder(rank))
  }

  predicate LegacyLe(a: ElementRecord, b: ElementRecord) {
    match (a, b)
    case (LegacyElement(k, r, t, l, _, _), LegacyElement(k', r', t', l', _, _)) =>
      if k != k' then StrLe(k, k')
      else if r != r' then StrLe(r, r')
      else if t != t' then StrLe(t, t')
      else StrLe(l, l')
    case _ => true
  }

  function LegacyProjection(elements: seq<Element>): seq<ElementRecord> {
    Sort(Map(elements, (e: Element) => LegacyElement(e.kind, e.role, e.text, e.locator, e.usage, e.attributes)), LegacyLe)
  }

  // ---- Fingerprint ----

  function PageOf(p: Payload): PageText {
    PageText(Normalized(p.route), Normalized(p.title), Normalized(p.summary))
  }

  function KeyOf(e: Element): KeyRecord {
    CurrentKey(e.kind, e.role, e.stateSignature, e.bundle, e.attributes)
  }

  function LegacyKeyOf(e: ElementRecord): KeyRecord {
    match e
    case LegacyElement(k, r, _, l, _, a) => LegacyKey(k, r, l, a)
    case CurrentElement(c) => LegacyKey(c.kind, c.role, c.locator, c.attributes)
  }

  function NavigationPart(page: PageText, menus: seq<MenuItem>): Digest {
    NavigationDigest(page.route, page.title, menus)
  }

  function KeyPart(elements: seq<Element>): Digest {
    KeyDigest(Map(elements, KeyOf))
  }

  function SemanticPart(page: PageText, elements: seq<Element>): Digest {
    SemanticDigest(page.title, page.summary, Map(elements, (e: Element) => e.usage), Map(elements, (e: Element) => e.text))
  }

  function StructurePart(page: PageText, menus: seq<MenuItem>, elements: seq<Element>): Digest {
    StructureDigest(page, menus, Map(elements, (e: Element) => CurrentElement(e)))
  }

  function Build(p: Payload, rank: BundleSummary -> nat): Fingerprint {
    var page, menus, elements := PageOf(p), NormalMenus(p.menus), NormalElements(p.elements, rank);
    var legacy := LegacyProjection(elements);
    Fingerprint(
      Stored(NavigationPart(page, menus), KeyPart(elements), SemanticPart(page, elements), StructurePart(page, menus, elements)),
      KeyDigest(Map(legacy, LegacyKeyOf)),
      StructureDigest(page, menus, legacy))
  }

  // ---- Comparison, with scores in hundredths ----

  function Weight(c: Component): nat {
    match c
    case Navigation => 20
    case KeyLocator => 45
    case Semantic => 15
    case Structure => 20
  }

  function Field(s: Stored, c: Component): Digest {
    match c
    case Navigation => s.navigation
    case KeyLocator => s.keyLocator
    case Semantic => s.semantic
    case Structure => s.structure
  }

  /** A component counts as unchanged when the stored digest equals the new one or, for the two
      components whose format has changed, the new one computed in the old format. */
  predicate Changed(old_: Stored, new_: Fingerprint, c: Component) {
    && Field(old_, c) != Field(new_.current, c)
    && (c == KeyLocator ==> old_.keyLocator != new_.legacyKeyLocator)
    && (c == Structure ==> old_.structure != new_.legacyStructure)
  }

  function ScoreOf(old_: Stored, new_: Fingerprint, c: Component): nat {
    if Changed(old_, new_, c) then Weight(c) else 0
  }

  function Score(old_: Option<Stored>, new_: Fingerprint): nat {
    match old_
    case None => 0
    case Some(s) =>
      ScoreOf(s, new_, Navigation) + ScoreOf(s, new_, KeyLocator) + ScoreOf(s, new_, Semantic) + ScoreOf(s, new_, Structure)
  }

  function StatusOf(score: nat): DriftStatus {
    if score <= 20 then Safe else if score <= 60 then Suspect else Stale
  }

  function Drift(old_: Option<Stored>, new_: Fingerprint): DriftStatus {
    StatusOf(Score(old_, new_))
  }

  // ---- Meaning ----

  /** The structure digest determines every other digest. */
  lemma StructureDetermines(p: Payload, q: Payload, rank: BundleSummary -> nat)
    requires Build(p, rank).current.structure == Build(q, rank).current.structure
    ensures Build(p, rank) == Build(q, rank)
  {
    var es, fs := NormalElements(p.elements, rank), NormalElements(q.elements, rank);
    var rs, qs := Map(es, (e: Element) => CurrentElement(e)), Map(fs, (e: Element) => CurrentElement(e));
    assert rs == qs;
    forall i | 0 <= i < |es| ensures es[i] == fs[i] {
      assert rs[i] == CurrentElement(es[i]) && qs[i] == CurrentElement(fs[i]);
    }
    assert es == fs;
  }

  /** The old-format digests never make a difference between fingerprints of the current format: they
      coincide with a stored digest only when both pages have no elements. */
  lemma LegacyIrrelevant(p: Payload, q: Payload, rank: BundleSummary -> nat, c: Component)
    ensures Changed(Build(p, rank).current, Build(q, rank), c) <==>
            Field(Build(p, rank).current, c) != Field(Build(q, rank).current, c)
  {
    var es, fs := NormalElements(p.elements, rank), NormalElements(q.elements, rank);
    var old_, new_ := Build(p, rank).current, Build(q, rank);
    var legacy := LegacyProjection(fs);
    var project := (e: Element) => LegacyElement(e.kind, e.role, e.text, e.locator, e.usage, e.attributes);
    assert legacy == Sort(Map(fs, project), LegacyLe);
    SortMembers(Map(fs, project), LegacyLe);
    if c == KeyLocator && old_.keyLocator == new_.legacyKeyLocator {
      assert Map(es, KeyOf) == Map(legacy, LegacyKeyOf);
    }
    if c == Structure && old_.structure == new_.legacyStructure {
      assert Map(es, (e: Element) => CurrentElement(e)) == legacy;
      assert forall r | r in legacy :: r in Map(fs, project);
    }
  }

  /** Drift status between two pages fingerprinted by the same builder has an exact meaning. */
  lemma DriftMeaning(p: Payload, q: Payload, rank: BundleSummary -> nat)
    ensures var a, b := Build(p, rank).current, Build(q, rank).current;
            var status := Drift(Some(a), Build(q, rank));
            && (status == Stale <==> a.keyLocator != b.keyLocator)
            && (status == Suspect <==> a.keyLocator == b.keyLocator && (a.navigation != b.navigation || a.semantic != b.semantic))
            && (status == Safe <==> a.keyLocator == b.keyLocator && a.navigation == b.navigation && a.semantic == b.semantic)
  {
    LegacyIrrelevant(p, q, rank, Navigation);
    LegacyIrrelevant(p, q, rank, KeyLocator);
    LegacyIrrelevant(p, q, rank, Semantic);
    LegacyIrrelevant(p, q, rank, Structure);
    if Build(p, rank).current.structure == Build(q, rank).current.structure {
      StructureDetermines(p, q, rank);
    }
  }

  /** The order in which menus are listed is invisible to every digest. */
  lemma MenuOrderInvisible(p: Payload, menus: seq<RawMenu>, rank: BundleSummary -> nat)
    requires multiset(menus) == multiset(p.menus)
    ensures Build(p.(menus := menus), rank) == Build(p, rank)
  {
    MenuItemOrder();
    MapPermutes(menus, p.menus, CleanMenu);
    SortCanonical(Map(menus, CleanMenu), Map(p.menus, CleanMenu), MenuItemLe);
  }

  /** Different normal forms give different structure digests. */
  lemma NormalFormShows(p: Payload, other: seq<RawElement>, rank: BundleSummary -> nat)
    ensures Build(p.(elements := other), rank).current.structure == Build(p, rank).current.structure
            <==> NormalElements(other, rank) == NormalElements(p.elements, rank)
  {
    var es, fs := NormalElements(other, rank), NormalElements(p.elements, rank);
    var rs, qs := Map(es, (e: Element) => CurrentElement(e)), Map(fs, (e: Element) => CurrentElement(e));
    if rs == qs {
      forall i | 0 <= i < |es| ensures es[i] == fs[i] {
        assert rs[i] == CurrentElement(es[i]) && qs[i] == CurrentElement(fs[i]);
      }
    }
  }

  /** The element sort looks at kind, role, text, state and bundle only. Listing the elements of a page in
      another order leaves its fingerprint alone exactly when elements that agree on these five agree
      entirely; otherwise some exchange of two elements shows. */
  lemma ElementOrderVisible(p: Payload, rank: BundleSummary -> nat)
    ensures (forall other: seq<RawElement> | multiset(other) == multiset(p.elements) ::
               Build(p.(elements := other), rank) == Build(p, rank))
              <==> AntisymmetricOn(Map(p.elements, CleanElement), ElementOrder(rank))
  {
    var le := ElementOrder(rank);
    var clean := Map(p.elements, CleanElement);
    ElementPreorder(rank);
    if AntisymmetricOn(clean, le) {
      forall other: seq<RawElement> | multiset(other) == multiset(p.elements)
        ensures Build(p.(elements := other), rank) == Build(p, rank)
      {
        MapPermutes(p.elements, other, CleanElement);
        SortCanonical(clean, Map(other, CleanElement), le);
      }
    } else {
      var other := ConfusableExchange(p, rank);
    }
  }

  lemma ConfusableExchange(p: Payload, rank: BundleSummary -> nat) returns (other: seq<RawElement>)
    requires !AntisymmetricOn(Map(p.elements, CleanElement), ElementOrder(rank))
    ensures multiset(other) == multiset(p.elements)
    ensures Build(p.(elements := other), rank).current.structure != Build(p, rank).current.structure
  {
    var i, j := ConfusablePair(Map(p.elements, CleanElement), ElementOrder(rank));
    other := Swap(p.elements, i, j);
    SwapPermutes(p.elements, i, j);
    ExchangeShows(p, i, j, rank);
  }

  lemma ExchangeShows(p: Payload, i: nat, j: nat, rank: BundleSummary -> nat)
    requires i < j < |p.elements|
    requires var a, b := CleanElement(p.elements[i]), CleanElement(p.elements[j]);
             a != b && ElementLe(rank, a, b) && ElementLe(rank, b, a)
    ensures Build(p.(elements := Swap(p.elements, i, j)), rank).current.structure != Build(p, rank).current.structure
  {
    ElementPreorder(rank);
    SwapShows(Map(p.elements, CleanElement), i, j, ElementOrder(rank));
    MapSwap(p.elements, i, j, CleanElement);
    NormalFormShows(p, Swap(p.elements, i, j), rank);
  }

  function UsedAs(e: RawElement, usage: string): RawElement {
    e.(usage := Some(usage))
  }

  /** For example two elements that differ only in their usage descriptions: listed the other way round, the
      page counts as changed. */
  lemma UsageOrderShows(p: Payload, q: Payload, e: RawElement, rank: BundleSummary -> nat)
    requires p.elements == [UsedAs(e, "a"), UsedAs(e, "b")]
    requires q == p.(elements := [UsedAs(e, "b"), UsedAs(e, "a")])
    ensures Build(q, rank).current.structure != Build(p, rank).current.structure
    ensures Drift(Some(Build(p, rank).current), Build(q, rank)) == Suspect
  {
    var a, b := CleanElement(UsedAs(e, "a")), CleanElement(UsedAs(e, "b"));
    UsagesKept();
    NormalPair(UsedAs(e, "a"), UsedAs(e, "b"), rank);
    NormalPair(UsedAs(e, "b"), UsedAs(e, "a"), rank);
    NormalFormShows(p, q.elements, rank);
    assert Map([a, b], KeyOf) == Map([b, a], KeyOf);
    assert Map([a, b], (x: Element) => x.usage)[0] != Map([b, a], (x: Element) => x.usage)[0];
    DriftMeaning(p, q, rank);
  }

  lemma UsagesKept()
    ensures Strip("a") == "a" && Strip("b") == "b" && "a" != "b"
  {
  }

  lemma NormalPair(e: RawElement, f: RawElement, rank: BundleSummary -> nat)
    requires CleanElement(e).(usage := "") == CleanElement(f).(usage := "")
    ensures NormalElements([e, f], rank) == [CleanElement(e), CleanElement(f)]
  {
    StrOrder();
    assert Map([e, f], CleanElement) == [CleanElement(e), CleanElement(f)];
    SortTwo(CleanElement(e), CleanElement(f), ElementOrder(rank));
  }
}
