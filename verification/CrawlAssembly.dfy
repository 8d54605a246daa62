/** How one crawl's extractions are combined and written as rows: `crawler_service/service.py`.
    A Python dict is a `Dict`: its keys in insertion order and a map. */
module CrawlAssembly {
  import opened Basics
  import opened Text

  datatype PageCandidate = PageCandidate(route: string, title: Option<string>, summary: Option<string>, sources: set<string>)

  /** The navigation identities are the serialised keys, if any. */
  datatype MenuCandidate = MenuCandidate(
    name: string, route: Option<string>, pageRoute: Option<string>, depth: int, sortOrder: int,
    parentName: Option<string>, identity: Option<string>, parentIdentity: Option<string>)

  datatype ElementCandidate = ElementCandidate(
    pageRoute: string, kind: string, role: Option<string>, text: Option<string>, signature: Option<string>,
    context: map<string, string>, locator: Option<string>, stability: Option<real>)

  datatype Extraction = Extraction(
    framework: Option<string>, quality: Option<real>, pages: seq<PageCandidate>, menus: seq<MenuCandidate>,
    elements: seq<ElementCandidate>, failure: Option<string>, warnings: seq<string>, degraded: bool)

  // ---- Python idioms ----

  datatype Dict<!K, V> = Dict(keys: seq<K>, at: map<K, V>)

  ghost predicate Proper<K(!new), V>(d: Dict<K, V>) {
    Distinct(d.keys) && forall k :: k in d.keys <==> k in d.at
  }

  function Put<K, V>(d: Dict<K, V>, key: K, value: V): Dict<K, V> {
    Dict(if key in d.at then d.keys else d.keys + [key], d.at[key := value])
  }

  function Values<K(!new), V>(d: Dict<K, V>): (vs: seq<V>)
    requires Proper(d)
    ensures |vs| == |d.keys| && forall i | 0 <= i < |vs| :: vs[i] == d.at[d.keys[i]]
  {
    seq(|d.keys|, i requires 0 <= i < |d.keys| => d.at[d.keys[i]])
  }

  lemma PutProper<K(!new), V>(d: Dict<K, V>, key: K, value: V)
    requires Proper(d)
    ensures Proper(Put(d, key, value))
    ensures forall k :: k in Put(d, key, value).at <==> k in d.at || k == key
  {
  }

  /** `a or b` on optional text. */
  function Or(a: Option<string>, b: Option<string>): Option<string> {
    if a.GetOr("") != "" then a else b
  }

  // ---- Pages ----

  type PageDict = Dict<string, PageCandidate>

  const NO_PAGES: PageDict := Dict([], map[])

  function MergePage(old_: PageCandidate, new_: PageCandidate): PageCandidate {
    old_.(title := Or(old_.title, new_.title), summary := Or(old_.summary, new_.summary), sources := old_.sources + new_.sources)
  }

  function Collect(d: PageDict, c: PageCandidate): PageDict {
    Put(d, c.route, if c.route in d.at then MergePage(d.at[c.route], c) else c)
  }

  function CollectAll(cs: seq<PageCandidate>): PageDict {
    if cs == [] then NO_PAGES else Collect(CollectAll(cs[..|cs| - 1]), cs[|cs| - 1])
  }

  function Supply(d: PageDict, c: PageCandidate): PageDict {
    if c.route in d.at then d else Put(d, c.route, c)
  }

  // ---- Menus ----

  function TitleKey(title: Option<string>): Option<string> {
    var text := Normalized(title);
    var short := Strip(CutAt(Strip(CutAt(Strip(CutAt(Strip(CutAt(text, '_')), '|')), '-')), '\U{2014}'));
    if short == "" then None else Some(short)
  }

  /** The first page with a title decides its route. */
  function TitleRoutes(pages: seq<PageCandidate>): map<string, string> {
    if pages == [] then map[]
    else
      var titles, page := TitleRoutes(pages[..|pages| - 1]), pages[|pages| - 1];
      match TitleKey(page.title)
      case None => titles
      case Some(key) => if key in titles then titles else titles[key := page.route]
  }

  function RouteMenu(titles: map<string, string>, m: MenuCandidate): MenuCandidate {
    var route :=
      if m.route.Some? then m.route
      else match TitleKey(Some(m.name)) case None => None case Some(key) => if key in titles then Some(titles[key]) else None;
    m.(route := route, pageRoute := if m.pageRoute.Some? then m.pageRoute else route)
  }

  function RouteWith(titles: map<string, string>): MenuCandidate -> MenuCandidate {
    (m: MenuCandidate) => RouteMenu(titles, m)
  }

  /** The route of the page a menu belongs to; empty when it has none. */
  function PageRef(m: MenuCandidate): string {
    Or(m.pageRoute, m.route).GetOr("")
  }

  function SupplyMenus(d: PageDict, menus: seq<MenuCandidate>): PageDict {
    if menus == [] then d
    else
      var before, m := SupplyMenus(d, menus[..|menus| - 1]), menus[|menus| - 1];
      if PageRef(m) == "" then before else Supply(before, PageCandidate(PageRef(m), Some(m.name), None, {}))
  }

  // ---- Elements ----

  datatype ElementKey = ElementKey(
    pageRoute: string, signature: Option<string>, kind: string, role: Option<string>, text: Option<string>, locator: Option<string>)

  function KeyOf(c: ElementCandidate): ElementKey {
    ElementKey(c.pageRoute, c.signature, c.kind, c.role, c.text,
               if c.role.GetOr("") == "" && c.text.GetOr("") == "" then c.locator else None)
  }

  predicate Signed(c: ElementCandidate) {
    c.signature.GetOr("") != ""
  }

  type ElementDict = Dict<ElementKey, ElementCandidate>

  const NO_ELEMENTS: ElementDict := Dict([], map[])

  function MergeElement(old_: ElementCandidate, new_: ElementCandidate): ElementCandidate {
    old_.(kind := if new_.kind != "" then new_.kind else old_.kind,
    role := Or(new_.role, old_.role), text := Or(new_.text, old_.text), locator := Or(new_.locator, old_.locator),
    context := old_.context + new_.context,
    stability := if new_.stability.Some? then new_.stability else old_.stability)
  }

  function Represent(d: ElementDict, c: ElementCandidate): ElementDict {
    if !Signed(c) then d
    else Put(d, KeyOf(c), if KeyOf(c) in d.at then MergeElement(d.at[KeyOf(c)], c) else c)
  }

  function Representatives(cs: seq<ElementCandidate>): ElementDict {
    if cs == [] then NO_ELEMENTS else Represent(Representatives(cs[..|cs| - 1]), cs[|cs| - 1])
  }

  function SupplyElements(d: PageDict, elements: seq<ElementCandidate>): PageDict {
    if elements == [] then d
    else
      var e := elements[|elements| - 1];
      Supply(SupplyElements(d, elements[..|elements| - 1]), PageCandidate(e.pageRoute, None, None, {}))
  }

  /** Every kept element is signed and listed under its own key, one element a key, in the order in which
      the keys first appeared. */
  lemma {:induction false} RepresentativesMeaning(cs: seq<ElementCandidate>)
    ensures var d := Representatives(cs);
            && Proper(d) && d.keys == Dedupe(Map(Filter(cs, Signed), KeyOf))
            && forall k | k in d.at :: KeyOf(d.at[k]) == k && Signed(d.at[k])
  {
    if cs != [] {
      var front, c := cs[..|cs| - 1], cs[|cs| - 1];
      RepresentativesMeaning(front);
      if Signed(c) {
        PutProper(Representatives(front), KeyOf(c), Representatives(cs).at[KeyOf(c)]);
        assert Map(Filter(cs, Signed), KeyOf) == Map(Filter(front, Signed), KeyOf) + [KeyOf(c)];
        if KeyOf(c) in Representatives(front).at {
          MergeKeepsKey(Representatives(front).at[KeyOf(c)], c);
        }
      }
    }
  }

  lemma MergeKeepsKey(old_: ElementCandidate, new_: ElementCandidate)
    requires KeyOf(old_) == KeyOf(new_)
    ensures KeyOf(MergeElement(old_, new_)) == KeyOf(old_)
  {
  }

  method MergeRepresentatives(dom: seq<ElementCandidate>, probe: seq<ElementCandidate>) returns (r: seq<ElementCandidate>)
    ensures Proper(Representatives(dom + probe)) && r == Values(Representatives(dom + probe))
  {
    var all, d := dom + probe, NO_ELEMENTS;
    for i := 0 to |all|
      invariant d == Representatives(all[..i])
    {
      TakeTake(all, i);
      if Signed(all[i]) {
        var key := KeyOf(all[i]);
        d := Put(d, key, if key in d.at then MergeElement(d.at[key], all[i]) else all[i]);
      }
    }
    assert all[..|all|] == all;
    RepresentativesMeaning(all);
    r := Values(d);
  }

  // ---- Combining ----

  function MaxScore(scores: seq<Option<real>>): Option<real> {
    if scores == [] then None
    else
      var rest, last := MaxScore(scores[..|scores| - 1]), scores[|scores| - 1];
      if last.None? then rest else if rest.Some? && rest.value >= last.value then rest else last
  }

  function CombinedPages(discovery: Extraction, dom: Extraction, probe: Extraction): PageDict {
    var found := CollectAll(discovery.pages + dom.pages + probe.pages);
    SupplyElements(SupplyMenus(found, CombinedMenus(discovery, dom, probe)), CombinedElements(dom, probe))
  }

  function CombinedMenus(discovery: Extraction, dom: Extraction, probe: Extraction): seq<MenuCandidate> {
    var found := CollectAll(discovery.pages + dom.pages + probe.pages);
    CollectAllProper(discovery.pages + dom.pages + probe.pages);
    Map(dom.menus, RouteWith(TitleRoutes(Values(found))))
  }

  function CombinedElements(dom: Extraction, probe: Extraction): seq<ElementCandidate> {
    RepresentativesMeaning(dom.elements + probe.elements);
    Values(Representatives(dom.elements + probe.elements))
  }

  /** `framework` is what the system row says. */
  method CombineResults(discovery: Extraction, dom: Extraction, probe: Extraction, framework: Option<string>) returns (r: Extraction)
    ensures var pages := CombinedPages(discovery, dom, probe);
            && Proper(pages) && r.pages == Values(pages)
            && r.menus == CombinedMenus(discovery, dom, probe)
            && r.elements == CombinedElements(dom, probe)
            && r.degraded == (discovery.degraded || dom.degraded || r.pages == [])
    ensures r.quality == MaxScore([discovery.quality, dom.quality, probe.quality])
    ensures r.warnings == discovery.warnings + dom.warnings + probe.warnings
    ensures r.failure == if Or(discovery.failure, dom.failure).Some? || r.pages != [] then Or(discovery.failure, dom.failure) else probe.failure
    ensures r.framework == Or(Or(Or(discovery.framework, probe.framework), dom.framework), framework)
  {
    var elements := MergeRepresentatives(dom.elements, probe.elements);
    var candidates, pages := discovery.pages + dom.pages + probe.pages, NO_PAGES;
    for i := 0 to |candidates|
      invariant pages == CollectAll(candidates[..i])
    {
      TakeTake(candidates, i);
      pages := Collect(pages, candidates[i]);
    }
    assert candidates[..|candidates|] == candidates;
    CollectAllProper(candidates);
    var titles := BuildTitleRoutes(Values(pages));
    var menus := [];
    for i := 0 to |dom.menus|
      invariant menus == Map(dom.menus[..i], RouteWith(titles))
    {
      TakeTake(dom.menus, i);
      menus := menus + [RouteMenu(titles, dom.menus[i])];
    }
    assert dom.menus[..|dom.menus|] == dom.menus;
    pages := SupplyAll(pages, menus, elements);
    CombinedProper(discovery, dom, probe);
    var degraded := discovery.degraded || dom.degraded || |pages.keys| == 0;
    var failure := Or(discovery.failure, dom.failure);
    if failure.None? && |pages.keys| == 0 {
      failure := probe.failure;
    }
    r := Extraction(
      Or(Or(Or(discovery.framework, probe.framework), dom.framework), framework),
      MaxScore([discovery.quality, dom.quality, probe.quality]), Values(pages), menus, elements, failure,
      discovery.warnings + dom.warnings + probe.warnings, degraded);
  }

  method BuildTitleRoutes(pages: seq<PageCandidate>) returns (titles: map<string, string>)
    ensures titles == TitleRoutes(pages)
  {
    titles := map[];
    for i := 0 to |pages|
      invariant titles == TitleRoutes(pages[..i])
    {
      TakeTake(pages, i);
      var key := TitleKey(pages[i].title);
      if key.Some? && key.value !in titles {
        titles := titles[key.value := pages[i].route];
      }
    }
    assert pages[..|pages|] == pages;
  }

  /** Pages for the routes that only menus or elements mention. */
  method SupplyAll(found: PageDict, menus: seq<MenuCandidate>, elements: seq<ElementCandidate>) returns (pages: PageDict)
    ensures pages == SupplyElements(SupplyMenus(found, menus), elements)
  {
    pages := found;
    for i := 0 to |menus|
      invariant pages == SupplyMenus(found, menus[..i])
    {
      TakeTake(menus, i);
      if PageRef(menus[i]) != "" && PageRef(menus[i]) !in pages.at {
        pages := Put(pages, PageRef(menus[i]), PageCandidate(PageRef(menus[i]), Some(menus[i].name), None, {}));
      }
    }
    assert menus[..|menus|] == menus;
    ghost var routed := pages;
    for i := 0 to |elements|
      invariant pages == SupplyElements(routed, elements[..i])
    {
      TakeTake(elements, i);
      var route := elements[i].pageRoute;
      if route !in pages.at {
        pages := Put(pages, route, PageCandidate(route, None, None, {}));
      }
    }
    assert elements[..|elements|] == elements;
  }

  // ---- What combining guarantees ----

  /** Each page is listed under its own route. */
  ghost predicate OwnRoutes(d: PageDict) {
    Proper(d) && forall r | r in d.at :: d.at[r].route == r
  }

  ghost predicate Offers(cs: seq<PageCandidate>, route: string) {
    exists c :: c in cs && c.route == route
  }

  ghost predicate Mentions(menus: seq<MenuCandidate>, route: string) {
    exists m :: m in menus && PageRef(m) == route
  }

  ghost predicate Hosts(elements: seq<ElementCandidate>, route: string) {
    exists e :: e in elements && e.pageRoute == route
  }

  lemma {:induction false} CollectAllProper(cs: seq<PageCandidate>)
    ensures OwnRoutes(CollectAll(cs)) && forall r :: r in CollectAll(cs).at <==> Offers(cs, r)
  {
    if cs != [] {
      var front, c := cs[..|cs| - 1], cs[|cs| - 1];
      CollectAllProper(front);
      PutProper(CollectAll(front), c.route, CollectAll(cs).at[c.route]);
      SnocSplit(cs);
      assert c in cs;
      forall r | Offers(front, r) ensures Offers(cs, r) {
        var p :| p in front && p.route == r;
        assert p in cs;
      }
    }
  }

  lemma {:induction false} SupplyMenusMeaning(d: PageDict, menus: seq<MenuCandidate>)
    requires OwnRoutes(d)
    ensures OwnRoutes(SupplyMenus(d, menus))
    ensures forall r :: r in SupplyMenus(d, menus).at <==> r in d.at || (r != "" && Mentions(menus, r))
  {
    if menus != [] {
      var front, m := menus[..|menus| - 1], menus[|menus| - 1];
      SupplyMenusMeaning(d, front);
      SnocSplit(menus);
      assert m in menus;
      forall r | Mentions(front, r) ensures Mentions(menus, r) {
        var n :| n in front && PageRef(n) == r;
        assert n in menus;
      }
    }
  }

  lemma {:induction false} SupplyElementsMeaning(d: PageDict, elements: seq<ElementCandidate>)
    requires OwnRoutes(d)
    ensures OwnRoutes(SupplyElements(d, elements))
    ensures forall r :: r in SupplyElements(d, elements).at <==> r in d.at || Hosts(elements, r)
  {
    if elements != [] {
      var front, e := elements[..|elements| - 1], elements[|elements| - 1];
      SupplyElementsMeaning(d, front);
      SnocSplit(elements);
      assert e in elements;
      forall r | Hosts(front, r) ensures Hosts(elements, r) {
        var f :| f in front && f.pageRoute == r;
        assert f in elements;
      }
    }
  }

  /** The combined pages have distinct routes, and these are the routes of the pages found, of the routed
      menus and of the kept elements, and no others. */
  lemma CombinedProper(discovery: Extraction, dom: Extraction, probe: Extraction)
    ensures var d := CombinedPages(discovery, dom, probe);
            && OwnRoutes(d)
            && forall r :: r in d.at <==>
                 || Offers(discovery.pages + dom.pages + probe.pages, r)
                 || (r != "" && Mentions(CombinedMenus(discovery, dom, probe), r))
                 || Hosts(CombinedElements(dom, probe), r)
  {
    var found := CollectAll(discovery.pages + dom.pages + probe.pages);
    CollectAllProper(discovery.pages + dom.pages + probe.pages);
    SupplyMenusMeaning(found, CombinedMenus(discovery, dom, probe));
    SupplyElementsMeaning(SupplyMenus(found, CombinedMenus(discovery, dom, probe)), CombinedElements(dom, probe));
  }

  // ---- Which candidate's data a combined page or element carries ----

  /** The first non-empty text, or the empty one when there is none. */
  ghost predicate FirstFilled(texts: seq<Option<string>>, text: string) {
    if text == "" then forall t | t in texts :: t.GetOr("") == ""
    else exists i :: 0 <= i < |texts| && texts[i] == Some(text) && forall j | 0 <= j < i :: texts[j].GetOr("") == ""
  }

  lemma FirstFilledSnoc(texts: seq<Option<string>>, a: Option<string>, b: Option<string>)
    requires FirstFilled(texts, a.GetOr(""))
    ensures FirstFilled(texts + [b], Or(a, b).GetOr(""))
  {
    var all := texts + [b];
    if a.GetOr("") != "" {
      var i :| 0 <= i < |texts| && texts[i] == Some(a.value) && forall j | 0 <= j < i :: texts[j].GetOr("") == "";
      assert all[i] == Some(a.value) && forall j | 0 <= j < i :: all[j] == texts[j];
    } else if b.GetOr("") != "" {
      forall j | 0 <= j < |texts| ensures all[j].GetOr("") == "" {
        assert texts[j] in texts;
      }
      assert all[|texts|] == b;
    }
  }

  function WithRoute(route: string): PageCandidate -> bool {
    (c: PageCandidate) => c.route == route
  }

  function TitleOf(c: PageCandidate): Option<string> { c.title }

  function SummaryOf(c: PageCandidate): Option<string> { c.summary }

  /** A page found several times carries the first non-empty title and summary, in the order discovery, menus,
      probe, and the union of the sources. */
  lemma {:induction false} CollectedPage(cs: seq<PageCandidate>, route: string)
    requires route in CollectAll(cs).at
    ensures var own, page := Filter(cs, WithRoute(route)), CollectAll(cs).at[route];
            && FirstFilled(Map(own, TitleOf), page.title.GetOr(""))
            && FirstFilled(Map(own, SummaryOf), page.summary.GetOr(""))
            && page.sources == AllSources(own)
  {
    var front, last := cs[..|cs| - 1], cs[|cs| - 1];
    var before := Filter(front, WithRoute(route));
    if last.route != route {
      CollectedPage(front, route);
    } else if route in CollectAll(front).at {
      CollectedPage(front, route);
      MergedPage(before, CollectAll(front).at[route], last);
    } else {
      NotCollected(front, route);
      MergedPage([], PageCandidate(route, None, None, {}), last);
      FirstFilledSnoc([], None, last.title);
      FirstFilledSnoc([], None, last.summary);
      assert [] + [last] == [last] && [] + [last.title] == Map([last], TitleOf) && [] + [last.summary] == Map([last], SummaryOf);
    }
  }

  function AllSources(own: seq<PageCandidate>): set<string> {
    if own == [] then {} else AllSources(own[..|own| - 1]) + own[|own| - 1].sources
  }

  lemma MergedPage(before: seq<PageCandidate>, page: PageCandidate, last: PageCandidate)
    requires FirstFilled(Map(before, TitleOf), page.title.GetOr("")) && FirstFilled(Map(before, SummaryOf), page.summary.GetOr(""))
    requires page.sources == AllSources(before)
    ensures var merged := MergePage(page, last);
            && FirstFilled(Map(before + [last], TitleOf), merged.title.GetOr(""))
            && FirstFilled(Map(before + [last], SummaryOf), merged.summary.GetOr(""))
            && merged.sources == AllSources(before + [last])
  {
    assert Map(before + [last], TitleOf) == Map(before, TitleOf) + [last.title];
    assert Map(before + [last], SummaryOf) == Map(before, SummaryOf) + [last.summary];
    FirstFilledSnoc(Map(before, TitleOf), page.title, last.title);
    FirstFilledSnoc(Map(before, SummaryOf), page.summary, last.summary);
    assert (before + [last])[..|before|] == before;
  }

  lemma NotCollected(cs: seq<PageCandidate>, route: string)
    requires route !in CollectAll(cs).at
    ensures Filter(cs, WithRoute(route)) == []
  {
    CollectAllProper(cs);
    FilterMembers(cs, WithRoute(route));
    var own := Filter(cs, WithRoute(route));
    if own != [] {
      assert own[0] in own && own[0] in cs;
      assert Offers(cs, route);
    }
  }

  function Titled(key: string): PageCandidate -> bool {
    (p: PageCandidate) => TitleKey(p.title) == Some(key)
  }

  /** The title map leads to the first page whose normalised title it is. */
  lemma {:induction false} TitleRoutesMeaning(pages: seq<PageCandidate>, key: string)
    ensures var own := Filter(pages, Titled(key));
            && (key in TitleRoutes(pages) <==> own != [])
            && (own != [] ==> TitleRoutes(pages)[key] == own[0].route)
  {
    if pages != [] {
      TitleRoutesMeaning(pages[..|pages| - 1], key);
    }
  }

  /** A menu with a route keeps it; one without takes the route of the first page titled like it, if any. Its
      page is the one it names, else the one of its route. Nothing else about it changes. */
  lemma RoutedByTitle(pages: seq<PageCandidate>, m: MenuCandidate)
    ensures var r := RouteMenu(TitleRoutes(pages), m);
            && r == m.(route := r.route, pageRoute := r.pageRoute)
            && r.pageRoute == (if m.pageRoute.Some? then m.pageRoute else r.route)
            && match TitleKey(Some(m.name))
               case None => r.route == m.route
               case Some(key) =>
                 var own := Filter(pages, Titled(key));
                 r.route == if m.route.Some? || own == [] then m.route else Some(own[0].route)
  {
    match TitleKey(Some(m.name))
    case None =>
    case Some(key) => TitleRoutesMeaning(pages, key);
  }

  /** The best score given, and none exactly when none was given. */
  lemma {:induction false} MaxScoreMeaning(scores: seq<Option<real>>)
    ensures var m := MaxScore(scores);
            && (m.None? <==> forall s | s in scores :: s.None?)
            && (m.Some? ==> m in scores && forall s | s in scores && s.Some? :: s.value <= m.value)
  {
    if scores != [] {
      MaxScoreMeaning(scores[..|scores| - 1]);
      SnocSplit(scores);
    }
  }

  /** The last of the values given, and none exactly when none was given. */
  ghost predicate LastGiven<T(!new)>(offers: seq<Option<T>>, r: Option<T>) {
    if r.None? then forall o | o in offers :: o.None?
    else exists i :: 0 <= i < |offers| && offers[i] == r && forall j | i < j < |offers| :: offers[j].None?
  }

  lemma LastGivenSnoc<T(!new)>(offers: seq<Option<T>>, a: Option<T>, b: Option<T>)
    requires LastGiven(offers, a)
    ensures LastGiven(offers + [b], if b.Some? then b else a)
  {
    var all := offers + [b];
    if b.Some? {
      assert all[|offers|] == b;
    } else if a.Some? {
      var i :| 0 <= i < |offers| && offers[i] == a && forall j | i < j < |offers| :: offers[j].None?;
      assert all[i] == a && forall j | i < j < |all| :: all[j].None?;
    }
  }

  function SignedAs(key: ElementKey): ElementCandidate -> bool {
    (c: ElementCandidate) => Signed(c) && KeyOf(c) == key
  }

  function LocatorOf(c: ElementCandidate): Option<string> {
    if c.locator.GetOr("") == "" then None else c.locator
  }

  function StabilityOf(c: ElementCandidate): Option<real> { c.stability }

  function ContextAt(name: string): ElementCandidate -> Option<string> {
    (c: ElementCandidate) => if name in c.context then Some(c.context[name]) else None
  }

  /** The element carries the last locator, stability and context entries that its candidates give. */
  ghost predicate Carries(e: ElementCandidate, own: seq<ElementCandidate>) {
    && LastGiven(Map(own, LocatorOf), LocatorOf(e))
    && LastGiven(Map(own, StabilityOf), e.stability)
    && (forall name :: LastGiven(Map(own, ContextAt(name)), ContextAt(name)(e)))
  }

  lemma CarriesOne(c: ElementCandidate)
    ensures Carries(c, [c])
  {
    forall name ensures LastGiven(Map([c], ContextAt(name)), ContextAt(name)(c)) {
      assert Map([c], ContextAt(name))[0] == ContextAt(name)(c);
    }
    assert Map([c], LocatorOf)[0] == LocatorOf(c) && Map([c], StabilityOf)[0] == c.stability;
  }

  lemma CarriesMore(e: ElementCandidate, own: seq<ElementCandidate>, c: ElementCandidate)
    requires Carries(e, own)
    ensures Carries(MergeElement(e, c), own + [c])
  {
    var m := MergeElement(e, c);
    assert Map(own + [c], LocatorOf) == Map(own, LocatorOf) + [LocatorOf(c)];
    LastGivenSnoc(Map(own, LocatorOf), LocatorOf(e), LocatorOf(c));
    assert Map(own + [c], StabilityOf) == Map(own, StabilityOf) + [c.stability];
    LastGivenSnoc(Map(own, StabilityOf), e.stability, c.stability);
    forall name ensures LastGiven(Map(own + [c], ContextAt(name)), ContextAt(name)(m)) {
      assert Map(own + [c], ContextAt(name)) == Map(own, ContextAt(name)) + [ContextAt(name)(c)];
      LastGivenSnoc(Map(own, ContextAt(name)), ContextAt(name)(e), ContextAt(name)(c));
    }
  }

  /** A kept element carries, of all signed candidates with its key, the last non-empty locator, the last
      stability given and for every context entry the last value given. Menu-tree candidates come before
      those of the probe. */
  lemma {:induction false} RepresentativeData(cs: seq<ElementCandidate>, key: ElementKey)
    requires key in Representatives(cs).at
    ensures Carries(Representatives(cs).at[key], Filter(cs, SignedAs(key)))
  {
    var front, c := cs[..|cs| - 1], cs[|cs| - 1];
    var own := Filter(front, SignedAs(key));
    if !SignedAs(key)(c) {
      RepresentativeData(front, key);
    } else if key in Representatives(front).at {
      RepresentativeData(front, key);
      CarriesMore(Representatives(front).at[key], own, c);
    } else {
      NotRepresented(front, key);
      CarriesOne(c);
      assert own + [c] == [c];
    }
  }

  lemma SignedRepresented(cs: seq<ElementCandidate>, c: ElementCandidate)
    requires c in cs && Signed(c)
    ensures KeyOf(c) in Representatives(cs).at
  {
    var signed := Filter(cs, Signed);
    RepresentativesMeaning(cs);
    FilterMembers(cs, Signed);
    DedupeMembers(Map(signed, KeyOf));
    var i :| 0 <= i < |signed| && signed[i] == c;
    assert Map(signed, KeyOf)[i] == KeyOf(c);
    assert KeyOf(c) in Representatives(cs).keys;
  }

  lemma NotRepresented(cs: seq<ElementCandidate>, key: ElementKey)
    requires key !in Representatives(cs).at
    ensures Filter(cs, SignedAs(key)) == []
  {
    var own := Filter(cs, SignedAs(key));
    assert own == [] || own[0] in own;
    FilterMembers(cs, SignedAs(key));
    forall c | c in cs ensures !SignedAs(key)(c) {
      if Signed(c) {
        SignedRepresented(cs, c);
      }
    }
  }

  /** Two finds are one element exactly if they agree on page, state, kind, role and text, and also on the
      locator where neither role nor text is given. */
  lemma SameElementMeaning(a: ElementCandidate, b: ElementCandidate)
    ensures KeyOf(a) == KeyOf(b) <==>
            && a.pageRoute == b.pageRoute && a.signature == b.signature && a.kind == b.kind && a.role == b.role && a.text == b.text
            && ((a.role == None || a.role == Some("")) && (a.text == None || a.text == Some("")) ==> a.locator == b.locator)
  {
  }

  // ---- Title keys ----

  predicate Separator(c: char) {
    c == '_' || c == '|' || c == '-' || c == '\U{2014}'
  }

  /** What comes before the first separator of any kind. */
  function BeforeSeparator(text: string): string {
    if text == "" || Separator(text[0]) then "" else [text[0]] + BeforeSeparator(text[1..])
  }

  lemma {:induction false} CutAll(text: string)
    ensures CutAt(CutAt(CutAt(CutAt(text, '_'), '|'), '-'), '\U{2014}') == BeforeSeparator(text)
  {
    if text != "" && !Separator(text[0]) {
      var a := CutAt(text, '_');
      var b := CutAt(a, '|');
      var c := CutAt(b, '-');
      assert a[1..] == CutAt(text[1..], '_') && b[1..] == CutAt(a[1..], '|') && c[1..] == CutAt(b[1..], '-');
      CutAll(text[1..]);
    }
  }

  lemma {:induction false} CutBlankEnd(text: string, after: string, c: char)
    requires Blank(after) && !IsSpace(c)
    ensures exists rest :: CutAt(text + after, c) == CutAt(text, c) + rest && Blank(rest)
  {
    if text == "" {
      CutBlank(after, c);
      assert text + after == after;
      assert CutAt(text + after, c) == CutAt(text, c) + after;
    } else if text[0] == c {
      assert (text + after)[0] == c;
      assert CutAt(text + after, c) == CutAt(text, c) + "";
    } else {
      assert (text + after)[1..] == text[1..] + after;
      CutBlankEnd(text[1..], after, c);
      var rest :| CutAt(text[1..] + after, c) == CutAt(text[1..], c) + rest && Blank(rest);
      assert CutAt(text + after, c) == CutAt(text, c) + rest;
    }
  }

  lemma {:induction false} CutBlank(text: string, c: char)
    requires Blank(text) && !IsSpace(c)
    ensures CutAt(text, c) == text
  {
    if text != "" {
      assert text[0] in text;
      CutBlank(text[1..], c);
      assert text == [text[0]] + text[1..];
    }
  }

  lemma {:induction false} CutBlankStart(before: string, text: string, c: char)
    requires Blank(before) && !IsSpace(c)
    ensures CutAt(before + text, c) == before + CutAt(text, c)
  {
    if before != "" {
      assert before[0] in before && (before + text)[1..] == before[1..] + text;
      CutBlankStart(before[1..], text, c);
    } else {
      assert before + text == text;
    }
  }

  lemma StripEnds(before: string, text: string, after: string)
    requires Blank(before) && Blank(after)
    ensures Strip(before + text + after) == Strip(text)
  {
    var l, r := StripAround(text);
    assert before + text + after == (before + l) + Strip(text) + (r + after);
    assert Around(before + text + after, before + l, Strip(text), r + after);
    StripMeaning(before + text + after, Strip(text));
  }

  /** Stripping before cutting does not show after stripping. */
  lemma StripCut(text: string, c: char)
    requires !IsSpace(c)
    ensures Strip(CutAt(Strip(text), c)) == Strip(CutAt(text, c))
  {
    var before, after := StripAround(text);
    var core := Strip(text);
    assert text == before + (core + after);
    CutBlankStart(before, core + after, c);
    CutBlankEnd(core, after, c);
    var rest :| CutAt(core + after, c) == CutAt(core, c) + rest && Blank(rest);
    assert before + (CutAt(core, c) + rest) == before + CutAt(core, c) + rest;
    StripEnds(before, CutAt(core, c), rest);
  }

  /** A title counts by what comes before its first separator, stripped, if that is anything. */
  lemma TitleKeyMeaning(title: Option<string>)
    ensures var short := Strip(BeforeSeparator(title.GetOr("")));
            TitleKey(title) == if short == "" then None else Some(short)
  {
    var text := title.GetOr("");
    CutAll(text);
    StripChain(text);
  }

  lemma StripChain(text: string)
    ensures Strip(CutAt(Strip(CutAt(Strip(CutAt(Strip(CutAt(Strip(text), '_')), '|')), '-')), '\U{2014}'))
         == Strip(CutAt(CutAt(CutAt(CutAt(text, '_'), '|'), '-'), '\U{2014}'))
  {
    StripCut(text, '_');
    StripCut(CutAt(text, '_'), '|');
    StripCut(CutAt(CutAt(text, '_'), '|'), '-');
    StripCut(CutAt(CutAt(CutAt(text, '_'), '|'), '-'), '\U{2014}');
  }
}
