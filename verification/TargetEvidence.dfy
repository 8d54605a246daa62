/** Evidence about a navigation target and how two pieces of it merge:
    `crawler_service/navigation_targets.py`. */
module TargetEvidence {
  import opened Basics
  import opened Text

  datatype Locator = Locator(strategy: string, selector: string)

  datatype Json =
    | JNull
    | JBool(b: bool)
    | JInt(n: int)
    | JFloat(r: real)
    | JStr(text: string)
    | JList(items: seq<Json>)
    | JObj(fields: map<string, Json>)

  type Metadata = map<string, Json>

  datatype Evidence = Evidence(source: Option<string>, locators: seq<Locator>, metadata: Metadata)

  // ---- Routes and locators ----

  function DropTrailing(text: string, c: char): string {
    if text != "" && text[|text| - 1] == c then DropTrailing(text[..|text| - 1], c) else text
  }

  function NormalRoute(raw: Option<string>): Option<string> {
    var route := Normalized(raw);
    if route == "" || route[0] != '/' then None
    else
      var path := DropTrailing(CutAt(CutAt(route, '?'), '#'), '/');
      Some(if path == "" then "/" else path)
  }

  lemma {:induction false} DropTrailingMeaning(text: string, c: char)
    ensures DropTrailing(text, c) <= text && (DropTrailing(text, c) != "" ==> DropTrailing(text, c)[|DropTrailing(text, c)| - 1] != c)
    ensures forall k | |DropTrailing(text, c)| <= k < |text| :: text[k] == c
  {
    if text != "" && text[|text| - 1] == c {
      DropTrailingMeaning(text[..|text| - 1], c);
    }
  }

  /** What comes before the first `?` and the first `#`. */
  ghost predicate PathOf(route: string, path: string) {
    && path <= route && '?' !in path && '#' !in path
    && (|path| < |route| ==> route[|path|] == '?' || route[|path|] == '#')
  }

  lemma CutPath(route: string)
    ensures PathOf(route, CutAt(CutAt(route, '?'), '#'))
  {
    CutAtMeaning(route, '?');
    CutAtMeaning(CutAt(route, '?'), '#');
    var cut, path := CutAt(route, '?'), CutAt(CutAt(route, '?'), '#');
    assert forall c | c in path :: c in cut;
  }

  /** A route must start with a slash. Without query and fragment it loses the slashes at its end, unless
      it consists of nothing else. */
  lemma NormalRouteMeaning(raw: Option<string>)
    ensures NormalRoute(raw).Some? <==> raw.Some? && "/" <= Strip(raw.value)
    ensures NormalRoute(raw).Some? ==>
              exists path :: PathOf(Strip(raw.value), path) && WithoutEnd(path, NormalRoute(raw).value)
  {
    if raw.Some? && "/" <= Strip(raw.value) {
      var route := Strip(raw.value);
      var path := CutAt(CutAt(route, '?'), '#');
      CutPath(route);
      DropTrailingMeaning(path, '/');
      assert path != "" && path[0] == '/';
      assert WithoutEnd(path, NormalRoute(raw).value);
    }
  }

  /** The path without the slashes at its end; the root stays. */
  ghost predicate WithoutEnd(path: string, route: string) {
    && route <= path && (forall k | |route| <= k < |path| :: path[k] == '/')
    && (route == "/" || (route != "" && route[|route| - 1] != '/'))
    && "/" <= route
  }

  /** `_normalize_text`: blank text is no text. */
  function NormalText(raw: Option<string>): Option<string> {
    if Normalized(raw) == "" then None else Some(Normalized(raw))
  }

  function CleanLocator(l: Locator): Locator {
    Locator(Strip(l.strategy), Strip(l.selector))
  }

  predicate Usable(l: Locator) {
    l.strategy != "" && l.selector != ""
  }

  function NormalLocators(raw: seq<Locator>): seq<Locator> {
    Dedupe(Filter(Map(raw, CleanLocator), Usable))
  }

  /** What normalisation produces: stripped, usable, without repetition. */
  ghost predicate CleanList(s: seq<Locator>) {
    Distinct(s) && forall l | l in s :: CleanLocator(l) == l && Usable(l)
  }

  lemma NormalLocatorsClean(raw: seq<Locator>)
    ensures CleanList(NormalLocators(raw))
  {
    var cleaned := Map(raw, CleanLocator);
    FilterMembers(cleaned, Usable);
    DedupeMembers(Filter(cleaned, Usable));
    forall l | l in NormalLocators(raw) ensures CleanLocator(l) == l && Usable(l) {
      assert l in cleaned;
      var i :| 0 <= i < |raw| && cleaned[i] == l;
      StripIdempotent(raw[i].strategy);
      StripIdempotent(raw[i].selector);
    }
  }

  lemma {:induction false} CleanFiltered(s: seq<Locator>)
    requires forall l | l in s :: CleanLocator(l) == l && Usable(l)
    ensures Filter(Map(s, CleanLocator), Usable) == s
  {
    assert Map(s, CleanLocator) == s by {
      forall i | 0 <= i < |s| ensures CleanLocator(s[i]) == s[i] { assert s[i] in s; }
    }
    FilterAll(s);
  }

  lemma {:induction false} FilterAll(s: seq<Locator>)
    requires forall l | l in s :: Usable(l)
    ensures Filter(s, Usable) == s
  {
    if s != [] {
      FilterAll(s[..|s| - 1]);
      assert s[|s| - 1] in s;
    }
  }

  // ---- Discovery sources ----

  function Priority(source: string): nat {
    if source == "runtime_route_hints" then 0
    else if source == "dom_menu_tree" then 1
    else if source == "network_route_config" then 2
    else if source == "network_resource" then 3
    else if source == "network_request" then 4
    else if source == "reachability_probe" then 5
    else 100
  }

  function PreferSource(existing: Option<string>, incoming: Option<string>): Option<string> {
    if existing.None? then incoming
    else if incoming.None? then existing
    else if Priority(incoming.value) < Priority(existing.value) then incoming
    else if Priority(incoming.value) > Priority(existing.value) then existing
    else if StrLe(existing.value, incoming.value) then existing else incoming
  }

  /** Order by priority, then by name. */
  predicate SourceLe(a: string, b: string) {
    if Priority(a) != Priority(b) then Priority(a) < Priority(b) else StrLe(a, b)
  }

  lemma SourceOrder()
    ensures forall a, b :: SourceLe(a, b) || SourceLe(b, a)
    ensures forall a, b :: SourceLe(a, b) && SourceLe(b, a) ==> a == b
    ensures forall a, b, c :: SourceLe(a, b) && SourceLe(b, c) ==> SourceLe(a, c)
  {
    StrOrder();
  }

  const KNOWN_SOURCES: seq<string> :=
    ["runtime_route_hints", "dom_menu_tree", "network_route_config", "network_resource", "network_request", "reachability_probe"]

  /** The known sources come in this order and before all others, which go by name. */
  lemma SourceOrderMeaning(a: string, b: string)
    ensures forall i, j | 0 <= i < j < |KNOWN_SOURCES| :: !SourceLe(KNOWN_SOURCES[j], KNOWN_SOURCES[i])
    ensures a in KNOWN_SOURCES && b !in KNOWN_SOURCES ==> SourceLe(a, b) && !SourceLe(b, a)
    ensures a !in KNOWN_SOURCES && b !in KNOWN_SOURCES ==> (SourceLe(a, b) <==> StrLe(a, b))
  {
    forall s ensures s in KNOWN_SOURCES <==> Priority(s) < 100 {
      KnownPriority(s);
    }
    forall i | 0 <= i < |KNOWN_SOURCES| ensures Priority(KNOWN_SOURCES[i]) == i {
      KnownRank(i);
    }
  }

  lemma KnownRank(i: nat)
    requires i < |KNOWN_SOURCES|
    ensures Priority(KNOWN_SOURCES[i]) == i
  {
    var s := KNOWN_SOURCES[i];
    assert s[0] == 'r' || s[0] == 'd' || s[0] == 'n';
    assert i == 5 ==> s[1] == 'e';
    assert 2 <= i <= 4 ==> |s| == [0, 0, 20, 16, 15][i];
  }

  lemma KnownPriority(s: string)
    ensures s in KNOWN_SOURCES <==> Priority(s) < 100
  {
    assert KNOWN_SOURCES[0] in KNOWN_SOURCES && KNOWN_SOURCES[1] in KNOWN_SOURCES && KNOWN_SOURCES[2] in KNOWN_SOURCES;
    assert KNOWN_SOURCES[3] in KNOWN_SOURCES && KNOWN_SOURCES[4] in KNOWN_SOURCES && KNOWN_SOURCES[5] in KNOWN_SOURCES;
    if s in KNOWN_SOURCES {
      var i :| 0 <= i < |KNOWN_SOURCES| && KNOWN_SOURCES[i] == s;
      KnownRank(i);
    }
  }

  /** The least of the sources given, and none exactly when none was given. */
  ghost predicate LeastSource(best: Option<string>, sources: seq<Option<string>>) {
    && (best.None? <==> forall s | s in sources :: s.None?)
    && (best.Some? ==> best in sources && forall s | s in sources && s.Some? :: SourceLe(best.value, s.value))
  }

  lemma PreferLeast(best: Option<string>, sources: seq<Option<string>>, incoming: Option<string>)
    requires LeastSource(best, sources)
    ensures LeastSource(PreferSource(best, incoming), sources + [incoming])
  {
    SourceOrder();
    var r := PreferSource(best, incoming);
    forall s | s in sources + [incoming] && s.Some? && r.Some? ensures SourceLe(r.value, s.value) {
      if s in sources && best.Some? { assert SourceLe(best.value, s.value); }
    }
  }

  lemma LeastUnique(a: Option<string>, b: Option<string>, s: seq<Option<string>>, t: seq<Option<string>>)
    requires LeastSource(a, s) && LeastSource(b, t) && forall x :: x in s <==> x in t
    ensures a == b
  {
    SourceOrder();
  }

  // ---- Metadata ----

  predicate IsEmpty(j: Json) {
    j == JNull || j == JStr("") || j == JList([]) || j == JObj(map[])
  }

  /** An absent entry reads as null. */
  function Lookup(m: Metadata, key: string): Json {
    if key in m then m[key] else JNull
  }

  function MergeJson(old_: Json, new_: Json): Json
    decreases new_
  {
    if old_.JObj? && new_.JObj? then
      JObj(map key | key in old_.fields.Keys + new_.fields.Keys ::
             if key in new_.fields then MergeJson(Lookup(old_.fields, key), new_.fields[key]) else old_.fields[key])
    else if old_.JList? && new_.JList? then JList(Dedupe(old_.items + new_.items))
    else if IsEmpty(old_) then new_
    else old_
  }

  function MergeMetadata(existing: Metadata, incoming: Metadata): Metadata {
    MergeJson(JObj(existing), JObj(incoming)).fields
  }

  /** Every key survives, new keys arrive with their value, and a value that is neither empty nor merged
      with one of its own kind is never overwritten. */
  lemma MetadataKeeps(existing: Metadata, incoming: Metadata)
    ensures var m := MergeMetadata(existing, incoming);
            && m.Keys == existing.Keys + incoming.Keys
            && (forall k | k in incoming && k !in existing :: m[k] == incoming[k])
            && (forall k | k in existing && (k !in incoming || (!IsEmpty(existing[k]) && !existing[k].JObj? && !existing[k].JList?)) ::
                  m[k] == existing[k])
  {
    var m := MergeMetadata(existing, incoming);
    forall k | k in incoming ensures m[k] == MergeJson(Lookup(existing, k), incoming[k]) {
    }
    assert forall v :: MergeJson(JNull, v) == v;
  }

  /** What both sides say about a key: objects are merged key by key, lists are joined without repetition,
      nothing at all gives way, and anything else stays. */
  lemma MetadataMeets(existing: Metadata, incoming: Metadata, k: string)
    requires k in existing && k in incoming
    ensures var m, a, b := MergeMetadata(existing, incoming)[k], existing[k], incoming[k];
            && (a.JObj? && b.JObj? ==> m == JObj(MergeMetadata(a.fields, b.fields)))
            && (a.JList? && b.JList? ==> m == JList(Dedupe(a.items + b.items)))
            && ((a == JNull || a == JStr("") || (a == JList([]) && !b.JList?) || (a == JObj(map[]) && !b.JObj?)) ==> m == b)
            && (!(a.JObj? && b.JObj?) && !(a.JList? && b.JList?) && a != JNull && a != JStr("") && a != JList([]) && a != JObj(map[]) ==> m == a)
  {
    assert MergeMetadata(existing, incoming)[k] == MergeJson(existing[k], incoming[k]);
  }

  /** Merging a value with itself returns it exactly when no list in it, at any depth of objects, repeats
      an item. */
  predicate NoRepeats(j: Json) {
    match j
    case JList(items) => forall i, k | 0 <= i < k < |items| :: items[i] != items[k]
    case JObj(fields) => forall key | key in fields :: NoRepeats(fields[key])
    case _ => true
  }

  lemma DedupeTwice(s: seq<Json>)
    ensures Dedupe(s + s) == s <==> Distinct(s)
  {
    DedupeAbsorbs(s, s);
    DedupeMembers(s);
    if Distinct(s) {
      DedupeDistinct(s);
    }
  }

  lemma {:induction false} MergeSelf(j: Json)
    ensures MergeJson(j, j) == j <==> NoRepeats(j)
    decreases j
  {
    match j
    case JList(items) => DedupeTwice(items);
    case JObj(fields) =>
      forall key | key in fields ensures MergeJson(fields[key], fields[key]) == fields[key] <==> NoRepeats(fields[key]) {
        MergeSelf(fields[key]);
      }
      var m := MergeJson(j, j);
      assert forall key | key in fields :: m.fields[key] == MergeJson(fields[key], fields[key]);
      if m == j {
        forall key | key in fields ensures NoRepeats(fields[key]) {
          assert m.fields[key] == fields[key];
        }
      }
      if NoRepeats(j) {
        assert m.fields == fields;
      }
    case _ =>
  }

  /** When a repeated merge of the same value changes nothing any more: where the value is taken over as
      it is, its lists must not repeat items. */
  predicate Absorbed(old_: Json, new_: Json)
    decreases new_
  {
    if old_.JObj? && new_.JObj? then forall key | key in new_.fields :: Absorbed(Lookup(old_.fields, key), new_.fields[key])
    else if old_.JList? && new_.JList? then true
    else IsEmpty(old_) ==> NoRepeats(new_)
  }

  lemma {:induction false} MergeAbsorbs(old_: Json, new_: Json)
    ensures MergeJson(MergeJson(old_, new_), new_) == MergeJson(old_, new_) <==> Absorbed(old_, new_)
    decreases new_
  {
    var once := MergeJson(old_, new_);
    var twice := MergeJson(once, new_);
    if old_.JObj? && new_.JObj? {
      forall key | key in new_.fields
        ensures twice.fields[key] == once.fields[key] <==> Absorbed(Lookup(old_.fields, key), new_.fields[key])
      {
        MergeAbsorbs(Lookup(old_.fields, key), new_.fields[key]);
      }
      if twice == once {
        forall key | key in new_.fields ensures Absorbed(Lookup(old_.fields, key), new_.fields[key]) {
          assert twice.fields[key] == once.fields[key];
        }
      }
      if Absorbed(old_, new_) {
        assert twice.fields == once.fields;
      }
    } else if old_.JList? && new_.JList? {
      DedupeAppend(old_.items + new_.items, new_.items);
      DedupeAbsorbs(old_.items + new_.items, new_.items);
    } else if IsEmpty(old_) {
      MergeSelf(new_);
    }
  }

  /** Merging metadata twice equals merging it once exactly when every incoming value that lands on an
      empty place has repetition-free lists; in particular whenever the incoming lists have none. */
  lemma MetadataAbsorbs(existing: Metadata, incoming: Metadata)
    ensures MergeMetadata(MergeMetadata(existing, incoming), incoming) == MergeMetadata(existing, incoming)
            <==> Absorbed(JObj(existing), JObj(incoming))
    ensures NoRepeats(JObj(incoming)) ==> Absorbed(JObj(existing), JObj(incoming))
  {
    MergeAbsorbs(JObj(existing), JObj(incoming));
    if NoRepeats(JObj(incoming)) {
      NoRepeatsAbsorbed(JObj(existing), JObj(incoming));
    }
  }

  /** For example a list that names an item twice under a new key: taken over as it is, then deduplicated. */
  lemma RepeatShrinks(key: string, item: Json)
    ensures var incoming: Metadata := map[key := JList([item, item])];
            && MergeMetadata(map[], incoming) == incoming
            && MergeMetadata(MergeMetadata(map[], incoming), incoming) == map[key := JList([item])]
  {
    var incoming: Metadata := map[key := JList([item, item])];
    MetadataKeeps(map[], incoming);
    assert MergeMetadata(map[], incoming) == incoming;
    MetadataKeeps(incoming, incoming);
    var twice := MergeMetadata(incoming, incoming);
    assert twice[key] == MergeJson(incoming[key], incoming[key]) == JList(Dedupe([item, item] + [item, item]));
    DedupeAbsorbs([item], [item, item, item]);
    assert [item, item] + [item, item] == [item] + [item, item, item];
    assert [item][..0] == [] && Dedupe([item]) == [item];
    assert twice == map[key := JList([item])];
  }

  lemma {:induction false} NoRepeatsAbsorbed(old_: Json, new_: Json)
    requires NoRepeats(new_)
    ensures Absorbed(old_, new_)
    decreases new_
  {
    if old_.JObj? && new_.JObj? {
      forall key | key in new_.fields ensures Absorbed(Lookup(old_.fields, key), new_.fields[key]) {
        NoRepeatsAbsorbed(Lookup(old_.fields, key), new_.fields[key]);
      }
    }
  }

  // ---- Evidence ----

  function Merge(e: Evidence, o: Evidence): Evidence {
    Evidence(PreferSource(e.source, o.source), NormalLocators(e.locators + o.locators), MergeMetadata(e.metadata, o.metadata))
  }

  /** On clean lists merging locators is first-occurrence deduplication of the concatenation. */
  lemma MergeLocators(a: seq<Locator>, b: seq<Locator>)
    requires CleanList(a) && CleanList(b)
    ensures NormalLocators(a + b) == Dedupe(a + b) && CleanList(NormalLocators(a + b))
  {
    CleanFiltered(a + b);
    NormalLocatorsClean(a + b);
  }
}
