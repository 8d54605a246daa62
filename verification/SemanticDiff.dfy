/** Comparison of two crawled corpora by meaning: `asset_compiler/current_state_diff.py`. */
module SemanticDiff {
  import opened Basics
  import opened Sorting
  import opened Text

  datatype RawElement = RawElement(kind: Option<string>, role: Option<string>, text: Option<string>)

  datatype Descriptor = Descriptor(kind: string, role: string, text: string)

  datatype Fingerprint = Fingerprint(
    route: string, title: string, menuChain: seq<string>, keyElements: seq<Descriptor>)

  datatype RouteError = EmptyRoute | DuplicateRoute(route: string)

  datatype Diff = Diff(added: set<string>, deleted: set<string>, changed: set<string>) {
    predicate HasChanges() {
      added != {} || deleted != {} || changed != {}
    }
  }

  // ---- Key elements ----

  function DescriptorOf(e: RawElement): Descriptor {
    Descriptor(Normalized(e.kind), Normalized(e.role), Normalized(e.text))
  }

  /** A descriptor with no text at all is dropped. */
  predicate Informative(d: Descriptor) {
    d.kind != "" || d.role != "" || d.text != ""
  }

  predicate DescriptorLe(a: Descriptor, b: Descriptor) {
    if a.kind != b.kind then StrLe(a.kind, b.kind)
    else if a.role != b.role then StrLe(a.role, b.role)
    else StrLe(a.text, b.text)
  }

  lemma DescriptorOrder()
    ensures TotalOrder(DescriptorLe)
  {
    StrOrder();
  }

  function Descriptors(elements: seq<RawElement>): set<Descriptor> {
    set e | e in elements && Informative(DescriptorOf(e)) :: DescriptorOf(e)
  }

  function KeyElements(elements: seq<RawElement>): seq<Descriptor> {
    DescriptorOrder();
    Ascending(Descriptors(elements), DescriptorLe)
  }

  method NormalizeKeyElements(elements: seq<RawElement>) returns (r: seq<Descriptor>)
    ensures r == KeyElements(elements)
  {
    var seen: set<Descriptor> := {};
    for i := 0 to |elements|
      invariant seen == Descriptors(elements[..i])
    {
      var d := DescriptorOf(elements[i]);
      TakeTake(elements, i);
      if Informative(d) {
        seen := seen + {d};
      }
    }
    assert elements[..|elements|] == elements;
    DescriptorOrder();
    r := Ascending(seen, DescriptorLe);
  }

  /** Two element lists normalise alike exactly when they mention the same descriptors: order and
      repetition are invisible. */
  lemma KeyElementsCanonical(a: seq<RawElement>, b: seq<RawElement>)
    ensures KeyElements(a) == KeyElements(b) <==> Descriptors(a) == Descriptors(b)
  {
    DescriptorOrder();
    AscendingMembers(Descriptors(a), DescriptorLe);
    AscendingMembers(Descriptors(b), DescriptorLe);
    if KeyElements(a) == KeyElements(b) {
      forall d ensures d in Descriptors(a) <==> d in Descriptors(b) {
        assert d in KeyElements(a) <==> d in Descriptors(a);
        assert d in KeyElements(b) <==> d in Descriptors(b);
      }
    }
  }

  predicate Nonempty(text: string) {
    text != ""
  }

  function MakeFingerprint(
    route: Option<string>, title: Option<string>, menuLabels: seq<string>, elements: seq<RawElement>): Fingerprint
  {
    Fingerprint(Normalized(route), Normalized(title), Filter(Map(menuLabels, Strip), Nonempty), KeyElements(elements))
  }

  // ---- Route index ----

  ghost predicate Indexable(fps: seq<Fingerprint>) {
    && (forall i | 0 <= i < |fps| :: fps[i].route != "")
    && (forall i, j | 0 <= i < j < |fps| :: fps[i].route != fps[j].route)
  }

  function Index(fps: seq<Fingerprint>): Result<map<string, Fingerprint>, RouteError> {
    if fps == [] then Ok(map[])
    else
      var last := fps[|fps| - 1];
      match Index(fps[..|fps| - 1])
      case Err(e) => Err(e)
      case Ok(index) =>
        if last.route == "" then Err(EmptyRoute)
        else if last.route in index then Err(DuplicateRoute(last.route))
        else Ok(index[last.route := last])
  }

  /** The index holds exactly the given fingerprints, each under its own route. */
  ghost predicate Represents(index: map<string, Fingerprint>, fps: seq<Fingerprint>) {
    && (forall i | 0 <= i < |fps| :: fps[i].route in index && index[fps[i].route] == fps[i])
    && (forall r | r in index :: index[r] in fps && index[r].route == r)
  }

  lemma {:induction false} IndexMeaning(fps: seq<Fingerprint>)
    ensures Index(fps).Ok? <==> Indexable(fps)
    ensures Index(fps).Ok? ==> Represents(Index(fps).value, fps)
  {
    if fps != [] {
      var front, last := fps[..|fps| - 1], fps[|fps| - 1];
      assert fps == front + [last];
      IndexMeaning(front);
      if Indexable(fps) {
        assert Indexable(front) by {
          assert forall i | 0 <= i < |front| :: fps[i] == front[i];
        }
      }
      if Index(front).Ok? {
        IndexExtends(Index(front).value, front, last);
      }
    }
  }

  lemma IndexExtends(index: map<string, Fingerprint>, front: seq<Fingerprint>, last: Fingerprint)
    requires Represents(index, front) && Indexable(front)
    ensures last.route in index ==> !Indexable(front + [last])
    ensures last.route !in index ==> Represents(index[last.route := last], front + [last])
    ensures last.route !in index && last.route != "" ==> Indexable(front + [last])
  {
    var fps := front + [last];
    if last.route in index {
      assert index[last.route] in front;
      var i :| 0 <= i < |front| && front[i] == index[last.route];
      assert fps[i].route == fps[|front|].route;
    } else {
      var extended := index[last.route := last];
      forall r | r in extended ensures extended[r] in fps && extended[r].route == r {
        if r != last.route {
          assert extended[r] == index[r] && index[r] in front;
        }
      }
    }
  }

  lemma {:induction false} IndexErrorPersists(fps: seq<Fingerprint>, n: nat)
    requires n <= |fps| && Index(fps[..n]).Err?
    ensures Index(fps) == Index(fps[..n])
  {
    if n == |fps| {
      assert fps[..n] == fps;
    } else {
      var front := fps[..|fps| - 1];
      assert front[..n] == fps[..n];
      IndexErrorPersists(front, n);
    }
  }

  method IndexByRoute(fps: seq<Fingerprint>) returns (r: Result<map<string, Fingerprint>, RouteError>)
    ensures r == Index(fps)
  {
    var index: map<string, Fingerprint> := map[];
    for i := 0 to |fps|
      invariant Index(fps[..i]) == Ok(index)
    {
      TakeTake(fps, i);
      var route := fps[i].route;
      if route == "" || route in index {
        IndexErrorPersists(fps, i + 1);
        return Err(if route == "" then EmptyRoute else DuplicateRoute(route));
      }
      index := index[route := fps[i]];
    }
    assert fps[..|fps|] == fps;
    r := Ok(index);
  }

  // ---- Comparison ----

  function CompareIndexes(active: map<string, Fingerprint>, draft: map<string, Fingerprint>): Diff {
    Diff(
      draft.Keys - active.Keys,
      active.Keys - draft.Keys,
      set route | route in active.Keys * draft.Keys && active[route] != draft[route])
  }

  /** The active side is indexed first, so its error wins. */
  function Compare(active: seq<Fingerprint>, draft: seq<Fingerprint>): Result<Diff, RouteError> {
    match Index(active)
    case Err(e) => Err(e)
    case Ok(a) =>
      match Index(draft)
      case Err(e) => Err(e)
      case Ok(d) => Ok(CompareIndexes(a, d))
  }

  method CompareSemanticStates(active: seq<Fingerprint>, draft: seq<Fingerprint>) returns (r: Result<Diff, RouteError>)
    ensures r == Compare(active, draft)
  {
    var a := IndexByRoute(active);
    if a.Err? { return Err(a.error); }
    var d := IndexByRoute(draft);
    if d.Err? { return Err(d.error); }
    r := Ok(CompareIndexes(a.value, d.value));
  }

  /** A comparison fails exactly when one side has a blank or repeated route. Otherwise it reports no
      change exactly when both sides hold the same page fingerprints, in whatever page order. */
  lemma NoChangeMeaning(active: seq<Fingerprint>, draft: seq<Fingerprint>)
    ensures Compare(active, draft).Ok? <==> Indexable(active) && Indexable(draft)
    ensures Compare(active, draft).Ok? ==>
              (!Compare(active, draft).value.HasChanges() <==> ToSet(active) == ToSet(draft))
  {
    IndexMeaning(active);
    IndexMeaning(draft);
    if Compare(active, draft).Ok? {
      var a, d := Index(active).value, Index(draft).value;
      RepresentedOnce(active, a);
      RepresentedOnce(draft, d);
      if ToSet(active) == ToSet(draft) {
        SameContentSameIndex(active, draft, a, d);
        SameContentSameIndex(draft, active, d, a);
      }
      if !CompareIndexes(a, d).HasChanges() {
        NoChangeSameIndex(a, d);
      }
    }
  }

  lemma RepresentedOnce(fps: seq<Fingerprint>, index: map<string, Fingerprint>)
    requires Represents(index, fps)
    ensures ToSet(fps) == index.Values
  {
    forall fp ensures fp in ToSet(fps) <==> fp in index.Values {
      if fp in fps {
        var i :| 0 <= i < |fps| && fps[i] == fp;
        assert fps[i].route in index;
      }
    }
  }

  lemma SameContentSameIndex(
    active: seq<Fingerprint>, draft: seq<Fingerprint>, a: map<string, Fingerprint>, d: map<string, Fingerprint>)
    requires Represents(a, active) && Represents(d, draft) && ToSet(active) == ToSet(draft)
    ensures forall r | r in a :: r in d && d[r] == a[r]
  {
    forall r | r in a ensures r in d && d[r] == a[r] {
      assert a[r] in ToSet(active);
      assert a[r] in draft;
      var i :| 0 <= i < |draft| && draft[i] == a[r];
      assert draft[i].route in d;
    }
  }

  lemma NoChangeSameIndex(a: map<string, Fingerprint>, d: map<string, Fingerprint>)
    requires !CompareIndexes(a, d).HasChanges()
    ensures a == d
  {
    var diff := CompareIndexes(a, d);
    forall r ensures r in a <==> r in d {
      assert r !in diff.added && r !in diff.deleted;
    }
    forall r | r in a ensures a[r] == d[r] {
      assert r !in diff.changed;
    }
  }

  /** Exchanging the two sides exchanges additions and deletions and keeps the changed routes. */
  lemma CompareMirrored(active: seq<Fingerprint>, draft: seq<Fingerprint>)
    requires Compare(active, draft).Ok?
    ensures Compare(draft, active).Ok?
    ensures var there, back := Compare(active, draft).value, Compare(draft, active).value;
            back == Diff(there.deleted, there.added, there.changed)
  {
    var a, d := Index(active).value, Index(draft).value;
    assert CompareIndexes(d, a).changed == CompareIndexes(a, d).changed;
  }
}
