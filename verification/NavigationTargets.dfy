/** The navigation-target registry as a mutable object: `crawler_service/navigation_targets.py`.
    Target objects are shared by reference between the registry's lists, its key map and its callers, so
    they live in an explicit object table and everything else holds references into it. */
module NavigationTargets {
  import opened Basics
  import opened TargetEvidence
  import opened TargetRegistryLaws

  datatype Status = Discovered | Queued | DuplicateTarget | BlockedTarget

  datatype NavigationTarget = NavigationTarget(
    key: Key, safety: string, evidence: Evidence, status: Status, reason: Option<string>, detail: Option<string>)
  {
    function AsOffer(): Offer {
      Offer(key, evidence)
    }

    function Marked(s: Status, why: Option<string>): NavigationTarget {
      this.(status := s, reason := why, detail := None)
    }

    function MergedFrom(other: NavigationTarget): NavigationTarget {
      this.(evidence := Merge(evidence, other.evidence))
    }
  }

  /** Normalises what the caller gives; context and metadata are taken as already normalised. */
  function NewTarget(
    kind: Option<string>, route: Option<string>, locators: seq<Locator>, context: map<string, Scalar>,
    parent: Option<string>, source: Option<string>, safety: Option<string>, metadata: Metadata): (t: NavigationTarget)
    ensures CleanList(t.evidence.locators)
  {
    NormalLocatorsClean(locators);
    NavigationTarget(
      Key(NormalText(kind).GetOr("unknown"), NormalRoute(route), context, NormalText(parent)),
      NormalText(safety).GetOr("readonly"),
      Evidence(NormalText(source), NormalLocators(locators), metadata),
      Discovered, None, None)
  }

  type Ref = nat
  type Objects = map<Ref, NavigationTarget>

  function ReasonName(v: Verdict): Option<string> {
    match v
    case Accepted => None
    case Duplicate => Some("duplicate_target")
    case TotalExhausted => Some("total_budget_exhausted")
    case RouteExhausted => Some("route_budget_exhausted")
    case KindExhausted => Some("kind_budget_exhausted")
    case ParentExhausted => Some("parent_budget_exhausted")
  }

  function StatusAfter(v: Verdict): Status {
    match v
    case Accepted => Queued
    case Duplicate => DuplicateTarget
    case _ => BlockedTarget
  }

  // ---- The registry's fields as a value ----

  datatype Fields = Fields(
    objects: Objects, targets: seq<Ref>, rejected: seq<Ref>, byKey: map<Key, Ref>,
    byRoute: map<string, nat>, byKind: map<string, nat>, byParent: map<string, nat>)

  ghost predicate Known(objects: Objects, refs: seq<Ref>) {
    forall r | r in refs :: r in objects
  }

  function Contents(objects: Objects, refs: seq<Ref>): (entries: seq<Offer>)
    requires Known(objects, refs)
    ensures |entries| == |refs| && forall i | 0 <= i < |refs| :: entries[i] == objects[refs[i]].AsOffer()
  {
    seq(|refs|, i requires 0 <= i < |refs| => objects[refs[i]].AsOffer())
  }

  /** The map leads from the key of each listed target to that target and nowhere else. */
  ghost predicate KeyMapAgrees(objects: Objects, refs: seq<Ref>, byKey: map<Key, Ref>)
    requires Known(objects, refs)
  {
    && (forall i | 0 <= i < |refs| :: objects[refs[i]].key in byKey && byKey[objects[refs[i]].key] == refs[i])
    && (forall k | k in byKey :: byKey[k] in refs && objects[byKey[k]].key == k)
  }

  function Get(counts: map<string, nat>, name: string): nat {
    if name in counts then counts[name] else 0
  }

  function CountName(counts: map<string, nat>, name: Option<string>): map<string, nat> {
    if name.Some? then counts[name.value := Get(counts, name.value) + 1] else counts
  }

  function Tallied(f: Fields, t: Tally): nat {
    match t
    case OfRoute(r) => Get(f.byRoute, r)
    case OfKind(k) => Get(f.byKind, k)
    case OfParent(p) => Get(f.byParent, p)
  }

  /** The three counters say how many accepted targets name each route, kind and parent. */
  ghost predicate CountersAgree(entries: seq<Offer>, f: Fields) {
    forall t :: Tallied(f, t) == Count(entries, t)
  }

  ghost predicate Aligned(f: Fields) {
    && Known(f.objects, f.targets)
    && KeyMapAgrees(f.objects, f.targets, f.byKey)
    && CountersAgree(Contents(f.objects, f.targets), f)
  }

  /** The list, the key map and the three counters agree, and the whole is what the offers lead to. */
  ghost predicate Sound(f: Fields, b: Budgets, offers: seq<Offer>) {
    && Aligned(f)
    && Contents(f.objects, f.targets) == Replay(b, offers)
    && |f.targets| + |f.rejected| == |offers|
  }

  // ---- What one offer does to the fields ----

  /** The budget the counters name as exhausted. */
  function Exhausted(f: Fields, b: Budgets, key: Key): Option<Verdict> {
    if |f.targets| >= b.total then Some(TotalExhausted)
    else if key.route.Some? && Tallied(f, OfRoute(key.route.value)) >= b.route then Some(RouteExhausted)
    else if Tallied(f, OfKind(key.kind)) >= b.kind then Some(KindExhausted)
    else if key.parent.Some? && Tallied(f, OfParent(key.parent.value)) >= b.parent then Some(ParentExhausted)
    else None
  }

  function Mark(objects: Objects, ref: Ref, v: Verdict): Objects
    requires ref in objects
  {
    objects[ref := objects[ref].Marked(StatusAfter(v), ReasonName(v))]
  }

  function MergeTo(objects: Objects, at: Ref, ref: Ref): Objects
    requires at in objects && ref in objects
  {
    objects[at := objects[at].MergedFrom(objects[ref])]
  }

  function Offered(f: Fields, ref: Ref, v: Verdict): Fields
    requires ref in f.objects
    requires v == Duplicate ==> f.objects[ref].key in f.byKey && f.byKey[f.objects[ref].key] in f.objects
  {
    var key := f.objects[ref].key;
    if v == Duplicate then f.(objects := Mark(MergeTo(f.objects, f.byKey[key], ref), ref, v), rejected := f.rejected + [ref])
    else if v == Accepted then
      f.(objects := Mark(f.objects, ref, v), targets := f.targets + [ref], byKey := f.byKey[key := ref],
         byRoute := CountName(f.byRoute, key.route), byKind := CountName(f.byKind, Some(key.kind)),
         byParent := CountName(f.byParent, key.parent))
    else f.(objects := Mark(f.objects, ref, v), rejected := f.rejected + [ref])
  }

  /** The verdict the fields lead to. */
  function Decide(f: Fields, b: Budgets, key: Key): Verdict {
    if key in f.byKey then Duplicate else Exhausted(f, b, key).GetOr(Accepted)
  }

  /** What an offer writes on the offered object. */
  ghost predicate Says(t: NavigationTarget, v: Verdict) {
    && t.detail == None
    && match v
       case Accepted => t.status == Queued && t.reason == None
       case Duplicate => t.status == DuplicateTarget && t.reason == Some("duplicate_target")
       case TotalExhausted => t.status == BlockedTarget && t.reason == Some("total_budget_exhausted")
       case RouteExhausted => t.status == BlockedTarget && t.reason == Some("route_budget_exhausted")
       case KindExhausted => t.status == BlockedTarget && t.reason == Some("kind_budget_exhausted")
       case ParentExhausted => t.status == BlockedTarget && t.reason == Some("parent_budget_exhausted")
  }

  /** An offer marks the offered object by its verdict and puts it on one of the two lists; of the other
      objects it touches only the one that holds the key of a duplicate, whose evidence alone changes. */
  lemma OfferMarks(f: Fields, ref: Ref, v: Verdict)
    requires ref in f.objects
    requires v == Duplicate ==> f.objects[ref].key in f.byKey && f.byKey[f.objects[ref].key] in f.objects
    ensures var g := Offered(f, ref, v);
            && g.objects.Keys == f.objects.Keys && Says(g.objects[ref], v)
            && g.targets == f.targets + (if v == Accepted then [ref] else [])
            && g.rejected == f.rejected + (if v == Accepted then [] else [ref])
            && (forall r | r in f.objects && r != ref && !(v == Duplicate && r == f.byKey[f.objects[ref].key]) :: g.objects[r] == f.objects[r])
            && (v == Duplicate && f.byKey[f.objects[ref].key] != ref ==>
                  var at := f.byKey[f.objects[ref].key];
                  g.objects[at] == f.objects[at].(evidence := Merge(f.objects[at].evidence, f.objects[ref].evidence)))
  {
  }

  lemma KeyMapHolds(objects: Objects, refs: seq<Ref>, byKey: map<Key, Ref>, key: Key)
    requires Known(objects, refs) && KeyMapAgrees(objects, refs, byKey)
    ensures Holds(Contents(objects, refs), key) <==> key in byKey
  {
    if key in byKey {
      var at :| 0 <= at < |refs| && refs[at] == byKey[key];
      assert Contents(objects, refs)[at].key == key;
    }
  }

  lemma ReplaySnoc(b: Budgets, offers: seq<Offer>, offer: Offer)
    ensures Replay(b, offers + [offer]) == Add(Replay(b, offers), b, offer).0
    ensures Verdicts(b, offers + [offer]) == Verdicts(b, offers) + [Add(Replay(b, offers), b, offer).1]
  {
    assert (offers + [offer])[..|offers|] == offers;
  }

  /** The budgets are decided by the counters as the list of entries would decide them. */
  lemma ExhaustedByList(f: Fields, b: Budgets, key: Key)
    requires Aligned(f)
    ensures Exhausted(f, b, key) == BudgetReason(Contents(f.objects, f.targets), b, key)
  {
  }

  lemma DecideByList(f: Fields, b: Budgets, offer: Offer)
    requires Aligned(f)
    ensures Decide(f, b, offer.key) == Add(Contents(f.objects, f.targets), b, offer).1
  {
    KeyMapHolds(f.objects, f.targets, f.byKey, offer.key);
    ExhaustedByList(f, b, offer.key);
  }

  /** Deciding by key map and counters is deciding by the list of entries. */
  lemma DecideByHistory(f: Fields, b: Budgets, offers: seq<Offer>, offer: Offer)
    requires Sound(f, b, offers)
    ensures Verdicts(b, offers + [offer]) == Verdicts(b, offers) + [Decide(f, b, offer.key)]
    ensures Decide(f, b, offer.key) == Add(Contents(f.objects, f.targets), b, offer).1
    ensures offer.key in f.byKey ==> f.byKey[offer.key] in f.objects
  {
    ReplaySnoc(b, offers, offer);
    DecideByList(f, b, offer);
  }

  /** Merging an offer into the object its key leads to is merging it into the entries of that key. */
  lemma MergeInPlace(objects: Objects, refs: seq<Ref>, byKey: map<Key, Ref>, ref: Ref)
    requires Known(objects, refs) && KeyMapAgrees(objects, refs, byKey) && ref in objects && objects[ref].key in byKey
    ensures var after := MergeTo(objects, byKey[objects[ref].key], ref);
            KeyMapAgrees(after, refs, byKey)
            && Contents(after, refs) == MergeInto(Contents(objects, refs), objects[ref].AsOffer())
  {
    var after := MergeTo(objects, byKey[objects[ref].key], ref);
    var merged := MergeInto(Contents(objects, refs), objects[ref].AsOffer());
    MergeIntoAt(Contents(objects, refs), objects[ref].AsOffer());
    forall i | 0 <= i < |refs| ensures Contents(after, refs)[i] == merged[i] {
      assert byKey[objects[refs[i]].key] == refs[i];
    }
  }

  lemma MarkInPlace(objects: Objects, refs: seq<Ref>, byKey: map<Key, Ref>, ref: Ref, v: Verdict)
    requires Known(objects, refs) && KeyMapAgrees(objects, refs, byKey) && ref in objects
    ensures KeyMapAgrees(Mark(objects, ref, v), refs, byKey) && Contents(Mark(objects, ref, v), refs) == Contents(objects, refs)
  {
  }

  lemma ListOne(objects: Objects, refs: seq<Ref>, byKey: map<Key, Ref>, ref: Ref)
    requires Known(objects, refs) && KeyMapAgrees(objects, refs, byKey) && ref in objects && objects[ref].key !in byKey
    ensures Known(objects, refs + [ref])
    ensures KeyMapAgrees(objects, refs + [ref], byKey[objects[ref].key := ref])
    ensures Contents(objects, refs + [ref]) == Contents(objects, refs) + [objects[ref].AsOffer()]
  {
    var index := byKey[objects[ref].key := ref];
    assert (refs + [ref])[|refs|] == ref;
    forall k | k in index ensures index[k] in refs + [ref] && objects[index[k]].key == k {
      if k != objects[ref].key { assert byKey[k] in refs; }
    }
  }

  lemma CountersGrow(entries: seq<Offer>, f: Fields, ref: Ref)
    requires CountersAgree(entries, f) && ref in f.objects
    ensures CountersAgree(entries + [f.objects[ref].AsOffer()], Offered(f, ref, Accepted))
  {
    var g := Offered(f, ref, Accepted);
    AppendCounts(entries, f.objects[ref].AsOffer());
    forall t ensures Tallied(g, t) == Tallied(f, t) + if t.Covers(f.objects[ref].key) then 1 else 0 {
    }
  }

  lemma AcceptAligned(f: Fields, ref: Ref)
    requires Aligned(f) && ref in f.objects && f.objects[ref].key !in f.byKey
    ensures var g := Offered(f, ref, Accepted);
            Aligned(g) && Contents(g.objects, g.targets) == Contents(f.objects, f.targets) + [f.objects[ref].AsOffer()]
  {
    CountersGrow(Contents(f.objects, f.targets), f, ref);
    MarkInPlace(f.objects, f.targets, f.byKey, ref, Accepted);
    ListOne(Mark(f.objects, ref, Accepted), f.targets, f.byKey, ref);
  }

  lemma DuplicateAligned(f: Fields, ref: Ref)
    requires Aligned(f) && ref in f.objects && f.objects[ref].key in f.byKey && f.byKey[f.objects[ref].key] in f.objects
    ensures var g := Offered(f, ref, Duplicate);
            Aligned(g) && Contents(g.objects, g.targets) == MergeInto(Contents(f.objects, f.targets), f.objects[ref].AsOffer())
  {
    MergeInPlace(f.objects, f.targets, f.byKey, ref);
    MarkInPlace(MergeTo(f.objects, f.byKey[f.objects[ref].key], ref), f.targets, f.byKey, ref, Duplicate);
    MergeKeeps(Contents(f.objects, f.targets), f.objects[ref].AsOffer());
  }

  lemma BlockAligned(f: Fields, ref: Ref, v: Verdict)
    requires Aligned(f) && ref in f.objects && v.Blocked()
    ensures var g := Offered(f, ref, v);
            Aligned(g) && Contents(g.objects, g.targets) == Contents(f.objects, f.targets)
  {
    MarkInPlace(f.objects, f.targets, f.byKey, ref, v);
  }

  lemma OfferAligned(f: Fields, b: Budgets, ref: Ref)
    requires Aligned(f) && ref in f.objects
    requires f.objects[ref].key in f.byKey ==> f.byKey[f.objects[ref].key] in f.objects
    ensures var offer := f.objects[ref].AsOffer();
            var g := Offered(f, ref, Decide(f, b, offer.key));
            Aligned(g) && Contents(g.objects, g.targets) == Add(Contents(f.objects, f.targets), b, offer).0
  {
    var offer := f.objects[ref].AsOffer();
    DecideByList(f, b, offer);
    var v := Decide(f, b, offer.key);
    if v == Accepted {
      AcceptAligned(f, ref);
    } else if v == Duplicate {
      DuplicateAligned(f, ref);
    } else {
      BlockAligned(f, ref, v);
    }
  }

  /** One offer keeps the fields sound for the longer history. */
  lemma OfferKeepsSound(f: Fields, b: Budgets, offers: seq<Offer>, ref: Ref)
    requires Sound(f, b, offers) && ref in f.objects
    ensures var key := f.objects[ref].key;
            && (key in f.byKey ==> f.byKey[key] in f.objects)
            && Verdicts(b, offers + [f.objects[ref].AsOffer()]) == Verdicts(b, offers) + [Decide(f, b, key)]
            && Sound(Offered(f, ref, Decide(f, b, key)), b, offers + [f.objects[ref].AsOffer()])
  {
    DecideByHistory(f, b, offers, f.objects[ref].AsOffer());
    ReplaySnoc(b, offers, f.objects[ref].AsOffer());
    OfferAligned(f, b, ref);
  }

  /** Every target object has been normalised when it was made. */
  ghost predicate CleanObjects(objects: Objects) {
    forall r | r in objects :: CleanList(objects[r].evidence.locators)
  }

  lemma OfferKeepsClean(f: Fields, ref: Ref, v: Verdict)
    requires CleanObjects(f.objects) && ref in f.objects
    requires v == Duplicate ==> f.objects[ref].key in f.byKey && f.byKey[f.objects[ref].key] in f.objects
    ensures CleanObjects(Offered(f, ref, v).objects)
  {
    if v == Duplicate {
      NormalLocatorsClean(f.objects[f.byKey[f.objects[ref].key]].evidence.locators + f.objects[ref].evidence.locators);
    }
  }

  /** A new object is seen by nothing listed so far. */
  lemma NewObjectKeepsSound(f: Fields, b: Budgets, offers: seq<Offer>, ref: Ref, t: NavigationTarget)
    requires Sound(f, b, offers) && ref !in f.objects
    ensures Sound(f.(objects := f.objects[ref := t]), b, offers)
  {
    var after := f.objects[ref := t];
    assert Known(after, f.targets);
    assert Contents(after, f.targets) == Contents(f.objects, f.targets);
  }

  class NavigationTargetRegistry {
    const budgets: Budgets
    /** All target objects, listed here or not. */
    var objects: Objects
    var targets: seq<Ref>
    var rejected: seq<Ref>
    var byKey: map<Key, Ref>
    var byRoute: map<string, nat>
    var byKind: map<string, nat>
    var byParent: map<string, nat>
    /** Every offer made so far, as it was when it was made. */
    ghost var offers: seq<Offer>

    constructor (objects: Objects, total: int, route: int, kind: int, parent: int)
      requires CleanObjects(objects)
      ensures Valid() && offers == [] && Now() == Fields(objects, [], [], map[], map[], map[], map[])
      ensures budgets == Budgets(Max(1, total), Max(1, route), Max(1, kind), Max(1, parent))
    {
      budgets := Budgets(Max(1, total), Max(1, route), Max(1, kind), Max(1, parent));
      this.objects := objects;
      targets, rejected, byKey, byRoute, byKind, byParent := [], [], map[], map[], map[], map[];
      offers := [];
    }

    function Now(): Fields
      reads this
    {
      Fields(objects, targets, rejected, byKey, byRoute, byKind, byParent)
    }

    ghost predicate Valid()
      reads this
    {
      Sound(Now(), budgets, offers) && CleanObjects(objects) && CleanOffers(offers)
    }

    /** In every valid state the budgets hold, keys are unique and each offer was accepted or rejected. */
    lemma Consistent()
      requires Valid()
      ensures |targets| <= budgets.total
      ensures forall i, j | 0 <= i < j < |targets| :: objects[targets[i]].key != objects[targets[j]].key
      ensures forall t :: Tallied(Now(), t) <= t.Limit(budgets)
      ensures |targets| == CountAccepted(budgets, offers) && |rejected| == |offers| - CountAccepted(budgets, offers)
    {
      ReplayInvariant(budgets, offers);
    }

    /** A listed target carries the least source offered for its key and the first occurrences among all
        locators offered for it, in order of arrival. */
    lemma ListedEvidence(i: nat)
      requires Valid() && i < |targets|
      ensures var t := objects[targets[i]];
              var own := Filter(offers, SameKey(t.key));
              && LeastSource(t.evidence.source, Map(own, SourceOf))
              && t.evidence.locators == Dedupe(AllLocators(own))
    {
      assert Contents(objects, targets)[i] == objects[targets[i]].AsOffer();
      AcceptedEvidence(budgets, offers, i);
    }

    /** Make a target from what the caller gives and let it join the objects. */
    method Create(
      ref: Ref, kind: Option<string>, route: Option<string>, locators: seq<Locator>, context: map<string, Scalar>,
      parent: Option<string>, source: Option<string>, safety: Option<string>, metadata: Metadata)
      requires Valid() && ref !in objects
      modifies `objects
      ensures Valid()
      ensures objects == old(objects)[ref := NewTarget(kind, route, locators, context, parent, source, safety, metadata)]
    {
      ghost var t := NewTarget(kind, route, locators, context, parent, source, safety, metadata);
      NewObjectKeepsSound(Now(), budgets, offers, ref, t);
      objects := objects[ref := NewTarget(kind, route, locators, context, parent, source, safety, metadata)];
    }

    /** The first of the four budgets, in the order total, route, kind, parent, that the listed targets use up. */
    method BudgetRejection(key: Key) returns (r: Option<Verdict>)
      ensures r == Exhausted(Now(), budgets, key) && (r.Some? ==> r.value.Blocked())
      ensures Valid() ==> r == BudgetReason(Contents(objects, targets), budgets, key)
    {
      if Valid() {
        ExhaustedByList(Now(), budgets, key);
      }
      if |targets| >= budgets.total { return Some(TotalExhausted); }
      if key.route.Some? && Get(byRoute, key.route.value) >= budgets.route { return Some(RouteExhausted); }
      if Get(byKind, key.kind) >= budgets.kind { return Some(KindExhausted); }
      if key.parent.Some? && Get(byParent, key.parent.value) >= budgets.parent { return Some(ParentExhausted); }
      r := None;
    }

    method MarkObject(ref: Ref, v: Verdict)
      requires ref in objects
      modifies `objects
      ensures objects == Mark(old(objects), ref, v)
    {
      objects := objects[ref := objects[ref].Marked(StatusAfter(v), ReasonName(v))];
    }

    method MergeExisting(ref: Ref)
      requires ref in objects && objects[ref].key in byKey && byKey[objects[ref].key] in objects
      modifies `objects, `rejected
      ensures Now() == Offered(old(Now()), ref, Duplicate)
    {
      var existing := byKey[objects[ref].key];
      objects := objects[existing := objects[existing].MergedFrom(objects[ref])];
      MarkObject(ref, Duplicate);
      rejected := rejected + [ref];
    }

    method Block(ref: Ref, why: Verdict)
      requires ref in objects && why.Blocked()
      modifies `objects, `rejected
      ensures Now() == Offered(old(Now()), ref, why)
    {
      MarkObject(ref, why);
      rejected := rejected + [ref];
    }

    method CountIn(key: Key)
      modifies `byRoute, `byKind, `byParent
      ensures byRoute == CountName(old(byRoute), key.route) && byKind == CountName(old(byKind), Some(key.kind))
      ensures byParent == CountName(old(byParent), key.parent)
    {
      if key.route.Some? { byRoute := byRoute[key.route.value := Get(byRoute, key.route.value) + 1]; }
      byKind := byKind[key.kind := Get(byKind, key.kind) + 1];
      if key.parent.Some? { byParent := byParent[key.parent.value := Get(byParent, key.parent.value) + 1]; }
    }

    method List(ref: Ref)
      requires ref in objects
      modifies `objects, `targets, `byKey, `byRoute, `byKind, `byParent
      ensures Now() == Offered(old(Now()), ref, Accepted)
    {
      MarkObject(ref, Accepted);
      targets := targets + [ref];
      byKey := byKey[objects[ref].key := ref];
      CountIn(objects[ref].key);
    }

    /** The field updates of one offer. */
    method Take(ref: Ref) returns (verdict: Verdict)
      requires ref in objects && (objects[ref].key in byKey ==> byKey[objects[ref].key] in objects)
      modifies `objects, `targets, `rejected, `byKey, `byRoute, `byKind, `byParent
      ensures verdict == Decide(old(Now()), budgets, old(objects[ref].key))
      ensures Now() == Offered(old(Now()), ref, verdict)
    {
      if objects[ref].key in byKey {
        MergeExisting(ref);
        return Duplicate;
      }
      var why := BudgetRejection(objects[ref].key);
      if why.Some? {
        Block(ref, why.value);
        return why.value;
      }
      List(ref);
      verdict := Accepted;
    }

    /** Offer one target object, which may already be listed here. The verdict is the one the whole history
        of offers calls for; only the offered object is marked, and only the object holding its key merges. */
    method AddTarget(ref: Ref) returns (verdict: Verdict)
      requires Valid() && ref in objects
      modifies this
      ensures Valid()
      ensures offers == old(offers) + [old(objects[ref].AsOffer())]
      ensures Verdicts(budgets, offers) == Verdicts(budgets, old(offers)) + [verdict]
      ensures verdict == Duplicate ==> old(objects[ref].key in byKey && byKey[objects[ref].key] in objects)
      ensures Now() == Offered(old(Now()), ref, verdict)
    {
      OfferKeepsSound(Now(), budgets, offers, ref);
      OfferKeepsClean(Now(), ref, Decide(Now(), budgets, objects[ref].key));
      ghost var offer := objects[ref].AsOffer();
      verdict := Take(ref);
      offers := offers + [offer];
    }

    method AddNext(ref: Ref, sofar: seq<Ref>) returns (accepted: seq<Ref>, verdict: Verdict)
      requires Valid() && ref in objects
      modifies this
      ensures Valid() && objects.Keys == old(objects.Keys)
      ensures Verdicts(budgets, offers) == Verdicts(budgets, old(offers)) + [verdict]
      ensures accepted == sofar + if verdict == Accepted then [ref] else []
      ensures targets == old(targets) + if verdict == Accepted then [ref] else []
    {
      verdict := AddTarget(ref);
      accepted := if verdict == Accepted then sofar + [ref] else sofar;
    }

    /** Offer several targets in order; the accepted ones are returned in order. */
    method Extend(batch: seq<Ref>) returns (accepted: seq<Ref>, ghost verdicts: seq<Verdict>)
      requires Valid() && Known(objects, batch)
      modifies this
      ensures Valid()
      ensures |verdicts| == |batch|
      ensures Verdicts(budgets, offers) == Verdicts(budgets, old(offers)) + verdicts
      ensures accepted == Chosen(batch, verdicts)
      ensures targets == old(targets) + accepted
    {
      accepted, verdicts := [], [];
      for i := 0 to |batch|
        invariant Valid() && objects.Keys == old(objects.Keys)
        invariant |verdicts| == i
        invariant Verdicts(budgets, offers) == Verdicts(budgets, old(offers)) + verdicts
        invariant accepted == Chosen(batch[..i], verdicts)
        invariant targets == old(targets) + accepted
      {
        assert batch[i] in objects;
        ghost var before := accepted;
        var verdict;
        accepted, verdict := AddNext(batch[i], accepted);
        ChosenSnoc(batch, verdicts, i, verdict);
        Associate(Verdicts(budgets, old(offers)), verdicts, [verdict]);
        Associate(old(targets), before, if verdict == Accepted then [batch[i]] else []);
        verdicts := verdicts + [verdict];
      }
      assert batch[..|batch|] == batch;
    }
  }

  /** The accepted part of a batch. */
  function Chosen(batch: seq<Ref>, verdicts: seq<Verdict>): seq<Ref>
    requires |batch| == |verdicts|
  {
    if batch == [] then []
    else
      var n := |batch| - 1;
      Chosen(batch[..n], verdicts[..n]) + if verdicts[n] == Accepted then [batch[n]] else []
  }

  lemma ChosenSnoc(batch: seq<Ref>, verdicts: seq<Verdict>, i: nat, v: Verdict)
    requires i < |batch| && |verdicts| == i
    ensures Chosen(batch[..i + 1], verdicts + [v]) == Chosen(batch[..i], verdicts) + if v == Accepted then [batch[i]] else []
  {
    TakeTake(batch, i);
    assert (verdicts + [v])[..i] == verdicts;
  }

  lemma Associate<T>(a: seq<T>, b: seq<T>, c: seq<T>)
    ensures (a + b) + c == a + (b + c)
  {
  }
}
