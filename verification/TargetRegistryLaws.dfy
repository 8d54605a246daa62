/** The navigation-target registry on values: what a sequence of offers leads to. */
module TargetRegistryLaws {
  import opened Basics
  import opened TargetEvidence

  datatype Scalar = Word(text: string) | Int(n: int) | Float(r: real) | Bool(b: bool)

  /** The fields behind the JSON dedupe key. */
  datatype Key = Key(kind: string, route: Option<string>, context: map<string, Scalar>, parent: Option<string>)

  datatype Offer = Offer(key: Key, evidence: Evidence)

  datatype Budgets = Budgets(total: nat, route: nat, kind: nat, parent: nat)

  datatype Verdict = Accepted | Duplicate | TotalExhausted | RouteExhausted | KindExhausted | ParentExhausted {
    predicate Blocked() {
      !Accepted? && !Duplicate?
    }
  }

  // ---- Counters ----

  /** What the registry counts: targets naming a route, a kind or a parent. */
  datatype Tally = OfRoute(route: string) | OfKind(kind: string) | OfParent(parent: string) {
    predicate Covers(key: Key) {
      match this
      case OfRoute(r) => key.route == Some(r)
      case OfKind(k) => key.kind == k
      case OfParent(p) => key.parent == Some(p)
    }

    function Limit(b: Budgets): nat {
      match this
      case OfRoute(_) => b.route
      case OfKind(_) => b.kind
      case OfParent(_) => b.parent
    }
  }

  function Count(entries: seq<Offer>, t: Tally): nat {
    if entries == [] then 0
    else Count(entries[..|entries| - 1], t) + if t.Covers(entries[|entries| - 1].key) then 1 else 0
  }

  // ---- Adding ----

  function BudgetReason(entries: seq<Offer>, b: Budgets, key: Key): Option<Verdict> {
    if |entries| >= b.total then Some(TotalExhausted)
    else if key.route.Some? && Count(entries, OfRoute(key.route.value)) >= b.route then Some(RouteExhausted)
    else if Count(entries, OfKind(key.kind)) >= b.kind then Some(KindExhausted)
    else if key.parent.Some? && Count(entries, OfParent(key.parent.value)) >= b.parent then Some(ParentExhausted)
    else None
  }

  predicate Holds(entries: seq<Offer>, key: Key) {
    exists i :: 0 <= i < |entries| && entries[i].key == key
  }

  /** The entry of the offered key, if any, takes in the offer's evidence. */
  function MergeInto(entries: seq<Offer>, offer: Offer): seq<Offer> {
    if entries == [] then []
    else
      var last := entries[|entries| - 1];
      MergeInto(entries[..|entries| - 1], offer) +
      [if last.key == offer.key then Offer(last.key, Merge(last.evidence, offer.evidence)) else last]
  }

  lemma {:induction false} MergeIntoAt(entries: seq<Offer>, offer: Offer)
    ensures |MergeInto(entries, offer)| == |entries|
    ensures forall i | 0 <= i < |entries| ::
              MergeInto(entries, offer)[i] ==
              if entries[i].key == offer.key then Offer(offer.key, Merge(entries[i].evidence, offer.evidence)) else entries[i]
  {
    if entries != [] {
      MergeIntoAt(entries[..|entries| - 1], offer);
    }
  }

  function Add(entries: seq<Offer>, b: Budgets, offer: Offer): (seq<Offer>, Verdict) {
    if Holds(entries, offer.key) then (MergeInto(entries, offer), Duplicate)
    else
      match BudgetReason(entries, b, offer.key)
      case Some(reason) => (entries, reason)
      case None => (entries + [offer], Accepted)
  }

  /** The accepted entries after a sequence of offers. */
  function Replay(b: Budgets, offers: seq<Offer>): seq<Offer> {
    if offers == [] then [] else Add(Replay(b, offers[..|offers| - 1]), b, offers[|offers| - 1]).0
  }

  /** The verdict on the offer at position `i`. */
  function VerdictAt(b: Budgets, offers: seq<Offer>, i: nat): Verdict
    requires i < |offers|
  {
    Add(Replay(b, offers[..i]), b, offers[i]).1
  }

  /** The verdicts on all offers, in order. */
  function Verdicts(b: Budgets, offers: seq<Offer>): (vs: seq<Verdict>)
    ensures |vs| == |offers|
  {
    if offers == [] then []
    else
      var front := offers[..|offers| - 1];
      Verdicts(b, front) + [Add(Replay(b, front), b, offers[|offers| - 1]).1]
  }

  lemma {:induction false} VerdictsAt(b: Budgets, offers: seq<Offer>, i: nat)
    requires i < |offers|
    ensures Verdicts(b, offers)[i] == VerdictAt(b, offers, i)
  {
    var front := offers[..|offers| - 1];
    if i < |front| {
      VerdictsAt(b, front, i);
      assert front[..i] == offers[..i];
    }
  }

  function CountAccepted(b: Budgets, offers: seq<Offer>): nat {
    if offers == [] then 0
    else CountAccepted(b, offers[..|offers| - 1]) + if VerdictAt(b, offers, |offers| - 1) == Accepted then 1 else 0
  }

  // ---- Invariant ----

  ghost predicate KeysUnique(entries: seq<Offer>) {
    forall i, j | 0 <= i < j < |entries| :: entries[i].key != entries[j].key
  }

  ghost predicate WithinBudgets(entries: seq<Offer>, b: Budgets) {
    && |entries| <= b.total
    && (forall t :: Count(entries, t) <= t.Limit(b))
  }

  lemma {:induction false} MergeKeepsCount(entries: seq<Offer>, offer: Offer, t: Tally)
    ensures Count(MergeInto(entries, offer), t) == Count(entries, t)
  {
    MergeIntoAt(entries, offer);
    if entries != [] {
      MergeKeepsCount(entries[..|entries| - 1], offer, t);
      MergeIntoAt(entries[..|entries| - 1], offer);
      assert MergeInto(entries, offer)[..|entries| - 1] == MergeInto(entries[..|entries| - 1], offer);
    }
  }

  lemma MergeKeeps(entries: seq<Offer>, offer: Offer)
    ensures |MergeInto(entries, offer)| == |entries|
    ensures forall i | 0 <= i < |entries| :: MergeInto(entries, offer)[i].key == entries[i].key
    ensures forall t :: Count(MergeInto(entries, offer), t) == Count(entries, t)
    ensures forall key :: Holds(MergeInto(entries, offer), key) <==> Holds(entries, key)
  {
    MergeIntoAt(entries, offer);
    forall t ensures Count(MergeInto(entries, offer), t) == Count(entries, t) {
      MergeKeepsCount(entries, offer, t);
    }
    forall key ensures Holds(MergeInto(entries, offer), key) <==> Holds(entries, key) {
      if Holds(entries, key) {
        var i :| 0 <= i < |entries| && entries[i].key == key;
        assert MergeInto(entries, offer)[i].key == key;
      }
    }
  }

  lemma AppendCounts(entries: seq<Offer>, offer: Offer)
    ensures forall t :: Count(entries + [offer], t) == Count(entries, t) + if t.Covers(offer.key) then 1 else 0
    ensures forall key :: Holds(entries + [offer], key) <==> Holds(entries, key) || offer.key == key
  {
    var after := entries + [offer];
    assert after[..|entries|] == entries;
    forall key ensures Holds(after, key) <==> Holds(entries, key) || offer.key == key {
      if Holds(entries, key) {
        var i :| 0 <= i < |entries| && entries[i].key == key;
        assert after[i].key == key;
      }
      if offer.key == key {
        assert after[|entries|].key == key;
      }
    }
  }

  /** In every state: keys are unique, all four budgets hold, and the entries are the accepted offers. */
  lemma {:induction false} ReplayInvariant(b: Budgets, offers: seq<Offer>)
    ensures KeysUnique(Replay(b, offers)) && WithinBudgets(Replay(b, offers), b)
    ensures |Replay(b, offers)| == CountAccepted(b, offers)
  {
    if offers != [] {
      var front, offer := offers[..|offers| - 1], offers[|offers| - 1];
      ReplayInvariant(b, front);
      AddInvariant(Replay(b, front), b, offer);
    }
  }

  lemma AddInvariant(entries: seq<Offer>, b: Budgets, offer: Offer)
    requires KeysUnique(entries) && WithinBudgets(entries, b)
    ensures var (after, verdict) := Add(entries, b, offer);
            && KeysUnique(after) && WithinBudgets(after, b)
            && |after| == |entries| + if verdict == Accepted then 1 else 0
  {
    MergeKeeps(entries, offer);
    AppendCounts(entries, offer);
  }

  // ---- First verdicts are final ----

  /** Not in the registry and never going to be. */
  predicate Barred(entries: seq<Offer>, b: Budgets, key: Key) {
    !Holds(entries, key) && BudgetReason(entries, b, key).Some?
  }

  lemma AddKeepsVerdicts(entries: seq<Offer>, b: Budgets, offer: Offer, key: Key)
    ensures Holds(entries, key) ==> Holds(Add(entries, b, offer).0, key)
    ensures Barred(entries, b, key) ==> Barred(Add(entries, b, offer).0, b, key)
  {
    MergeKeeps(entries, offer);
    AppendCounts(entries, offer);
  }

  lemma {:induction false} VerdictsPersist(b: Budgets, offers: seq<Offer>, i: nat, n: nat, key: Key)
    requires i <= n <= |offers|
    ensures Holds(Replay(b, offers[..i]), key) ==> Holds(Replay(b, offers[..n]), key)
    ensures Barred(Replay(b, offers[..i]), b, key) ==> Barred(Replay(b, offers[..n]), b, key)
  {
    if i < n {
      VerdictsPersist(b, offers, i, n - 1, key);
      TakeTake(offers, n - 1);
      AddKeepsVerdicts(Replay(b, offers[..n - 1]), b, offers[n - 1], key);
    }
  }

  lemma FirstVerdictSettles(b: Budgets, offers: seq<Offer>, i: nat)
    requires i < |offers|
    ensures VerdictAt(b, offers, i).Blocked() ==> Barred(Replay(b, offers[..i + 1]), b, offers[i].key)
    ensures !VerdictAt(b, offers, i).Blocked() ==> Holds(Replay(b, offers[..i + 1]), offers[i].key)
  {
    TakeTake(offers, i);
    var entries := Replay(b, offers[..i]);
    AddKeepsVerdicts(entries, b, offers[i], offers[i].key);
    AppendCounts(entries, offers[i]);
    MergeKeeps(entries, offers[i]);
  }

  /** Two offers of the same key: if the first was blocked so is the second, though perhaps for another
      budget; if the first was accepted or merged, the second is merged. */
  lemma FirstVerdictFinal(b: Budgets, offers: seq<Offer>, i: nat, j: nat)
    requires i < j < |offers| && offers[i].key == offers[j].key
    ensures VerdictAt(b, offers, i).Blocked() ==> VerdictAt(b, offers, j).Blocked()
    ensures !VerdictAt(b, offers, i).Blocked() ==> VerdictAt(b, offers, j) == Duplicate
  {
    FirstVerdictSettles(b, offers, i);
    VerdictsPersist(b, offers, i + 1, j, offers[i].key);
  }

  // ---- Evidence of an accepted key ----

  function SameKey(key: Key): Offer -> bool {
    (o: Offer) => o.key == key
  }

  /** The first offer's evidence with all later ones merged in. */
  function MergeAll(offers: seq<Offer>): Evidence
    requires offers != []
  {
    if |offers| == 1 then offers[0].evidence
    else Merge(MergeAll(offers[..|offers| - 1]), offers[|offers| - 1].evidence)
  }

  /** Where an entry comes from. */
  lemma AddAt(entries: seq<Offer>, b: Budgets, offer: Offer, i: nat)
    requires i < |Add(entries, b, offer).0|
    ensures var e := Add(entries, b, offer).0[i];
            if i == |entries| then Add(entries, b, offer).1 == Accepted && e == offer
            else i < |entries| && e.key == entries[i].key &&
                 e.evidence == if e.key == offer.key then Merge(entries[i].evidence, offer.evidence) else entries[i].evidence
  {
    MergeIntoAt(entries, offer);
    if i < |entries| && entries[i].key == offer.key {
      assert Holds(entries, offer.key);
    }
  }

  /** An accepted entry carries the merge of every offer of its key, from the first to the last. */
  lemma {:induction false} EntryMergesAll(b: Budgets, offers: seq<Offer>, i: nat)
    requires i < |Replay(b, offers)|
    ensures var e := Replay(b, offers)[i];
            Filter(offers, SameKey(e.key)) != [] && e.evidence == MergeAll(Filter(offers, SameKey(e.key)))
  {
    var front, offer := offers[..|offers| - 1], offers[|offers| - 1];
    var entries := Replay(b, front);
    var key := Replay(b, offers)[i].key;
    AddAt(entries, b, offer, i);
    if i < |entries| {
      EntryMergesAll(b, front, i);
      var os := Filter(front, SameKey(key));
      if offer.key == key {
        assert Filter(offers, SameKey(key)) == os + [offer];
        assert (os + [offer])[..|os|] == os;
      }
    } else {
      NeverOfferedBefore(b, front, offer);
      assert Filter(offers, SameKey(key)) == [offer];
    }
  }

  /** A key accepted now has not been offered before. */
  lemma NeverOfferedBefore(b: Budgets, front: seq<Offer>, offer: Offer)
    requires Add(Replay(b, front), b, offer).1 == Accepted
    ensures Filter(front, SameKey(offer.key)) == []
  {
    FilterMembers(front, SameKey(offer.key));
    var os := Filter(front, SameKey(offer.key));
    if os != [] {
      assert os[0] in front && os[0].key == offer.key;
      var i :| 0 <= i < |front| && front[i] == os[0];
      assert front[..|front|] == front;
      FirstVerdictSettles(b, front, i);
      VerdictsPersist(b, front, i + 1, |front|, offer.key);
    }
  }

  function SourceOf(o: Offer): Option<string> { o.evidence.source }

  function AllLocators(offers: seq<Offer>): seq<Locator> {
    if offers == [] then [] else AllLocators(offers[..|offers| - 1]) + offers[|offers| - 1].evidence.locators
  }

  ghost predicate CleanOffers(offers: seq<Offer>) {
    forall o | o in offers :: CleanList(o.evidence.locators)
  }

  lemma {:induction false} MergeAllSource(offers: seq<Offer>)
    requires offers != []
    ensures LeastSource(MergeAll(offers).source, Map(offers, SourceOf))
  {
    var front, last := offers[..|offers| - 1], offers[|offers| - 1];
    if front == [] {
      SourceOrder();
      assert Map(offers, SourceOf) == [SourceOf(last)];
      assert forall x: string :: SourceLe(x, x);
    } else {
      MergeAllSource(front);
      PreferLeast(MergeAll(front).source, Map(front, SourceOf), last.evidence.source);
      assert Map(offers, SourceOf) == Map(front, SourceOf) + [SourceOf(last)];
    }
  }

  lemma {:induction false} MergeAllLocators(offers: seq<Offer>)
    requires offers != [] && CleanOffers(offers)
    ensures MergeAll(offers).locators == Dedupe(AllLocators(offers)) && CleanList(MergeAll(offers).locators)
  {
    var front, last := offers[..|offers| - 1], offers[|offers| - 1];
    assert last in offers;
    if front == [] {
      assert AllLocators(offers) == last.evidence.locators;
      DedupeDistinct(last.evidence.locators);
    } else {
      assert CleanOffers(front) by {
        forall o | o in front ensures o in offers {}
      }
      MergeAllLocators(front);
      MergeLocators(MergeAll(front).locators, last.evidence.locators);
      DedupeAppend(AllLocators(front), last.evidence.locators);
    }
  }

  /** An accepted entry's source is the least source ever offered for its key, and its locators are the
      first occurrences among all locators offered for it, in order of arrival. */
  lemma AcceptedEvidence(b: Budgets, offers: seq<Offer>, i: nat)
    requires i < |Replay(b, offers)| && CleanOffers(offers)
    ensures var e := Replay(b, offers)[i];
            var own := Filter(offers, SameKey(e.key));
            && LeastSource(e.evidence.source, Map(own, SourceOf))
            && e.evidence.locators == Dedupe(AllLocators(own))
  {
    var own := Filter(offers, SameKey(Replay(b, offers)[i].key));
    FilterMembers(offers, SameKey(Replay(b, offers)[i].key));
    EntryMergesAll(b, offers, i);
    MergeAllSource(own);
    MergeAllLocators(own);
  }

  /** Whatever the order of the offers, a key accepted in both orders ends with the same source. */
  lemma SourceOrderFree(b: Budgets, offers: seq<Offer>, other: seq<Offer>, i: nat, j: nat)
    requires multiset(offers) == multiset(other)
    requires i < |Replay(b, offers)| && j < |Replay(b, other)| && Replay(b, offers)[i].key == Replay(b, other)[j].key
    ensures Replay(b, offers)[i].evidence.source == Replay(b, other)[j].evidence.source
  {
    var key := Replay(b, offers)[i].key;
    SameOffers(offers, other);
    var s, t := Filter(offers, SameKey(key)), Filter(other, SameKey(key));
    EntryMergesAll(b, offers, i);
    EntryMergesAll(b, other, j);
    MergeAllSource(s);
    MergeAllSource(t);
    FilterMembers(offers, SameKey(key));
    FilterMembers(other, SameKey(key));
    SourcesOf(s, t);
    LeastUnique(Replay(b, offers)[i].evidence.source, Replay(b, other)[j].evidence.source, Map(s, SourceOf), Map(t, SourceOf));
  }

  lemma SameOffers(offers: seq<Offer>, other: seq<Offer>)
    requires multiset(offers) == multiset(other)
    ensures forall o :: o in offers <==> o in other
  {
    forall o ensures o in offers <==> o in other {
      assert o in offers <==> o in multiset(offers);
      assert o in other <==> o in multiset(other);
    }
  }

  lemma SourcesOf(s: seq<Offer>, t: seq<Offer>)
    requires forall o :: o in s <==> o in t
    ensures forall x :: x in Map(s, SourceOf) <==> x in Map(t, SourceOf)
  {
    forall x ensures x in Map(s, SourceOf) <==> x in Map(t, SourceOf) {
      if x in Map(s, SourceOf) {
        var i :| 0 <= i < |s| && Map(s, SourceOf)[i] == x;
        assert s[i] in t;
        var j :| 0 <= j < |t| && t[j] == s[i];
        assert Map(t, SourceOf)[j] == x;
      }
      if x in Map(t, SourceOf) {
        var j :| 0 <= j < |t| && Map(t, SourceOf)[j] == x;
        assert t[j] in s;
        var i :| 0 <= i < |s| && s[i] == t[j];
        assert Map(s, SourceOf)[i] == x;
      }
    }
  }
}
