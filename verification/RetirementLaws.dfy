/** What the retirement decisions mean: exactly the checks whose page, menu chain or elements are gone,
    each once and for its first reason. */
module RetirementLaws {
  import opened Basics
  import opened Sorting
  import opened Corpus
  import opened Reconciliation

  ghost predicate AssetsDistinct(pages: seq<ActivePage>) {
    forall i, j | 0 <= i < j < |pages| :: pages[i].assetId != pages[j].assetId
  }

  ghost predicate ChecksDistinct(checks: seq<ActiveCheck>) {
    forall i, j | 0 <= i < j < |checks| :: checks[i].checkId != checks[j].checkId
  }

  /** The route of an asset's page, blank when the asset has no usable page. */
  ghost function KnownRoute(pages: seq<ActivePage>, assetId: Id): string {
    if exists p :: p in pages && p.assetId == assetId then
      var p :| p in pages && p.assetId == assetId; p.route
    else ""
  }

  ghost predicate ElementGone(d: Dependencies, rows: seq<ElementRow>) {
    exists r | r in d.required :: forall row | row in rows :: !Matches(r, row)
  }

  /** The reason a check must be retired, read off the current truth. */
  ghost function Verdict(c: ActiveCheck, route: string, truth: SnapshotTruth): Option<Reason> {
    var d := NormalDependencies(c.dependencies);
    if route == "" then None
    else if route !in truth.routes then Some(MissingPage)
    else if !Subsequence(d.menuChain, At(truth.chains, route)) then Some(MissingMenuChain)
    else if ElementGone(d, At(truth.elements, route)) then Some(MissingKeyElement)
    else None
  }

  // ---- Groups ----

  ghost predicate GroupsSeparate(groups: seq<Decision>) {
    forall i, j | 0 <= i < j < |groups| :: groups[i].assetId != groups[j].assetId || groups[i].reason != groups[j].reason
  }

  ghost predicate InGroup(groups: seq<Decision>, assetId: Id, reason: Reason, checkId: Id) {
    exists g | g in groups :: g.assetId == assetId && g.reason == reason && checkId in g.checkIds
  }

  lemma {:induction false} AddToGroupsMeaning(groups: seq<Decision>, assetId: Id, reason: Reason, checkId: Id)
    requires GroupsSeparate(groups)
    ensures var r := AddToGroups(groups, assetId, reason, checkId);
            && GroupsSeparate(r)
            && (forall g | g in r :: (g.assetId == assetId && g.reason == reason) || g in groups)
            && (forall a, q, id :: InGroup(r, a, q, id) <==> InGroup(groups, a, q, id) || (a == assetId && q == reason && id == checkId))
  {
    var r := AddToGroups(groups, assetId, reason, checkId);
    if groups == [] {
      assert r == [Decision(assetId, [checkId], reason)];
      assert r[0] in r;
    } else if groups[0].assetId == assetId && groups[0].reason == reason {
      AddToFirst(groups, checkId);
    } else {
      AddToGroupsMeaning(groups[1..], assetId, reason, checkId);
      var s := AddToGroups(groups[1..], assetId, reason, checkId);
      assert r == [groups[0]] + s;
      forall g | g in s ensures g.assetId != groups[0].assetId || g.reason != groups[0].reason {
        if g in groups[1..] {
          var k :| 0 <= k < |groups[1..]| && groups[1..][k] == g;
          assert groups[k + 1] == g;
        }
      }
      SeparateCons(groups[0], s);
      InGroupCons(groups[0], s);
      InGroupCons(groups[0], groups[1..]);
      assert groups == [groups[0]] + groups[1..];
    }
  }

  lemma SeparateCons(g: Decision, rest: seq<Decision>)
    requires GroupsSeparate(rest) && forall h | h in rest :: h.assetId != g.assetId || h.reason != g.reason
    ensures GroupsSeparate([g] + rest)
  {
    var r := [g] + rest;
    forall i, j | 0 <= i < j < |r| ensures r[i].assetId != r[j].assetId || r[i].reason != r[j].reason {
      if i == 0 { assert r[j] in rest; } else { assert r[i] == rest[i - 1] && r[j] == rest[j - 1]; }
    }
  }

  lemma InGroupCons(g: Decision, rest: seq<Decision>)
    ensures forall a, q, id :: InGroup([g] + rest, a, q, id) <==>
                                 (g.assetId == a && g.reason == q && id in g.checkIds) || InGroup(rest, a, q, id)
  {
    forall a, q, id
      ensures InGroup([g] + rest, a, q, id) <==> (g.assetId == a && g.reason == q && id in g.checkIds) || InGroup(rest, a, q, id)
    {
      if g.assetId == a && g.reason == q && id in g.checkIds {
        assert g in [g] + rest;
      }
      if InGroup(rest, a, q, id) {
        var h :| h in rest && h.assetId == a && h.reason == q && id in h.checkIds;
        assert h in [g] + rest;
      }
    }
  }

  lemma AddToFirst(groups: seq<Decision>, checkId: Id)
    requires groups != [] && GroupsSeparate(groups)
    ensures var g := groups[0];
            var r := [g.(checkIds := g.checkIds + [checkId])] + groups[1..];
            && GroupsSeparate(r)
            && (forall h | h in r :: (h.assetId == g.assetId && h.reason == g.reason) || h in groups)
            && (forall a, q, id :: InGroup(r, a, q, id) <==> InGroup(groups, a, q, id) || (a == g.assetId && q == g.reason && id == checkId))
  {
    var g := groups[0];
    InGroupCons(g, groups[1..]);
    InGroupCons(g.(checkIds := g.checkIds + [checkId]), groups[1..]);
    assert groups == [g] + groups[1..];
  }

  lemma {:induction false} GroupsMeaning(checks: seq<ActiveCheck>, routes: map<Id, string>, missing: set<Id>, truth: SnapshotTruth)
    ensures var groups := Groups(checks, routes, missing, truth);
            && GroupsSeparate(groups)
            && (forall g | g in groups :: g.reason != MissingPage)
            && (forall a, q, id :: InGroup(groups, a, q, id) <==> exists c :: Grouped(checks, routes, missing, truth, a, q, id, c))
  {
    var groups := Groups(checks, routes, missing, truth);
    if checks == [] {
      forall a, q, id ensures !InGroup(groups, a, q, id) {}
    } else {
      var front, c := checks[..|checks| - 1], checks[|checks| - 1];
      GroupsMeaning(front, routes, missing, truth);
      var before := Groups(front, routes, missing, truth);
      var reason := GroupReason(c, routes, missing, truth);
      if reason.Some? {
        AddToGroupsMeaning(before, c.assetId, reason.value, c.checkId);
      }
      forall a, q, id ensures InGroup(groups, a, q, id) <==> exists d :: Grouped(checks, routes, missing, truth, a, q, id, d) {
        GroupedSnoc(front, c, routes, missing, truth, a, q, id);
        assert checks == front + [c];
      }
    }
  }

  ghost predicate Grouped(
    checks: seq<ActiveCheck>, routes: map<Id, string>, missing: set<Id>, truth: SnapshotTruth,
    assetId: Id, reason: Reason, checkId: Id, c: ActiveCheck)
  {
    c in checks && c.assetId == assetId && c.checkId == checkId && GroupReason(c, routes, missing, truth) == Some(reason)
  }

  lemma GroupedSnoc(
    front: seq<ActiveCheck>, c: ActiveCheck, routes: map<Id, string>, missing: set<Id>, truth: SnapshotTruth,
    a: Id, q: Reason, id: Id)
    ensures (exists d :: Grouped(front + [c], routes, missing, truth, a, q, id, d)) <==>
            (exists d :: Grouped(front, routes, missing, truth, a, q, id, d))
            || Grouped([c], routes, missing, truth, a, q, id, c)
  {
    if d :| Grouped(front, routes, missing, truth, a, q, id, d) {
      assert Grouped(front + [c], routes, missing, truth, a, q, id, d);
    }
    if Grouped([c], routes, missing, truth, a, q, id, c) {
      assert Grouped(front + [c], routes, missing, truth, a, q, id, c);
    }
    if d :| Grouped(front + [c], routes, missing, truth, a, q, id, d) {
      assert d in front ==> Grouped(front, routes, missing, truth, a, q, id, d);
    }
  }

  // ---- Routes ----

  lemma {:induction false} RouteListed(pages: seq<ActivePage>, p: ActivePage)
    requires AssetsDistinct(pages) && p in pages
    ensures p.assetId in RoutesByAsset(pages) && RoutesByAsset(pages)[p.assetId] == p.route
  {
    var front, last := pages[..|pages| - 1], pages[|pages| - 1];
    SnocSplit(pages);
    if p != last {
      RouteListed(front, p);
      var i :| 0 <= i < |front| && front[i] == p;
      assert pages[i].assetId != last.assetId;
    }
  }

  lemma {:induction false} RouteHasPage(pages: seq<ActivePage>, assetId: Id)
    requires assetId in RoutesByAsset(pages)
    ensures exists p :: p in pages && p.assetId == assetId
  {
    var front, last := pages[..|pages| - 1], pages[|pages| - 1];
    SnocSplit(pages);
    if last.assetId == assetId {
      assert last in pages;
    } else {
      RouteHasPage(front, assetId);
      var p :| p in front && p.assetId == assetId;
      assert p in pages;
    }
  }

  lemma RoutesMeaning(pages: seq<ActivePage>)
    requires AssetsDistinct(pages)
    ensures forall a :: a in RoutesByAsset(pages) <==> exists p :: p in pages && p.assetId == a
    ensures forall p | p in pages :: p.assetId in RoutesByAsset(pages) && RoutesByAsset(pages)[p.assetId] == p.route
  {
    forall p | p in pages ensures p.assetId in RoutesByAsset(pages) && RoutesByAsset(pages)[p.assetId] == p.route {
      RouteListed(pages, p);
    }
    forall a | a in RoutesByAsset(pages) ensures exists p :: p in pages && p.assetId == a {
      RouteHasPage(pages, a);
    }
  }

  lemma RouteKnown(pages: seq<ActivePage>, assetId: Id)
    requires AssetsDistinct(pages)
    ensures RouteOfAsset(RoutesByAsset(pages), assetId) == KnownRoute(pages, assetId)
  {
    RoutesMeaning(pages);
  }

  lemma MissingMeaning(pages: seq<ActivePage>, truth: SnapshotTruth)
    requires AssetsDistinct(pages)
    ensures forall a :: a in MissingAssets(pages, truth) <==> KnownRoute(pages, a) != "" && KnownRoute(pages, a) !in truth.routes
  {
    var kept := Filter(pages, IsMissing(truth));
    var missing := MissingAssets(pages, truth);
    FilterMembers(pages, IsMissing(truth));
    RoutesMeaning(pages);
    forall a ensures a in missing <==> KnownRoute(pages, a) != "" && KnownRoute(pages, a) !in truth.routes {
      RouteKnown(pages, a);
      if a in missing {
        var i :| 0 <= i < |missing| && missing[i] == a;
        assert kept[i] in kept && kept[i].assetId == a;
      }
      if KnownRoute(pages, a) != "" && KnownRoute(pages, a) !in truth.routes {
        var p :| p in pages && p.assetId == a;
        assert p in kept;
        var i :| 0 <= i < |kept| && kept[i] == p;
        assert missing[i] == a;
      }
    }
  }

  lemma MissingDistinct(pages: seq<ActivePage>, truth: SnapshotTruth)
    requires AssetsDistinct(pages)
    ensures Distinct(MissingAssets(pages, truth))
  {
    assert Distinct(Map(pages, AssetOf));
    FilterMapDistinct(pages, IsMissing(truth));
  }

  lemma {:induction false} FilterMapDistinct(pages: seq<ActivePage>, p: ActivePage -> bool)
    requires Distinct(Map(pages, AssetOf))
    ensures Distinct(Map(Filter(pages, p), AssetOf))
  {
    if pages != [] {
      var front, last := pages[..|pages| - 1], pages[|pages| - 1];
      assert Map(pages, AssetOf) == Map(front, AssetOf) + [AssetOf(last)];
      FilterMapDistinct(front, p);
      FilterMembers(front, p);
      var kept := Filter(front, p);
      forall i | 0 <= i < |kept| ensures AssetOf(kept[i]) != AssetOf(last) {
        assert kept[i] in front;
        var k :| 0 <= k < |front| && front[k] == kept[i];
        assert Map(pages, AssetOf)[k] != Map(pages, AssetOf)[|front|];
      }
    }
  }

  // ---- Exactness ----

  ghost predicate Names(d: Decision, c: ActiveCheck) {
    c.checkId in d.checkIds
  }

  lemma GroupReasonIsVerdict(c: ActiveCheck, pages: seq<ActivePage>, truth: SnapshotTruth)
    requires AssetsDistinct(pages)
    ensures var verdict := Verdict(c, KnownRoute(pages, c.assetId), truth);
            GroupReason(c, RoutesByAsset(pages), ToSet(MissingAssets(pages, truth)), truth)
            == if verdict == Some(MissingPage) then None else verdict
  {
    RouteKnown(pages, c.assetId);
    MissingMeaning(pages, truth);
    var route := KnownRoute(pages, c.assetId);
    var d := NormalDependencies(c.dependencies);
    ScanIsSubsequence(d.menuChain, At(truth.chains, route));
  }

  lemma ChecksOfAssetMeaning(checks: seq<ActiveCheck>, assetId: Id)
    ensures forall id :: id in ChecksOfAsset(checks, assetId) <==> exists c :: c in checks && c.assetId == assetId && c.checkId == id
  {
    var kept := Filter(checks, CheckOf(assetId));
    FilterMembers(checks, CheckOf(assetId));
    forall id ensures id in ChecksOfAsset(checks, assetId) <==> exists c :: c in checks && c.assetId == assetId && c.checkId == id {
      if id in ChecksOfAsset(checks, assetId) {
        var i :| 0 <= i < |kept| && ChecksOfAsset(checks, assetId)[i] == id;
        assert kept[i] in kept && kept[i] in checks;
      }
      if c :| c in checks && c.assetId == assetId && c.checkId == id {
        assert c in kept;
        var i :| 0 <= i < |kept| && kept[i] == c;
        assert ChecksOfAsset(checks, assetId)[i] == id;
      }
    }
  }

  lemma SortedIdsMeaning(ids: seq<Id>)
    ensures forall id :: id in SortedIds(ids) <==> id in ids
  {
    AscendingMembers(ToSet(ids), IdLe);
  }

  /** With the gate open, a decision names a check exactly when it is about the check's asset and states
      the check's verdict; every check with a verdict is named; every asset whose page is gone has a
      decision; and no two decisions share asset and reason, so no check is named twice. With the gate
      closed nothing is decided. */
  lemma RetirementExact(pages: seq<ActivePage>, checks: seq<ActiveCheck>, truth: SnapshotTruth, gate: Gate)
    requires AssetsDistinct(pages) && ChecksDistinct(checks)
    ensures var ds := Decisions(pages, checks, truth, gate);
            && (!gate.allow ==> ds == [])
            && (gate.allow ==> forall c, k | c in checks && 0 <= k < |ds| ::
                  Names(ds[k], c) <==> ds[k].assetId == c.assetId && Verdict(c, KnownRoute(pages, c.assetId), truth) == Some(ds[k].reason))
            && (gate.allow ==> forall c | c in checks && Verdict(c, KnownRoute(pages, c.assetId), truth).Some? ::
                  exists k :: 0 <= k < |ds| && Names(ds[k], c))
            && (gate.allow ==> forall a :: (exists k :: 0 <= k < |ds| && ds[k].assetId == a && ds[k].reason == MissingPage) <==>
                  KnownRoute(pages, a) != "" && KnownRoute(pages, a) !in truth.routes)
            && GroupsSeparate(ds)
  {
    if gate.allow {
      DecisionParts(pages, checks, truth, gate);
      DecisionsNeverRepeat(pages, checks, truth, gate);
      forall c, k | c in checks && 0 <= k < |Decisions(pages, checks, truth, gate)|
        ensures var ds := Decisions(pages, checks, truth, gate);
                Names(ds[k], c) <==> ds[k].assetId == c.assetId && Verdict(c, KnownRoute(pages, c.assetId), truth) == Some(ds[k].reason)
      {
        NamedExactly(pages, checks, truth, gate, c, k);
      }
      forall c | c in checks && Verdict(c, KnownRoute(pages, c.assetId), truth).Some?
        ensures exists k :: 0 <= k < |Decisions(pages, checks, truth, gate)| && Names(Decisions(pages, checks, truth, gate)[k], c)
      {
        var k := NamedSomewhere(pages, checks, truth, gate, c);
      }
      forall a
        ensures (exists k :: 0 <= k < |Decisions(pages, checks, truth, gate)| && Decisions(pages, checks, truth, gate)[k].assetId == a
                             && Decisions(pages, checks, truth, gate)[k].reason == MissingPage)
            <==> KnownRoute(pages, a) != "" && KnownRoute(pages, a) !in truth.routes
      {
        MissingMeaning(pages, truth);
        var missing := MissingAssets(pages, truth);
        if a in missing {
          var i :| 0 <= i < |missing| && missing[i] == a;
          assert Decisions(pages, checks, truth, gate)[i].assetId == a;
        }
      }
    }
  }

  function GroupsFor(pages: seq<ActivePage>, checks: seq<ActiveCheck>, truth: SnapshotTruth): seq<Decision> {
    Groups(checks, RoutesByAsset(pages), ToSet(MissingAssets(pages, truth)), truth)
  }

  /** The decision list is the missing assets, in order, followed by the groups. */
  lemma DecisionParts(pages: seq<ActivePage>, checks: seq<ActiveCheck>, truth: SnapshotTruth, gate: Gate)
    requires gate.allow
    ensures var ds := Decisions(pages, checks, truth, gate);
            var missing := MissingAssets(pages, truth);
            var groups := GroupsFor(pages, checks, truth);
            && |ds| == |missing| + |groups|
            && (forall i | 0 <= i < |missing| :: ds[i] == Decision(missing[i], ChecksOfAsset(checks, missing[i]), MissingPage))
            && (forall k | |missing| <= k < |ds| :: ds[k] == Finished(groups[k - |missing|]))
            && (forall g | g in groups :: g.reason != MissingPage)
  {
    GroupsMeaning(checks, RoutesByAsset(pages), ToSet(MissingAssets(pages, truth)), truth);
  }

  lemma DecisionsNeverRepeat(pages: seq<ActivePage>, checks: seq<ActiveCheck>, truth: SnapshotTruth, gate: Gate)
    requires gate.allow && AssetsDistinct(pages)
    ensures GroupsSeparate(Decisions(pages, checks, truth, gate))
  {
    DecisionParts(pages, checks, truth, gate);
    GroupsMeaning(checks, RoutesByAsset(pages), ToSet(MissingAssets(pages, truth)), truth);
    MissingDistinct(pages, truth);
    DecisionsSeparate(MissingAssets(pages, truth), GroupsFor(pages, checks, truth), Decisions(pages, checks, truth, gate));
  }

  lemma DecisionsSeparate(missing: seq<Id>, groups: seq<Decision>, ds: seq<Decision>)
    requires Distinct(missing) && GroupsSeparate(groups) && |ds| == |missing| + |groups|
    requires forall i | 0 <= i < |missing| :: ds[i].assetId == missing[i] && ds[i].reason == MissingPage
    requires forall k | |missing| <= k < |ds| :: ds[k] == Finished(groups[k - |missing|])
    requires forall g | g in groups :: g.reason != MissingPage
    ensures GroupsSeparate(ds)
  {
    forall i, j | 0 <= i < j < |ds| ensures ds[i].assetId != ds[j].assetId || ds[i].reason != ds[j].reason {
      if j >= |missing| {
        assert ds[j] == Finished(groups[j - |missing|]) && groups[j - |missing|] in groups;
        if i >= |missing| {
          assert ds[i] == Finished(groups[i - |missing|]);
        }
      }
    }
  }

  lemma MissingNamedExactly(pages: seq<ActivePage>, checks: seq<ActiveCheck>, truth: SnapshotTruth, c: ActiveCheck, k: nat)
    requires AssetsDistinct(pages) && ChecksDistinct(checks) && c in checks && k < |MissingAssets(pages, truth)|
    ensures var missing := MissingAssets(pages, truth)[k];
            Names(Decision(missing, ChecksOfAsset(checks, missing), MissingPage), c) <==>
            missing == c.assetId && Verdict(c, KnownRoute(pages, c.assetId), truth) == Some(MissingPage)
  {
    var missing := MissingAssets(pages, truth);
    ChecksOfAssetMeaning(checks, missing[k]);
    MissingMeaning(pages, truth);
    assert missing[k] in missing;
    if c.checkId in ChecksOfAsset(checks, missing[k]) {
      var e :| e in checks && e.assetId == missing[k] && e.checkId == c.checkId;
      SameCheck(checks, c, e);
    }
  }

  lemma GroupNamedExactly(pages: seq<ActivePage>, checks: seq<ActiveCheck>, truth: SnapshotTruth, c: ActiveCheck, g: Decision)
    requires AssetsDistinct(pages) && ChecksDistinct(checks) && c in checks
    requires g in Groups(checks, RoutesByAsset(pages), ToSet(MissingAssets(pages, truth)), truth)
    ensures c.checkId in g.checkIds <==>
            g.assetId == c.assetId && Verdict(c, KnownRoute(pages, c.assetId), truth) == Some(g.reason)
  {
    var routes, missing := RoutesByAsset(pages), ToSet(MissingAssets(pages, truth));
    var groups := Groups(checks, routes, missing, truth);
    GroupsMeaning(checks, routes, missing, truth);
    GroupReasonIsVerdict(c, pages, truth);
    if c.checkId in g.checkIds {
      assert InGroup(groups, g.assetId, g.reason, c.checkId);
      var e :| Grouped(checks, routes, missing, truth, g.assetId, g.reason, c.checkId, e);
      SameCheck(checks, c, e);
    } else if g.assetId == c.assetId && Verdict(c, KnownRoute(pages, c.assetId), truth) == Some(g.reason) {
      assert Grouped(checks, routes, missing, truth, g.assetId, g.reason, c.checkId, c);
      assert InGroup(groups, g.assetId, g.reason, c.checkId);
      var h :| h in groups && h.assetId == g.assetId && h.reason == g.reason && c.checkId in h.checkIds;
      SameGroup(groups, g, h);
      assert false;
    }
  }

  lemma NamedExactly(pages: seq<ActivePage>, checks: seq<ActiveCheck>, truth: SnapshotTruth, gate: Gate, c: ActiveCheck, k: nat)
    requires gate.allow && AssetsDistinct(pages) && ChecksDistinct(checks) && c in checks
    requires k < |Decisions(pages, checks, truth, gate)|
    ensures var d := Decisions(pages, checks, truth, gate)[k];
            Names(d, c) <==> d.assetId == c.assetId && Verdict(c, KnownRoute(pages, c.assetId), truth) == Some(d.reason)
  {
    var missing := MissingAssets(pages, truth);
    DecisionParts(pages, checks, truth, gate);
    if k < |missing| {
      MissingNamedExactly(pages, checks, truth, c, k);
    } else {
      var g := GroupsFor(pages, checks, truth)[k - |missing|];
      SortedIdsMeaning(g.checkIds);
      GroupNamedExactly(pages, checks, truth, c, g);
    }
  }

  lemma SameCheck(checks: seq<ActiveCheck>, c: ActiveCheck, e: ActiveCheck)
    requires ChecksDistinct(checks) && c in checks && e in checks && c.checkId == e.checkId
    ensures c == e
  {
    var i :| 0 <= i < |checks| && checks[i] == c;
    var j :| 0 <= j < |checks| && checks[j] == e;
  }

  lemma SameGroup(groups: seq<Decision>, g: Decision, h: Decision)
    requires GroupsSeparate(groups) && g in groups && h in groups && g.assetId == h.assetId && g.reason == h.reason
    ensures g == h
  {
    var i :| 0 <= i < |groups| && groups[i] == g;
    var j :| 0 <= j < |groups| && groups[j] == h;
  }

  lemma NamedSomewhere(pages: seq<ActivePage>, checks: seq<ActiveCheck>, truth: SnapshotTruth, gate: Gate, c: ActiveCheck) returns (k: nat)
    requires gate.allow && AssetsDistinct(pages) && ChecksDistinct(checks) && c in checks
    requires Verdict(c, KnownRoute(pages, c.assetId), truth).Some?
    ensures k < |Decisions(pages, checks, truth, gate)| && Names(Decisions(pages, checks, truth, gate)[k], c)
  {
    var missing := MissingAssets(pages, truth);
    var reason := Verdict(c, KnownRoute(pages, c.assetId), truth).value;
    if reason == MissingPage {
      MissingMeaning(pages, truth);
      k :| 0 <= k < |missing| && missing[k] == c.assetId;
    } else {
      var i := GroupFor(pages, checks, truth, c);
      k := |missing| + i;
    }
    DecisionParts(pages, checks, truth, gate);
    NamedExactly(pages, checks, truth, gate, c, k);
  }

  lemma GroupFor(pages: seq<ActivePage>, checks: seq<ActiveCheck>, truth: SnapshotTruth, c: ActiveCheck) returns (i: nat)
    requires AssetsDistinct(pages) && ChecksDistinct(checks) && c in checks
    requires Verdict(c, KnownRoute(pages, c.assetId), truth).Some? && Verdict(c, KnownRoute(pages, c.assetId), truth) != Some(MissingPage)
    ensures var groups := Groups(checks, RoutesByAsset(pages), ToSet(MissingAssets(pages, truth)), truth);
            i < |groups| && groups[i].assetId == c.assetId && Verdict(c, KnownRoute(pages, c.assetId), truth) == Some(groups[i].reason)
  {
    var routes, missing := RoutesByAsset(pages), ToSet(MissingAssets(pages, truth));
    var groups := Groups(checks, routes, missing, truth);
    var reason := Verdict(c, KnownRoute(pages, c.assetId), truth).value;
    GroupReasonIsVerdict(c, pages, truth);
    GroupsMeaning(checks, routes, missing, truth);
    assert Grouped(checks, routes, missing, truth, c.assetId, reason, c.checkId, c);
    assert InGroup(groups, c.assetId, reason, c.checkId);
    var g :| g in groups && g.assetId == c.assetId && g.reason == reason && c.checkId in g.checkIds;
    i :| 0 <= i < |groups| && groups[i] == g;
  }
}
