/** Deriving a page's menu chain and its navigation aliases: `asset_compiler/navigation_aliases.py`. */
module NavigationAliases {
  import opened Basics
  import opened Text
  import opened Sorting
  import opened Corpus
  import opened MenuForest

  /** Labels from root to leaf, and whether they are the whole way. */
  datatype Chain = Chain(names: seq<string>, complete: bool)

  const NO_CHAIN := Chain([], false)

  function PlainName(m: MenuNode): string {
    Strip(m.name)
  }

  predicate Labeled(m: MenuNode) {
    PlainName(m) != ""
  }

  // ---- The chain of one candidate ----

  predicate DepthsRise(down: seq<MenuNode>) {
    forall k | 0 <= k < |down| - 1 :: OneDeeper(down, k)
  }

  predicate OneDeeper(down: seq<MenuNode>, k: nat)
    requires k + 1 < |down|
  {
    down[k + 1].depth == down[k].depth + 1
  }

  function ChainFor(byId: Index, candidate: MenuNode): (c: Chain)
    requires Keyed(byId) && Stored(byId, candidate)
  {
    var down := Reversed(Lineage(byId, {}, candidate));
    LineageClimbs(byId, {}, candidate);
    if down[0].parentId.None? && down[0].depth == 0 && DepthsRise(down) then Chain(Map(down, PlainName), true)
    else Chain([PlainName(candidate)], false)
  }

  /** A path from a root of depth 0 down to the candidate, one depth at a time. */
  ghost predicate RootPath(byId: Index, path: seq<MenuNode>, candidate: MenuNode) {
    && path != [] && path[|path| - 1] == candidate
    && path[0].parentId.None? && path[0].depth == 0 && DepthsRise(path)
    && (forall k | 0 <= k < |path| :: Stored(byId, path[k]))
    && (forall k | 0 <= k < |path| - 1 :: ChildOfPrevious(path, k))
  }

  ghost predicate ChildOfPrevious(path: seq<MenuNode>, k: nat)
    requires k + 1 < |path|
  {
    path[k + 1].parentId == Some(path[k].id)
  }

  lemma {:induction false} DepthIsPosition(byId: Index, path: seq<MenuNode>, candidate: MenuNode, k: nat)
    requires RootPath(byId, path, candidate) && k < |path|
    ensures path[k].depth == k
  {
    if k > 0 {
      DepthIsPosition(byId, path, candidate, k - 1);
      assert OneDeeper(path, k - 1);
    }
  }

  lemma PathIdsDiffer(byId: Index, path: seq<MenuNode>, candidate: MenuNode, i: nat, j: nat)
    requires RootPath(byId, path, candidate) && i < j < |path|
    ensures path[i].id != path[j].id
  {
    DepthIsPosition(byId, path, candidate, i);
    DepthIsPosition(byId, path, candidate, j);
    assert Stored(byId, path[i]) && Stored(byId, path[j]);
  }

  /** The walk up a root path is that path. */
  lemma {:induction false} WalkRetracesPath(byId: Index, path: seq<MenuNode>, candidate: MenuNode, k: nat, visited: set<Id>)
    requires Keyed(byId) && RootPath(byId, path, candidate) && k < |path|
    requires forall id | id in visited :: exists j :: k < j < |path| && path[j].id == id
    ensures Stored(byId, path[k]) && path[k].id !in visited
    ensures Lineage(byId, visited, path[k]) == Reversed(path[..k + 1])
  {
    assert Stored(byId, path[k]);
    if path[k].id in visited {
      var j :| k < j < |path| && path[j].id == path[k].id;
      PathIdsDiffer(byId, path, candidate, k, j);
    }
    if k > 0 {
      assert ChildOfPrevious(path, k - 1) && Stored(byId, path[k - 1]);
      var seen := visited + {path[k].id};
      forall id | id in seen ensures exists j :: k - 1 < j < |path| && path[j].id == id {
        if id == path[k].id { assert k - 1 < k < |path| && path[k].id == id; }
      }
      WalkRetracesPath(byId, path, candidate, k - 1, seen);
      assert path[..k + 1] == path[..k] + [path[k]];
      assert Reversed(path[..k + 1]) == [path[k]] + Reversed(path[..k]);
    }
  }

  lemma ReversedStored(byId: Index, candidate: MenuNode, k: nat)
    requires Keyed(byId) && Stored(byId, candidate) && k < |Lineage(byId, {}, candidate)|
    ensures Stored(byId, Reversed(Lineage(byId, {}, candidate))[k])
    ensures k > 0 ==> ChildOfPrevious(Reversed(Lineage(byId, {}, candidate)), k - 1)
  {
    var up := Lineage(byId, {}, candidate);
    LineageClimbs(byId, {}, candidate);
    var j := |up| - 1 - k;
    if j > 0 { assert Stored(byId, up[j]); }
    if k > 0 { assert Linked(up, j); }
  }

  lemma CompleteChainPath(byId: Index, candidate: MenuNode)
    requires Keyed(byId) && Stored(byId, candidate) && ChainFor(byId, candidate).complete
    ensures RootPath(byId, Reversed(Lineage(byId, {}, candidate)), candidate)
  {
    var down := Reversed(Lineage(byId, {}, candidate));
    LineageClimbs(byId, {}, candidate);
    forall k | 0 <= k < |down| ensures Stored(byId, down[k]) {
      ReversedStored(byId, candidate, k);
    }
    forall k | 0 <= k < |down| - 1 ensures ChildOfPrevious(down, k) {
      ReversedStored(byId, candidate, k + 1);
    }
  }

  lemma PathMakesChain(byId: Index, path: seq<MenuNode>, candidate: MenuNode)
    requires Keyed(byId) && Stored(byId, candidate) && RootPath(byId, path, candidate)
    ensures ChainFor(byId, candidate) == Chain(Map(path, PlainName), true)
    ensures |path| == candidate.depth + 1
  {
    WalkRetracesPath(byId, path, candidate, |path| - 1, {});
    assert path[..|path|] == path;
    assert Reversed(Lineage(byId, {}, candidate)) == path;
    DepthIsPosition(byId, path, candidate, |path| - 1);
  }

  /** On any parent graph: the chain is complete exactly when a root path leads to the candidate, and then it
      lists the labels along that path, one more than the candidate's depth; otherwise it is the
      candidate's own label. */
  lemma ChainForMeaning(byId: Index, candidate: MenuNode)
    requires Keyed(byId) && Stored(byId, candidate)
    ensures var c := ChainFor(byId, candidate);
            && (c.complete <==> exists path :: RootPath(byId, path, candidate))
            && (c.complete ==> |c.names| == candidate.depth + 1)
            && (forall path | RootPath(byId, path, candidate) :: c.names == Map(path, PlainName))
            && (!c.complete ==> c.names == [PlainName(candidate)])
  {
    if ChainFor(byId, candidate).complete {
      CompleteChainPath(byId, candidate);
      PathMakesChain(byId, Reversed(Lineage(byId, {}, candidate)), candidate);
    }
    forall path | RootPath(byId, path, candidate) ensures ChainFor(byId, candidate) == Chain(Map(path, PlainName), true) {
      PathMakesChain(byId, path, candidate);
    }
  }

  lemma ChainEndsWithName(byId: Index, candidate: MenuNode)
    requires Keyed(byId) && Stored(byId, candidate)
    ensures var c := ChainFor(byId, candidate); c.names != [] && c.names[|c.names| - 1] == PlainName(candidate)
  {
    LineageClimbs(byId, {}, candidate);
  }

  method DeriveChainForCandidate(candidate: MenuNode, byId: Index) returns (c: Chain)
    requires Keyed(byId) && Stored(byId, candidate)
    ensures c == ChainFor(byId, candidate)
  {
    var lineage, visited, current := [candidate], {candidate.id}, candidate;
    LineageClimbs(byId, {}, candidate);
    ghost var whole := Lineage(byId, {}, candidate);
    assert Reversed(lineage) == lineage && {} + {candidate.id} == {candidate.id};
    while current.parentId.Some?
      invariant lineage != [] && lineage[0] == current && current.id in byId
      invariant whole == Reversed(lineage) + Further(byId, visited, current)
      decreases byId.Keys - visited
    {
      if current.parentId.value !in byId || current.parentId.value in visited {
        assert Reversed(whole) == lineage;
        return Chain([PlainName(candidate)], false);
      }
      current := byId[current.parentId.value];
      FurtherStep(byId, visited, current, lineage);
      lineage := [current] + lineage;
      visited := visited + {current.id};
    }
    assert Reversed(whole) == lineage;
    if lineage[0].depth != 0 || !DepthsRise(lineage) {
      return Chain([PlainName(candidate)], false);
    }
    c := Chain(Map(lineage, PlainName), true);
  }

  /** The same walk once more, for the answer alone. */
  method HasCompleteTopologyChain(candidate: MenuNode, byId: Index) returns (ok: bool)
    requires Keyed(byId) && Stored(byId, candidate)
    ensures ok <==> exists path :: RootPath(byId, path, candidate)
  {
    var lineage, visited, current := [candidate], {candidate.id}, candidate;
    ChainForMeaning(byId, candidate);
    LineageClimbs(byId, {}, candidate);
    ghost var whole := Lineage(byId, {}, candidate);
    assert Reversed(lineage) == lineage && {} + {candidate.id} == {candidate.id};
    while current.parentId.Some?
      invariant lineage != [] && lineage[0] == current && current.id in byId
      invariant whole == Reversed(lineage) + Further(byId, visited, current)
      decreases byId.Keys - visited
    {
      if current.parentId.value !in byId || current.parentId.value in visited {
        assert Reversed(whole) == lineage;
        return false;
      }
      current := byId[current.parentId.value];
      FurtherStep(byId, visited, current, lineage);
      lineage := [current] + lineage;
      visited := visited + {current.id};
    }
    assert Reversed(whole) == lineage;
    ok := lineage[0].depth == 0 && DepthsRise(lineage);
  }

  /** What the walk still finds above a menu already taken. */
  function Further(byId: Index, visited: set<Id>, m: MenuNode): seq<MenuNode>
    requires Keyed(byId)
  {
    if m.parentId.Some? && m.parentId.value in byId.Keys - visited then Lineage(byId, visited, byId[m.parentId.value]) else []
  }

  lemma FurtherStep(byId: Index, visited: set<Id>, parent: MenuNode, lineage: seq<MenuNode>)
    requires Keyed(byId) && parent.id in byId.Keys - visited
    ensures Reversed([parent] + lineage) + Further(byId, visited + {parent.id}, parent) == Reversed(lineage) + Lineage(byId, visited, parent)
  {
    assert Reversed([parent] + lineage) == Reversed(lineage) + [parent];
  }

  // ---- The chain of a page ----

  function OnRoute(route: string): MenuNode -> bool {
    (m: MenuNode) => m.route.GetOr("") != "" && m.route.value == route
  }

  predicate HasChild(menus: seq<MenuNode>, id: Id) {
    exists m | m in menus :: m.parentId == Some(id)
  }

  function ChildlessIn(menus: seq<MenuNode>): MenuNode -> bool {
    (m: MenuNode) => !HasChild(menus, m.id)
  }

  /** Labelled menus on the route; without any, labelled leaves; without any, all labelled menus. */
  function Pool(menus: seq<MenuNode>, route: string): seq<MenuNode> {
    PoolOf(Filter(menus, Labeled), route)
  }

  function PoolOf(labeled: seq<MenuNode>, route: string): seq<MenuNode> {
    var matching := Filter(labeled, OnRoute(route));
    var leaves := Filter(labeled, ChildlessIn(labeled));
    if matching != [] then matching else if leaves != [] then leaves else labeled
  }

  lemma PoolStored(menus: seq<MenuNode>, route: string)
    requires IdsDistinct(menus)
    ensures var labeled := Filter(menus, Labeled);
            && Keyed(ById(labeled)) && (forall m | m in labeled :: Stored(ById(labeled), m))
            && (forall m | m in Pool(menus, route) :: m in labeled)
            && (Pool(menus, route) == [] <==> labeled == [])
  {
    var labeled := Filter(menus, Labeled);
    FilterIdsDistinct(menus);
    ByIdMeaning(labeled);
    FilterMembers(labeled, OnRoute(route));
    FilterMembers(labeled, ChildlessIn(labeled));
  }

  lemma {:induction false} FilterIdsDistinct(menus: seq<MenuNode>)
    requires IdsDistinct(menus)
    ensures IdsDistinct(Filter(menus, Labeled))
  {
    if menus != [] {
      var front, last := menus[..|menus| - 1], menus[|menus| - 1];
      FilterIdsDistinct(front);
      FilterMembers(front, Labeled);
      forall m | m in Filter(front, Labeled) ensures m.id != last.id {
        assert m in front;
        var i :| 0 <= i < |front| && front[i] == m;
        assert menus[i] == m;
      }
    }
  }

  /** All candidates, and there are some, have this chain. */
  ghost predicate Unanimous(menus: seq<MenuNode>, route: string, c: Chain)
    requires IdsDistinct(menus)
  {
    PoolStored(menus, route);
    && Pool(menus, route) != []
    && forall m | m in Pool(menus, route) :: m in Filter(menus, Labeled) && ChainFor(ById(Filter(menus, Labeled)), m) == c
  }

  /** The result is the chain all candidates agree on, and no chain when they do not. */
  ghost predicate DerivedFrom(menus: seq<MenuNode>, route: string, c: Chain)
    requires IdsDistinct(menus)
  {
    Unanimous(menus, route, c) || (c == NO_CHAIN && forall d :: !Unanimous(menus, route, d))
  }

  predicate CandidateLe(a: MenuNode, b: MenuNode) {
    if a.depth != b.depth then a.depth > b.depth
    else if a.sortOrder != b.sortOrder then a.sortOrder < b.sortOrder
    else if PlainName(a) != PlainName(b) then StrLe(PlainName(a), PlainName(b))
    else a.id <= b.id
  }

  /** Matching candidates first. */
  function CandidateOrder(route: string): (MenuNode, MenuNode) -> bool {
    (a: MenuNode, b: MenuNode) =>
      if OnRoute(route)(a) != OnRoute(route)(b) then OnRoute(route)(a) else CandidateLe(a, b)
  }

  method LeafCandidates(labeled: seq<MenuNode>) returns (leaves: seq<MenuNode>)
    ensures leaves == Filter(labeled, ChildlessIn(labeled))
  {
    var children: map<Id, nat> := map[];
    for i := 0 to |labeled|
      invariant forall id :: id in children <==> HasChild(labeled[..i], id)
      invariant forall id | id in children :: children[id] > 0
    {
      TakeTake(labeled, i);
      var parent := labeled[i].parentId;
      ghost var before, next := children, labeled[..i + 1];
      if parent.Some? {
        children := children[parent.value := 1 + if parent.value in children then children[parent.value] else 0];
      }
      forall id ensures id in children <==> HasChild(next, id) {
        assert id in before <==> HasChild(labeled[..i], id);
        assert HasChild(next, id) <==> HasChild(labeled[..i], id) || parent == Some(id);
      }
    }
    assert labeled[..|labeled|] == labeled;
    leaves := [];
    for i := 0 to |labeled|
      invariant leaves == Filter(labeled[..i], ChildlessIn(labeled))
    {
      TakeTake(labeled, i);
      if labeled[i].id !in children || children[labeled[i].id] == 0 {
        leaves := leaves + [labeled[i]];
      }
    }
  }

  /** The signatures of the candidates; those of leaves carry the label too. */
  method Signatures(pool: seq<MenuNode>, byId: Index, named: bool) returns (signatures: set<(string, Chain)>)
    requires Keyed(byId) && forall m | m in pool :: Stored(byId, m)
    ensures forall s :: s in signatures <==> exists m :: m in pool && s == SignatureOf(byId, m, named)
  {
    signatures := {};
    for i := 0 to |pool|
      invariant forall s :: s in signatures <==> exists m :: m in pool[..i] && s == SignatureOf(byId, m, named)
    {
      TakeTake(pool, i);
      assert pool[i] in pool;
      var c := DeriveChainForCandidate(pool[i], byId);
      ChainEndsWithName(byId, pool[i]);
      ghost var before, next := signatures, pool[..i + 1];
      if c.names != [] {
        signatures := signatures + {(if named then PlainName(pool[i]) else "", c)};
      }
      forall s ensures s in signatures <==> exists m :: m in next && s == SignatureOf(byId, m, named) {
        if s in before {
          var m :| m in pool[..i] && s == SignatureOf(byId, m, named);
          assert m in next;
        }
        assert pool[i] in next;
      }
    }
    assert pool[..|pool|] == pool;
  }

  function SignatureOf(byId: Index, m: MenuNode, named: bool): (string, Chain)
    requires Keyed(byId)
  {
    (if named then PlainName(m) else "", if Stored(byId, m) then ChainFor(byId, m) else NO_CHAIN)
  }

  ghost predicate SignaturesOf(signatures: set<(string, Chain)>, menus: seq<MenuNode>, route: string, named: bool) {
    var byId := ById(Filter(menus, Labeled));
    Keyed(byId) && forall s :: s in signatures <==> exists m :: m in Pool(menus, route) && s == SignatureOf(byId, m, named)
  }

  /** Candidates that agree on the chain agree on the label, which is its last entry. */
  lemma SplitPool(menus: seq<MenuNode>, route: string, named: bool, signatures: set<(string, Chain)>, d: Chain)
    requires IdsDistinct(menus) && SignaturesOf(signatures, menus, route, named) && |signatures| > 1
    ensures !Unanimous(menus, route, d)
  {
    if Unanimous(menus, route, d) {
      var byId := ById(Filter(menus, Labeled));
      PoolStored(menus, route);
      var only := (if named then d.names[|d.names| - 1] else "", d);
      forall s | s in signatures ensures s in {only} {
        var m :| m in Pool(menus, route) && s == SignatureOf(byId, m, named);
        ChainEndsWithName(byId, m);
      }
      SubsetSize(signatures, {only});
    }
  }

  lemma {:induction false} SubsetSize<T>(s: set<T>, t: set<T>)
    requires s <= t
    ensures |s| <= |t|
  {
    if s != {} {
      var x :| x in s;
      SubsetSize(s - {x}, t - {x});
    }
  }

  lemma OneSignature(menus: seq<MenuNode>, route: string, named: bool, signatures: set<(string, Chain)>, c: MenuNode)
    requires IdsDistinct(menus) && SignaturesOf(signatures, menus, route, named) && |signatures| <= 1
    requires c in Pool(menus, route)
    ensures var byId := ById(Filter(menus, Labeled));
            Keyed(byId) && Stored(byId, c) && Unanimous(menus, route, ChainFor(byId, c))
  {
    var byId := ById(Filter(menus, Labeled));
    PoolStored(menus, route);
    var y := SignatureOf(byId, c, named);
    assert y in signatures;
    forall m | m in Pool(menus, route) ensures ChainFor(byId, m) == ChainFor(byId, c) {
      assert SignatureOf(byId, m, named) in signatures;
      AtMostOne(signatures, SignatureOf(byId, m, named), y);
    }
  }

  lemma AtMostOne<T>(s: set<T>, x: T, y: T)
    requires |s| <= 1 && x in s && y in s
    ensures x == y
  {
    if x != y {
      SubsetSize({x, y}, s);
    }
  }

  // ---- Which menus decide, and what they say ----

  ghost predicate Named(menus: seq<MenuNode>, m: MenuNode) {
    m in menus && Strip(m.name) != ""
  }

  ghost predicate NamesRoute(m: MenuNode, route: string) {
    route != "" && m.route == Some(route)
  }

  ghost predicate NamedLeaf(menus: seq<MenuNode>, m: MenuNode) {
    Named(menus, m) && forall k | Named(menus, k) :: k.parentId != Some(m.id)
  }

  /** The labelled menus with the page's route; without any, those without labelled children; without any,
      all labelled ones. */
  ghost predicate Preferred(menus: seq<MenuNode>, route: string, m: MenuNode) {
    && Named(menus, m)
    && if exists k :: Named(menus, k) && NamesRoute(k, route) then NamesRoute(m, route)
       else (exists k :: NamedLeaf(menus, k)) ==> NamedLeaf(menus, m)
  }

  /** Labelled menus from a root of depth 0 down to `m`, child by child, one depth at a time. */
  ghost predicate WayDown(menus: seq<MenuNode>, path: seq<MenuNode>, m: MenuNode) {
    && path != [] && path[|path| - 1] == m && path[0].parentId == None && path[0].depth == 0
    && (forall k | 0 <= k < |path| :: Named(menus, path[k]))
    && (forall k | 0 <= k < |path| - 1 :: StepDown(path, k))
  }

  ghost predicate StepDown(path: seq<MenuNode>, k: nat)
    requires k + 1 < |path|
  {
    path[k + 1].parentId == Some(path[k].id) && path[k + 1].depth == path[k].depth + 1
  }

  /** A menu's chain: the labels on the way down to it, or its own label when there is no such way. */
  ghost predicate HasChain(menus: seq<MenuNode>, m: MenuNode, c: Chain) {
    && (forall path | WayDown(menus, path, m) :: c == Chain(Map(path, PlainName), true))
    && ((forall path :: !WayDown(menus, path, m)) ==> c == Chain([Strip(m.name)], false))
  }

  ghost predicate ChainOfPreferred(menus: seq<MenuNode>, route: string, m: MenuNode, c: Chain) {
    Preferred(menus, route, m) && HasChain(menus, m, c)
  }

  /** All preferred menus, and there are some, have one chain, and this is it; otherwise it is no chain. */
  ghost predicate Decided(menus: seq<MenuNode>, route: string, c: Chain) {
    || ((exists m :: Preferred(menus, route, m)) && forall m | Preferred(menus, route, m) :: HasChain(menus, m, c))
    || (c == NO_CHAIN && ((forall m :: !Preferred(menus, route, m)) || Contested(menus, route)))
  }

  ghost predicate Contested(menus: seq<MenuNode>, route: string) {
    exists m, k, d, e :: ChainOfPreferred(menus, route, m, d) && ChainOfPreferred(menus, route, k, e) && d != e
  }

  lemma PoolPreferred(menus: seq<MenuNode>, route: string)
    ensures forall m :: m in Pool(menus, route) <==> Preferred(menus, route, m)
  {
    var labeled := Filter(menus, Labeled);
    FilterMembers(menus, Labeled);
    FilterMembers(labeled, OnRoute(route));
    FilterMembers(labeled, ChildlessIn(labeled));
    var matching, leaves := Filter(labeled, OnRoute(route)), Filter(labeled, ChildlessIn(labeled));
    forall m ensures m in matching <==> Named(menus, m) && NamesRoute(m, route) {
    }
    forall m ensures m in leaves <==> NamedLeaf(menus, m) {
      LeafMeaning(menus, m);
    }
    SomeMember(matching);
    SomeMember(leaves);
  }

  lemma SomeMember<T(!new)>(s: seq<T>)
    ensures s != [] <==> exists x :: x in s
  {
    if s != [] { assert s[0] in s; }
  }

  lemma LeafMeaning(menus: seq<MenuNode>, m: MenuNode)
    ensures var labeled := Filter(menus, Labeled); m in labeled && !HasChild(labeled, m.id) <==> NamedLeaf(menus, m)
  {
    FilterMembers(menus, Labeled);
  }

  lemma PathMeaning(menus: seq<MenuNode>, path: seq<MenuNode>, m: MenuNode)
    requires IdsDistinct(menus)
    ensures RootPath(ById(Filter(menus, Labeled)), path, m) <==> WayDown(menus, path, m)
  {
    var labeled := Filter(menus, Labeled);
    PoolStored(menus, "");
    ByIdMeaning(labeled);
    FilterMembers(menus, Labeled);
    forall x ensures Stored(ById(labeled), x) <==> Named(menus, x) {
    }
    if WayDown(menus, path, m) {
      forall k | 0 <= k < |path| - 1 ensures OneDeeper(path, k) && ChildOfPrevious(path, k) { assert StepDown(path, k); }
    }
    if RootPath(ById(labeled), path, m) {
      forall k | 0 <= k < |path| - 1 ensures StepDown(path, k) { assert OneDeeper(path, k) && ChildOfPrevious(path, k); }
    }
  }

  lemma ChainMeaning(menus: seq<MenuNode>, m: MenuNode)
    requires IdsDistinct(menus) && Named(menus, m)
    ensures var byId := ById(Filter(menus, Labeled));
            Keyed(byId) && Stored(byId, m) && forall c :: HasChain(menus, m, c) <==> c == ChainFor(byId, m)
  {
    var byId := ById(Filter(menus, Labeled));
    PoolStored(menus, "");
    FilterMembers(menus, Labeled);
    ChainForMeaning(byId, m);
    forall path ensures RootPath(byId, path, m) <==> WayDown(menus, path, m) {
      PathMeaning(menus, path, m);
    }
  }

  lemma UnanimousDecides(menus: seq<MenuNode>, route: string, c: Chain, m: MenuNode)
    requires IdsDistinct(menus) && Unanimous(menus, route, c) && Preferred(menus, route, m)
    ensures HasChain(menus, m, c)
  {
    PoolPreferred(menus, route);
    ChainMeaning(menus, m);
  }

  lemma SplitContests(menus: seq<MenuNode>, route: string, m: MenuNode, k: MenuNode)
    requires IdsDistinct(menus) && Preferred(menus, route, m) && Preferred(menus, route, k)
    requires var byId := ById(Filter(menus, Labeled));
             && Keyed(byId) && Stored(byId, m) && Stored(byId, k) && ChainFor(byId, m) != ChainFor(byId, k)
    ensures Contested(menus, route)
  {
    var byId := ById(Filter(menus, Labeled));
    ChainMeaning(menus, m);
    ChainMeaning(menus, k);
    assert ChainOfPreferred(menus, route, m, ChainFor(byId, m)) && ChainOfPreferred(menus, route, k, ChainFor(byId, k));
  }

  lemma NobodyAgrees(menus: seq<MenuNode>, route: string, m: MenuNode)
    requires IdsDistinct(menus) && Preferred(menus, route, m) && forall d :: !Unanimous(menus, route, d)
    ensures Contested(menus, route)
  {
    var byId := ById(Filter(menus, Labeled));
    PoolPreferred(menus, route);
    PoolStored(menus, route);
    ChainMeaning(menus, m);
    assert !Unanimous(menus, route, ChainFor(byId, m));
    var k :| k in Pool(menus, route) && ChainFor(byId, k) != ChainFor(byId, m);
    SplitContests(menus, route, m, k);
  }

  lemma DerivedIsDecided(menus: seq<MenuNode>, route: string, c: Chain)
    requires IdsDistinct(menus) && DerivedFrom(menus, route, c)
    ensures Decided(menus, route, c)
  {
    PoolPreferred(menus, route);
    SomeMember(Pool(menus, route));
    if Unanimous(menus, route, c) {
      forall m | Preferred(menus, route, m) ensures HasChain(menus, m, c) {
        UnanimousDecides(menus, route, c, m);
      }
    } else if m :| Preferred(menus, route, m) {
      NobodyAgrees(menus, route, m);
    }
  }

  /** With a labelled menu on the page's route, a chain is that menu's chain and ends with its label; one
      such menu decides alone, and two with different chains leave none. */
  lemma RouteDecides(menus: seq<MenuNode>, route: string, c: Chain, m: MenuNode)
    requires IdsDistinct(menus) && Decided(menus, route, c) && Named(menus, m) && NamesRoute(m, route)
    ensures c.names != [] ==> HasChain(menus, m, c) && c.names[|c.names| - 1] == Strip(m.name)
    ensures (forall k | Named(menus, k) && NamesRoute(k, route) :: k == m) ==> HasChain(menus, m, c)
    ensures forall k, d, e | Named(menus, k) && NamesRoute(k, route) && HasChain(menus, m, d) && HasChain(menus, k, e) && d != e :: c == NO_CHAIN
  {
    assert Preferred(menus, route, m);
    PreferredDecides(menus, route, c, m);
    forall k, d, e | Named(menus, k) && NamesRoute(k, route) && HasChain(menus, m, d) && HasChain(menus, k, e) && d != e
      ensures c == NO_CHAIN
    {
      assert Preferred(menus, route, k);
      ChainMeaning(menus, m);
      ChainMeaning(menus, k);
    }
  }

  /** The same for any preferred menu. */
  lemma PreferredDecides(menus: seq<MenuNode>, route: string, c: Chain, m: MenuNode)
    requires IdsDistinct(menus) && Decided(menus, route, c) && Preferred(menus, route, m)
    ensures c.names != [] ==> HasChain(menus, m, c) && c.names[|c.names| - 1] == Strip(m.name)
    ensures (forall k | Preferred(menus, route, k) :: k == m) ==> HasChain(menus, m, c)
  {
    ChainMeaning(menus, m);
    ChainEndsWithName(ById(Filter(menus, Labeled)), m);
  }

  method DeriveMenuChain(menus: seq<MenuNode>, route: string) returns (c: Chain)
    requires IdsDistinct(menus)
    ensures DerivedFrom(menus, route, c) && Decided(menus, route, c)
  {
    PoolStored(menus, route);
    var labeled := Filter(menus, Labeled);
    if labeled == [] {
      DerivedIsDecided(menus, route, NO_CHAIN);
      return NO_CHAIN;
    }
    var byId := ById(labeled);
    var matching := Filter(labeled, OnRoute(route));
    var leaves := LeafCandidates(labeled);
    if leaves == [] {
      leaves := labeled;
    }
    var pool := if matching != [] then matching else leaves;
    var signatures := Signatures(pool, byId, matching == []);
    if |signatures| > 1 {
      forall d ensures !Unanimous(menus, route, d) {
        SplitPool(menus, route, matching == [], signatures, d);
      }
      DerivedIsDecided(menus, route, NO_CHAIN);
      return NO_CHAIN;
    }
    // A candidate's chain is never empty, so the first candidate decides.
    var ordered := Sort(pool, CandidateOrder(route));
    SortMembers(pool, CandidateOrder(route));
    assert ordered[0] in pool;
    OneSignature(menus, route, matching == [], signatures, ordered[0]);
    c := DeriveChainForCandidate(ordered[0], byId);
    DerivedIsDecided(menus, route, c);
  }

  // ---- Order independence ----

  lemma PermutedIndex(menus: seq<MenuNode>, other: seq<MenuNode>)
    requires multiset(menus) == multiset(other) && IdsDistinct(menus)
    ensures IdsDistinct(other) && ById(menus) == ById(other)
  {
    PermutedIds(menus, other);
    ByIdMeaning(menus);
    ByIdMeaning(other);
  }

  lemma {:induction false} PermutedFilter(menus: seq<MenuNode>, other: seq<MenuNode>)
    requires multiset(menus) == multiset(other)
    ensures multiset(Filter(menus, Labeled)) == multiset(Filter(other, Labeled))
  {
    forall m ensures multiset(Filter(menus, Labeled))[m] == multiset(Filter(other, Labeled))[m] {
      FilterCount(menus, Labeled, m);
      FilterCount(other, Labeled, m);
    }
  }

  lemma PermutedLabeled(menus: seq<MenuNode>, other: seq<MenuNode>)
    requires multiset(menus) == multiset(other) && IdsDistinct(menus)
    ensures ById(Filter(menus, Labeled)) == ById(Filter(other, Labeled))
    ensures forall m :: m in Filter(menus, Labeled) <==> m in Filter(other, Labeled)
  {
    FilterIdsDistinct(menus);
    PermutedFilter(menus, other);
    PermutedIndex(Filter(menus, Labeled), Filter(other, Labeled));
    PermutationMembers(Filter(menus, Labeled), Filter(other, Labeled));
  }

  lemma SameChildren(a: seq<MenuNode>, b: seq<MenuNode>, id: Id)
    requires forall m :: m in a <==> m in b
    ensures HasChild(a, id) <==> HasChild(b, id)
  {
    if HasChild(a, id) { var m :| m in a && m.parentId == Some(id); assert m in b; }
    if HasChild(b, id) { var m :| m in b && m.parentId == Some(id); assert m in a; }
  }

  lemma SamePool(a: seq<MenuNode>, b: seq<MenuNode>, route: string)
    requires forall m :: m in a <==> m in b
    ensures forall m :: m in PoolOf(a, route) <==> m in PoolOf(b, route)
  {
    SameFilter(a, b, OnRoute(route), OnRoute(route));
    forall m: MenuNode ensures ChildlessIn(a)(m) <==> ChildlessIn(b)(m) {
      SameChildren(a, b, m.id);
    }
    SameFilter(a, b, ChildlessIn(a), ChildlessIn(b));
  }

  lemma SameFilter(a: seq<MenuNode>, b: seq<MenuNode>, p: MenuNode -> bool, q: MenuNode -> bool)
    requires forall m :: m in a <==> m in b
    requires forall m :: p(m) <==> q(m)
    ensures forall m :: m in Filter(a, p) <==> m in Filter(b, q)
    ensures Filter(a, p) == [] <==> Filter(b, q) == []
  {
    FilterMembers(a, p);
    FilterMembers(b, q);
    if Filter(a, p) != [] { assert Filter(a, p)[0] in Filter(b, q); }
    if Filter(b, q) != [] { assert Filter(b, q)[0] in Filter(a, p); }
  }

  lemma PermutedUnanimous(menus: seq<MenuNode>, other: seq<MenuNode>, route: string, c: Chain)
    requires multiset(menus) == multiset(other) && IdsDistinct(menus) && IdsDistinct(other)
    ensures Unanimous(menus, route, c) <==> Unanimous(other, route, c)
  {
    PermutedLabeled(menus, other);
    SamePool(Filter(menus, Labeled), Filter(other, Labeled), route);
    var a, b := Pool(menus, route), Pool(other, route);
    if a != [] { assert a[0] in b; }
    if b != [] { assert b[0] in a; }
  }

  /** Whatever is derived from the same menus in another order is the same chain. */
  lemma OrderFree(menus: seq<MenuNode>, other: seq<MenuNode>, route: string, c: Chain, d: Chain)
    requires multiset(menus) == multiset(other) && IdsDistinct(menus) && IdsDistinct(other)
    requires DerivedFrom(menus, route, c) && DerivedFrom(other, route, d)
    ensures c == d
  {
    PermutedUnanimous(menus, other, route, c);
    PermutedUnanimous(menus, other, route, d);
    if Unanimous(menus, route, c) && Unanimous(menus, route, d) {
      assert Pool(menus, route)[0] in Pool(menus, route);
    }
  }

  // ---- Aliases ----

  datatype AliasKind = PageTitle | MenuLeaf | MenuChain

  datatype AliasDraft = AliasDraft(kind: AliasKind, text: string, leaf: Option<string>, display: Option<string>, complete: bool)

  function Format(names: seq<string>): Option<string> {
    if names == [] then None else Some(Join(names, " -> "))
  }

  /** The labels in order with an arrow between any two. */
  lemma FormatMeaning(names: seq<string>, last: string)
    ensures Format([]) == None && Format([last]) == Some(last)
    ensures names != [] ==> Format(names).Some? && Format(names + [last]) == Some(Format(names).value + " -> " + last)
  {
    JoinSnoc(names, last, " -> ");
  }

  function LeafName(names: seq<string>): Option<string> {
    if names == [] then None else Some(names[|names| - 1])
  }

  method DedupeDrafts(drafts: seq<AliasDraft>) returns (r: seq<AliasDraft>)
    ensures r == Dedupe(drafts)
  {
    r := [];
    var seen: set<AliasDraft> := {};
    for i := 0 to |drafts|
      invariant r == Dedupe(drafts[..i]) && seen == ToSet(r)
    {
      TakeTake(drafts, i);
      if drafts[i] !in seen {
        seen := seen + {drafts[i]};
        r := r + [drafts[i]];
      }
    }
    assert drafts[..|drafts|] == drafts;
  }

  /** Which aliases a page gets, decided by the chain its menus agree on: one for a title, one for a leaf, one
      for the whole chain when it is complete; all show the same chain. */
  ghost predicate AliasesFit(drafts: seq<AliasDraft>, title: Option<string>, c: Chain) {
    && Distinct(drafts)
    && (forall d | d in drafts :: d.leaf == LeafName(c.names) && d.display == Format(c.names) && d.complete == c.complete)
    && (forall d | d in drafts :: d.kind == PageTitle ==> Some(d.text) == title)
    && (forall d | d in drafts :: d.kind == MenuLeaf ==> Some(d.text) == LeafName(c.names))
    && (forall d | d in drafts :: d.kind == MenuChain ==> Some(d.text) == Format(c.names))
    && ((exists d :: d in drafts && d.kind == PageTitle) <==> title.GetOr("") != "")
    && ((exists d :: d in drafts && d.kind == MenuLeaf) <==> c.names != [])
    && ((exists d :: d in drafts && d.kind == MenuChain) <==> c.complete && Format(c.names).GetOr("") != "")
  }

  function Drafts(title: Option<string>, c: Chain): seq<AliasDraft> {
    var text, leaf := Format(c.names), LeafName(c.names);
    (if title.GetOr("") != "" then [AliasDraft(PageTitle, title.value, leaf, text, c.complete)] else [])
    + (if c.names != [] then [AliasDraft(MenuLeaf, leaf.value, leaf, text, c.complete)] else [])
    + (if c.complete && text.GetOr("") != "" then [AliasDraft(MenuChain, text.value, leaf, text, true)] else [])
  }

  /** The drafts are the aliases of the chain that the preferred menus decide on. */
  ghost predicate AliasesDecided(topology: seq<MenuNode>, route: string, title: Option<string>, drafts: seq<AliasDraft>) {
    exists c :: Decided(topology, route, c) && AliasesFit(drafts, title, c)
  }

  lemma DraftsDecided(topology: seq<MenuNode>, route: string, title: Option<string>, c: Chain)
    requires Decided(topology, route, c)
    ensures Distinct(Drafts(title, c)) && AliasesDecided(topology, route, title, Drafts(title, c))
  {
    DraftsFit(title, c);
  }

  method DraftAliases(title: Option<string>, chain: Chain) returns (drafts: seq<AliasDraft>)
    ensures drafts == Drafts(title, chain)
  {
    var text, leaf := Format(chain.names), LeafName(chain.names);
    drafts := [];
    if title.GetOr("") != "" {
      drafts := drafts + [AliasDraft(PageTitle, title.value, leaf, text, chain.complete)];
    }
    if chain.names != [] {
      drafts := drafts + [AliasDraft(MenuLeaf, leaf.value, leaf, text, chain.complete)];
    }
    if chain.complete && text.GetOr("") != "" {
      drafts := drafts + [AliasDraft(MenuChain, text.value, leaf, text, true)];
    }
    assert drafts == Drafts(title, chain);
    DraftsFit(title, chain);
    DedupeDistinct(drafts);
    drafts := DedupeDrafts(drafts);
  }

  method BuildNavigationAliases(title: Option<string>, route: string, topology: seq<MenuNode>) returns (drafts: seq<AliasDraft>)
    requires IdsDistinct(topology)
    ensures exists c :: DerivedFrom(topology, route, c) && drafts == Drafts(title, c)
    ensures AliasesDecided(topology, route, title, drafts)
  {
    var chain := DeriveMenuChain(topology, route);
    drafts := DraftAliases(title, chain);
    DraftsDecided(topology, route, title, chain);
  }

  lemma DraftsFit(title: Option<string>, c: Chain)
    ensures AliasesFit(Drafts(title, c), title, c)
  {
    var ds := Drafts(title, c);
    if title.GetOr("") != "" { assert ds[0] in ds; }
    if c.names != [] { assert ds[if title.GetOr("") != "" then 1 else 0] in ds; }
    if c.complete && Format(c.names).GetOr("") != "" { assert ds[|ds| - 1] in ds; }
  }

  // ---- From stored menu rows to a page's chain ----

  /** The chain of a page does not depend on the order in which the menu rows are read. */
  lemma PageChainOrderFree(menus: seq<MenuNode>, other: seq<MenuNode>, pageId: Id, route: string, c: Chain, d: Chain)
    requires multiset(menus) == multiset(other) && IdsDistinct(menus)
    requires Indexed(ById(menus), menus) && Indexed(ById(other), other)
    requires IdsDistinct(Topology(ById(menus), menus, pageId)) && DerivedFrom(Topology(ById(menus), menus, pageId), route, c)
    requires IdsDistinct(Topology(ById(other), other, pageId)) && DerivedFrom(Topology(ById(other), other, pageId), route, d)
    ensures c == d
  {
    PermutedIndex(menus, other);
    PermutationMembers(menus, other);
    var s, t := Topology(ById(menus), menus, pageId), Topology(ById(other), other, pageId);
    TopologyClosure(ById(menus), menus, pageId);
    TopologyClosure(ById(other), other, pageId);
    DistinctPermutes(s, t);
    OrderFree(s, t, route, c, d);
  }
}
