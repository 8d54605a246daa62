/** Walking up the menu tree and the topology built from it: `asset_compiler/service.py`. */
module MenuForest {
  import opened Basics
  import opened Corpus
  import opened CrawlAssembly
  import opened CrawlPersistence

  type Index = map<Id, MenuNode>

  /** Every entry sits under its own identifier. */
  predicate Keyed(byId: Index) {
    forall id | id in byId :: byId[id].id == id
  }

  /** `{menu.id: menu for menu in menus}`. */
  function ById(menus: seq<MenuNode>): Index {
    if menus == [] then map[] else ById(menus[..|menus| - 1])[menus[|menus| - 1].id := menus[|menus| - 1]]
  }

  ghost predicate IdsDistinct(menus: seq<MenuNode>) {
    forall i, j | 0 <= i < j < |menus| :: menus[i].id != menus[j].id
  }

  lemma {:induction false} ByIdMeaning(menus: seq<MenuNode>)
    ensures Keyed(ById(menus)) && forall id | id in ById(menus) :: ById(menus)[id] in menus
    ensures forall m | m in menus :: m.id in ById(menus)
    ensures IdsDistinct(menus) ==> forall m | m in menus :: ById(menus)[m.id] == m
  {
    if menus != [] {
      var front, last := menus[..|menus| - 1], menus[|menus| - 1];
      ByIdMeaning(front);
      SnocSplit(menus);
      if IdsDistinct(menus) {
        forall m | m in front ensures m.id != last.id {
          var i :| 0 <= i < |front| && front[i] == m;
          assert menus[i] == m;
        }
      }
    }
  }

  // ---- Walking up ----

  /** From a menu upwards until there is no parent, the parent is unknown, or it was visited before. */
  function Lineage(byId: Index, visited: set<Id>, m: MenuNode): seq<MenuNode>
    requires Keyed(byId) && m.id in byId.Keys - visited
    decreases byId.Keys - visited
  {
    var seen := visited + {m.id};
    [m] + if m.parentId.Some? && m.parentId.value in byId.Keys - seen then Lineage(byId, seen, byId[m.parentId.value]) else []
  }

  ghost predicate Linked(s: seq<MenuNode>, k: nat)
    requires k + 1 < |s|
  {
    s[k].parentId == Some(s[k + 1].id)
  }

  predicate Stored(byId: Index, m: MenuNode) {
    m.id in byId && byId[m.id] == m
  }

  /** Following parent links from one menu to another, without any guard. */
  ghost predicate ClimbsTo(byId: Index, path: seq<MenuNode>, from: MenuNode, to: MenuNode) {
    && path != [] && path[0] == from && path[|path| - 1] == to
    && (forall k | 0 <= k < |path| - 1 :: Linked(path, k))
    && (forall k | 0 < k < |path| :: Stored(byId, path[k]))
  }

  ghost predicate Above(byId: Index, from: MenuNode, to: MenuNode) {
    exists path :: ClimbsTo(byId, path, from, to)
  }

  /** The walk follows parent links and repeats nothing. */
  lemma {:induction false} LineageClimbs(byId: Index, visited: set<Id>, m: MenuNode)
    requires Keyed(byId) && m.id in byId.Keys - visited
    ensures var up := Lineage(byId, visited, m);
            && up != [] && up[0] == m
            && (forall k | 0 <= k < |up| - 1 :: Linked(up, k))
            && (forall k | 0 < k < |up| :: Stored(byId, up[k]))
            && (forall k | 0 <= k < |up| :: up[k].id !in visited)
            && IdsDistinct(up)
    decreases byId.Keys - visited
  {
    var seen := visited + {m.id};
    if m.parentId.Some? && m.parentId.value in byId.Keys - seen {
      LineageClimbs(byId, seen, byId[m.parentId.value]);
      var rest := Lineage(byId, seen, byId[m.parentId.value]);
      var up := [m] + rest;
      assert Lineage(byId, visited, m) == up;
      forall k | 0 <= k < |up| - 1 ensures Linked(up, k) {
        if k > 0 { assert Linked(rest, k - 1); }
      }
    }
  }

  /** The walk misses nothing: the parent of each menu on it is on it too, or had been visited before. */
  lemma {:induction false} LineageClosed(byId: Index, visited: set<Id>, m: MenuNode, n: MenuNode)
    requires Keyed(byId) && m.id in byId.Keys - visited && byId[m.id] == m
    requires n in Lineage(byId, visited, m) && n.parentId.Some? && n.parentId.value in byId
    ensures byId[n.parentId.value] in Lineage(byId, visited, m) || n.parentId.value in visited
    decreases byId.Keys - visited
  {
    var seen := visited + {m.id};
    if m.parentId.Some? && m.parentId.value in byId.Keys - seen {
      var rest := Lineage(byId, seen, byId[m.parentId.value]);
      if n in rest {
        LineageClosed(byId, seen, byId[m.parentId.value], n);
      } else {
        assert n == m;
        LineageClimbs(byId, seen, byId[m.parentId.value]);
        assert rest[0] in rest;
      }
    }
  }

  /** On any parent graph, cyclic or not, the walk visits exactly what can be reached upwards. */
  lemma LineageExact(byId: Index, m: MenuNode, n: MenuNode)
    requires Keyed(byId) && Stored(byId, m)
    ensures n in Lineage(byId, {}, m) <==> Above(byId, m, n)
  {
    var up := Lineage(byId, {}, m);
    LineageClimbs(byId, {}, m);
    if n in up {
      var k :| 0 <= k < |up| && up[k] == n;
      var path := up[..k + 1];
      forall i | 0 <= i < |path| - 1 ensures Linked(path, i) { assert Linked(up, i); }
      assert ClimbsTo(byId, path, m, n);
    }
    if Above(byId, m, n) {
      var path :| ClimbsTo(byId, path, m, n);
      PathInLineage(byId, m, path, |path| - 1);
    }
  }

  lemma {:induction false} PathInLineage(byId: Index, m: MenuNode, path: seq<MenuNode>, k: nat)
    requires Keyed(byId) && Stored(byId, m)
    requires k < |path| && ClimbsTo(byId, path, m, path[|path| - 1])
    ensures path[k] in Lineage(byId, {}, m)
  {
    if k > 0 {
      PathInLineage(byId, m, path, k - 1);
      assert Linked(path, k - 1) && Stored(byId, path[k]);
      LineageClosed(byId, {}, m, path[k - 1]);
    } else {
      LineageClimbs(byId, {}, m);
    }
  }

  // ---- Forests ----

  /** Each parent exists and ranks below its child. */
  ghost predicate Forest(menus: seq<MenuNode>, rank: map<Id, nat>) {
    && IdsDistinct(menus)
    && (forall m | m in menus :: m.id in rank)
    && (forall m | m in menus && m.parentId.Some? :: HasRanked(menus, rank, m.parentId.value, rank[m.id]))
  }

  ghost predicate HasRanked(menus: seq<MenuNode>, rank: map<Id, nat>, id: Id, below: nat) {
    exists p :: p in menus && p.id == id && id in rank && rank[id] < below
  }

  /** What one crawl writes is a forest, ranked by order of creation, and stays one in any row order. */
  lemma PersistedForest(sid: Id, menus: seq<MenuCandidate>, ids: seq<Id>, pageMap: map<string, Id>, rows: seq<MenuNode>)
    requires |ids| == |menus| && Distinct(ids)
    requires multiset(rows) == multiset(seq(|menus|, i requires 0 <= i < |menus| => MenuRow(sid, menus, ids, pageMap, i)))
    ensures exists rank :: Forest(rows, rank)
  {
    var made := seq(|menus|, i requires 0 <= i < |menus| => MenuRow(sid, menus, ids, pageMap, i));
    var rank := RankOf(ids);
    RankOfMeaning(ids);
    assert forall i | 0 <= i < |made| :: made[i].id == ids[i] && rank[ids[i]] == i;
    PermutedIds(made, rows);
    forall m | m in rows ensures m.id in rank && (m.parentId.Some? ==> HasRanked(rows, rank, m.parentId.value, rank[m.id])) {
      assert m in made;
      var i :| 0 <= i < |made| && made[i] == m;
      ParentEarlier(menus, i);
      if m.parentId.Some? {
        var j := ParentOf(menus, i).value;
        assert made[j] in made;
        assert made[j] in rows && made[j].id == m.parentId.value;
      }
    }
    assert Forest(rows, rank);
  }

  function RankOf(ids: seq<Id>): map<Id, nat> {
    if ids == [] then map[] else RankOf(ids[..|ids| - 1])[ids[|ids| - 1] := |ids| - 1]
  }

  lemma {:induction false} RankOfMeaning(ids: seq<Id>)
    requires Distinct(ids)
    ensures forall i | 0 <= i < |ids| :: ids[i] in RankOf(ids) && RankOf(ids)[ids[i]] == i
  {
    if ids != [] {
      RankOfMeaning(ids[..|ids| - 1]);
      assert forall i | 0 <= i < |ids| - 1 :: ids[..|ids| - 1][i] == ids[i];
    }
  }

  /** Reordering rows keeps members and distinct identifiers. */
  lemma PermutedIds(a: seq<MenuNode>, b: seq<MenuNode>)
    requires multiset(a) == multiset(b) && IdsDistinct(a)
    ensures IdsDistinct(b) && forall m :: m in a <==> m in b
  {
    forall m ensures m in a <==> m in b {
      assert m in a <==> m in multiset(a);
      assert m in b <==> m in multiset(b);
    }
    forall i, j | 0 <= i < j < |b| ensures b[i].id != b[j].id {
      if b[i].id == b[j].id {
        assert b[i] in a && b[j] in a;
        var k :| 0 <= k < |a| && a[k] == b[i];
        var l :| 0 <= l < |a| && a[l] == b[j];
        assert k == l;
        TwiceCounted(b, i, j);
        OnceCounted(a, k);
      }
    }
  }

  lemma TwiceCounted(s: seq<MenuNode>, i: nat, j: nat)
    requires i < j < |s| && s[i] == s[j]
    ensures multiset(s)[s[i]] >= 2
  {
    assert s == s[..i] + [s[i]] + s[i + 1..j] + [s[j]] + s[j + 1..];
  }

  lemma OnceCounted(s: seq<MenuNode>, k: nat)
    requires k < |s| && IdsDistinct(s)
    ensures multiset(s)[s[k]] == 1
  {
    assert s == s[..k] + [s[k]] + s[k + 1..];
    assert s[k] !in s[..k] && s[k] !in s[k + 1..];
  }

  /** In a forest the walk ends at a menu without a parent: its cycle guard never fires. */
  lemma {:induction false} ForestWalkEndsAtRoot(menus: seq<MenuNode>, rank: map<Id, nat>, visited: set<Id>, m: MenuNode)
    requires Forest(menus, rank) && m in menus && Keyed(ById(menus)) && m.id in ById(menus).Keys - visited
    requires forall id | id in visited :: id in rank && rank[id] > rank[m.id]
    ensures var up := Lineage(ById(menus), visited, m); up[|up| - 1].parentId.None?
    decreases rank[m.id]
  {
    ByIdMeaning(menus);
    if m.parentId.Some? {
      var p :| p in menus && p.id == m.parentId.value && p.id in rank && rank[p.id] < rank[m.id];
      ForestWalkEndsAtRoot(menus, rank, visited + {m.id}, p);
    }
  }

  // ---- Topology of a page ----

  function Reversed(s: seq<MenuNode>): (r: seq<MenuNode>)
    ensures |r| == |s| && forall k | 0 <= k < |s| :: r[k] == s[|s| - 1 - k]
  {
    seq(|s|, k requires 0 <= k < |s| => s[|s| - 1 - k])
  }

  ghost predicate Indexed(byId: Index, menus: seq<MenuNode>) {
    Keyed(byId) && forall m | m in menus :: Stored(byId, m)
  }

  /** Root-first lineages of the menus, one after the other. */
  function Chains(byId: Index, menus: seq<MenuNode>): seq<MenuNode>
    requires Indexed(byId, menus)
  {
    if menus == [] then []
    else
      var last := menus[|menus| - 1];
      assert Stored(byId, last);
      Chains(byId, menus[..|menus| - 1]) + Reversed(Lineage(byId, {}, last))
  }

  function Topology(byId: Index, menus: seq<MenuNode>, pageId: Id): seq<MenuNode>
    requires Indexed(byId, menus)
  {
    FilterMembers(menus, OnPage(pageId));
    Dedupe(Chains(byId, Filter(menus, OnPage(pageId))))
  }

  function RestOf(byId: Index, visited: set<Id>, current: Option<MenuNode>): seq<MenuNode>
    requires Keyed(byId) && (current.Some? ==> current.value.id in byId)
  {
    if current.Some? && current.value.id !in visited then Lineage(byId, visited, current.value) else []
  }

  method WalkUp(menu: MenuNode, byId: Index) returns (lineage: seq<MenuNode>)
    requires Keyed(byId) && Stored(byId, menu)
    ensures lineage == Lineage(byId, {}, menu)
  {
    var visited: set<Id> := {};
    var current := Some(menu);
    lineage := [];
    while current.Some? && current.value.id !in visited
      invariant current.Some? ==> Stored(byId, current.value)
      invariant Lineage(byId, {}, menu) == lineage + RestOf(byId, visited, current)
      decreases byId.Keys - visited, current.Some?
    {
      var node := current.value;
      lineage := lineage + [node];
      visited := visited + {node.id};
      current := if node.parentId.Some? && node.parentId.value in byId then Some(byId[node.parentId.value]) else None;
    }
  }

  method AppendMenuWithAncestors(menu: MenuNode, byId: Index, topology: seq<MenuNode>, seenIds: set<Id>)
    returns (topology': seq<MenuNode>, seenIds': set<Id>)
    requires Keyed(byId) && Stored(byId, menu)
    requires seenIds == IdsOf(topology) && Distinct(topology) && forall m | m in topology :: Stored(byId, m)
    ensures topology' == Dedupe(topology + Reversed(Lineage(byId, {}, menu)))
    ensures seenIds' == IdsOf(topology')
  {
    var lineage := WalkUp(menu, byId);
    LineageClimbs(byId, {}, menu);
    var reversed := Reversed(lineage);
    topology', seenIds' := AppendNew(byId, reversed, topology, seenIds);
  }

  method AppendNew(ghost byId: Index, nodes: seq<MenuNode>, topology: seq<MenuNode>, seenIds: set<Id>)
    returns (topology': seq<MenuNode>, seenIds': set<Id>)
    requires seenIds == IdsOf(topology) && Distinct(topology)
    requires (forall m | m in topology :: Stored(byId, m)) && forall i | 0 <= i < |nodes| :: Stored(byId, nodes[i])
    ensures topology' == Dedupe(topology + nodes) && seenIds' == IdsOf(topology')
  {
    topology', seenIds' := topology, seenIds;
    DedupeDistinct(topology);
    assert topology + nodes[..0] == topology;
    for i := 0 to |nodes|
      invariant topology' == Dedupe(topology + nodes[..i]) && seenIds' == IdsOf(topology')
      invariant forall m | m in topology' :: Stored(byId, m)
    {
      DedupeSnoc(topology, nodes, i);
      SeenById(byId, topology', nodes[i]);
      if nodes[i].id !in seenIds' {
        seenIds' := seenIds' + {nodes[i].id};
        topology' := topology' + [nodes[i]];
      }
    }
    assert nodes[..|nodes|] == nodes;
  }

  lemma DedupeSnoc(a: seq<MenuNode>, b: seq<MenuNode>, i: nat)
    requires i < |b|
    ensures var before := Dedupe(a + b[..i]);
            Dedupe(a + b[..i + 1]) == if b[i] in before then before else before + [b[i]]
  {
    assert (a + b[..i + 1])[..|a| + i] == a + b[..i];
  }

  /** Identifiers stand for rows. */
  lemma SeenById(byId: Index, topology: seq<MenuNode>, m: MenuNode)
    requires Stored(byId, m) && forall n | n in topology :: Stored(byId, n)
    ensures m.id in IdsOf(topology) <==> m in topology
    ensures IdsOf(topology + [m]) == IdsOf(topology) + {m.id}
  {
    if m.id in IdsOf(topology) {
      var n :| n in topology && n.id == m.id;
      assert Stored(byId, n);
    }
  }

  function IdsOf(menus: seq<MenuNode>): set<Id> {
    set m | m in menus :: m.id
  }

  method BuildNavigationMenuTopology(pageId: Id, menus: seq<MenuNode>, byId: Index) returns (topology: seq<MenuNode>)
    requires Indexed(byId, menus)
    ensures topology == Topology(byId, menus, pageId)
  {
    topology := [];
    var seenIds: set<Id> := {};
    FilterMembers(menus, OnPage(pageId));
    var pageMenus := Filter(menus, OnPage(pageId));
    for i := 0 to |pageMenus|
      invariant Indexed(byId, pageMenus[..i])
      invariant topology == Dedupe(Chains(byId, pageMenus[..i])) && seenIds == IdsOf(topology)
      invariant forall m | m in topology :: Stored(byId, m)
    {
      TakeTake(pageMenus, i);
      ghost var before := Chains(byId, pageMenus[..i]);
      assert pageMenus[i] in menus && Stored(byId, pageMenus[i]);
      DedupeMembers(before);
      topology, seenIds := AppendMenuWithAncestors(pageMenus[i], byId, topology, seenIds);
      DedupeAppend(before, Reversed(Lineage(byId, {}, pageMenus[i])));
      ChainsIndexed(byId, pageMenus[..i + 1]);
      DedupeMembers(Chains(byId, pageMenus[..i + 1]));
    }
    assert pageMenus[..|pageMenus|] == pageMenus;
  }

  lemma {:induction false} ChainsIndexed(byId: Index, menus: seq<MenuNode>)
    requires Indexed(byId, menus)
    ensures forall m | m in Chains(byId, menus) :: Stored(byId, m)
    ensures forall n :: n in Chains(byId, menus) <==> exists m :: m in menus && Above(byId, m, n)
  {
    if menus != [] {
      var front, last := menus[..|menus| - 1], menus[|menus| - 1];
      ChainsIndexed(byId, front);
      assert last in menus && Stored(byId, last);
      LineageClimbs(byId, {}, last);
      SnocSplit(menus);
      var up := Lineage(byId, {}, last);
      forall n ensures n in Reversed(up) <==> Above(byId, last, n) {
        LineageExact(byId, last, n);
        if n in up {
          var k :| 0 <= k < |up| && up[k] == n;
          assert Reversed(up)[|up| - 1 - k] == n;
        }
      }
    }
  }

  /** A page's topology is exactly its menus and everything above them, each once, on any parent graph. */
  lemma TopologyClosure(byId: Index, menus: seq<MenuNode>, pageId: Id)
    requires Indexed(byId, menus)
    ensures var t := Topology(byId, menus, pageId);
            && IdsDistinct(t)
            && forall n :: n in t <==> exists m :: m in menus && m.pageId == Some(pageId) && Above(byId, m, n)
  {
    var mine := Filter(menus, OnPage(pageId));
    FilterMembers(menus, OnPage(pageId));
    ChainsIndexed(byId, mine);
    DedupeMembers(Chains(byId, mine));
    var t := Topology(byId, menus, pageId);
    forall i, j | 0 <= i < j < |t| ensures t[i].id != t[j].id {
      assert t[i] in Chains(byId, mine) && t[j] in Chains(byId, mine);
      assert Stored(byId, t[i]) && Stored(byId, t[j]);
    }
    forall n ensures n in Topology(byId, menus, pageId) <==> exists m :: m in menus && m.pageId == Some(pageId) && Above(byId, m, n) {
      if exists m :: m in menus && m.pageId == Some(pageId) && Above(byId, m, n) {
        var m :| m in menus && m.pageId == Some(pageId) && Above(byId, m, n);
        assert m in mine;
      }
    }
  }

  // ---- Parents first ----

  ghost predicate HasBefore(s: seq<MenuNode>, i: nat, id: Id)
    requires i <= |s|
  {
    exists j :: 0 <= j < i && s[j].id == id
  }

  ghost predicate ParentsFirst(s: seq<MenuNode>) {
    forall i | 0 <= i < |s| && s[i].parentId.Some? :: HasBefore(s, i, s[i].parentId.value)
  }

  lemma {:induction false} DedupeParentsFirst(s: seq<MenuNode>)
    requires ParentsFirst(s)
    ensures ParentsFirst(Dedupe(s))
  {
    if s != [] {
      var front, last := s[..|s| - 1], s[|s| - 1];
      assert forall i | 0 <= i < |front| :: front[i] == s[i];
      forall i | 0 <= i < |front| && front[i].parentId.Some? ensures HasBefore(front, i, front[i].parentId.value) {
        assert HasBefore(s, i, s[i].parentId.value);
        var j :| 0 <= j < i && s[j].id == s[i].parentId.value;
        assert front[j].id == front[i].parentId.value;
      }
      DedupeParentsFirst(front);
      DedupeMembers(front);
      var d := Dedupe(front);
      if last !in d {
        var r := d + [last];
        forall i | 0 <= i < |r| && r[i].parentId.Some? ensures HasBefore(r, i, r[i].parentId.value) {
          if i < |d| {
            assert HasBefore(d, i, d[i].parentId.value);
            var j :| 0 <= j < i && d[j].id == d[i].parentId.value;
            assert r[j].id == r[i].parentId.value;
          } else {
            assert HasBefore(s, |front|, last.parentId.value);
            var j :| 0 <= j < |front| && s[j].id == last.parentId.value;
            assert front[j] in front;
            var k :| 0 <= k < |d| && d[k] == front[j];
            assert r[k].id == last.parentId.value;
          }
        }
      }
    }
  }

  lemma {:induction false} ChainsParentsFirst(menus: seq<MenuNode>, rank: map<Id, nat>, some: seq<MenuNode>)
    requires Forest(menus, rank) && Indexed(ById(menus), menus) && Indexed(ById(menus), some)
    requires forall m | m in some :: m in menus
    ensures ParentsFirst(Chains(ById(menus), some))
  {
    if some != [] {
      var front, last := some[..|some| - 1], some[|some| - 1];
      var byId := ById(menus);
      SnocSplit(some);
      assert last in some && Stored(byId, last);
      ChainsParentsFirst(menus, rank, front);
      LineageClimbs(byId, {}, last);
      ForestWalkEndsAtRoot(menus, rank, {}, last);
      var up := Lineage(byId, {}, last);
      ReversedParentsFirst(up);
      ParentsFirstAppend(Chains(byId, front), Reversed(up));
    }
  }

  lemma ReversedParentsFirst(up: seq<MenuNode>)
    requires up != [] && up[|up| - 1].parentId.None? && forall k | 0 <= k < |up| - 1 :: Linked(up, k)
    ensures ParentsFirst(Reversed(up))
  {
    var s := Reversed(up);
    forall i | 0 <= i < |s| && s[i].parentId.Some? ensures HasBefore(s, i, s[i].parentId.value) {
      var k := |up| - 1 - i;
      assert k < |up| - 1 && Linked(up, k);
      assert s[i - 1] == up[k + 1];
    }
  }

  lemma ParentsFirstAppend(a: seq<MenuNode>, b: seq<MenuNode>)
    requires ParentsFirst(a) && ParentsFirst(b)
    ensures ParentsFirst(a + b)
  {
    var s := a + b;
    forall i | 0 <= i < |s| && s[i].parentId.Some? ensures HasBefore(s, i, s[i].parentId.value) {
      if i < |a| {
        assert HasBefore(a, i, a[i].parentId.value);
        var j :| 0 <= j < i && a[j].id == a[i].parentId.value;
        assert s[j].id == s[i].parentId.value;
      } else {
        assert HasBefore(b, i - |a|, b[i - |a|].parentId.value);
        var j :| 0 <= j < i - |a| && b[j].id == b[i - |a|].parentId.value;
        assert s[|a| + j].id == s[i].parentId.value;
      }
    }
  }

  /** For the menus of one crawl, in whatever order they are read: every parent precedes its child. */
  lemma TopologyParentsFirst(menus: seq<MenuNode>, rank: map<Id, nat>, pageId: Id)
    requires Forest(menus, rank)
    ensures Indexed(ById(menus), menus) && ParentsFirst(Topology(ById(menus), menus, pageId))
  {
    ByIdMeaning(menus);
    FilterMembers(menus, OnPage(pageId));
    ChainsParentsFirst(menus, rank, Filter(menus, OnPage(pageId)));
    DedupeParentsFirst(Chains(ById(menus), Filter(menus, OnPage(pageId))));
  }
}
