/** Stable sorting by a comparison, and the fact that makes sorted lists canonical forms. */
module Sorting {
  import opened Basics

  ghost predicate TotalPreorder<T(!new)>(le: (T, T) -> bool) {
    && (forall a, b :: le(a, b) || le(b, a))
    && (forall a, b, c :: le(a, b) && le(b, c) ==> le(a, c))
  }

  ghost predicate TotalOrder<T(!new)>(le: (T, T) -> bool) {
    TotalPreorder(le) && forall a, b :: le(a, b) && le(b, a) ==> a == b
  }

  ghost predicate Sorted<T>(s: seq<T>, le: (T, T) -> bool) {
    forall i, j | 0 <= i < j < |s| :: le(s[i], s[j])
  }

  /** Entries that compare equal both ways are the same entry. */
  ghost predicate AntisymmetricOn<T>(s: seq<T>, le: (T, T) -> bool) {
    forall a, b | a in s && b in s :: le(a, b) && le(b, a) ==> a == b
  }

  function Insert<T>(x: T, s: seq<T>, le: (T, T) -> bool): seq<T> {
    if s == [] || le(x, s[0]) then [x] + s else [s[0]] + Insert(x, s[1..], le)
  }

  /** Python's `sorted`: stable, an entry stays before later entries that compare equal. */
  function Sort<T>(s: seq<T>, le: (T, T) -> bool): seq<T> {
    if s == [] then [] else Insert(s[0], Sort(s[1..], le), le)
  }

  lemma SortOne<T>(a: T, le: (T, T) -> bool)
    ensures Sort([a], le) == [a]
  {
    assert [a][1..] == [];
  }

  lemma SortTwo<T>(a: T, b: T, le: (T, T) -> bool)
    requires le(a, b)
    ensures Sort([a, b], le) == [a, b]
  {
    assert [a, b][1..] == [b];
    SortOne(b, le);
    assert Insert(a, [b], le) == [a] + [b];
  }

  lemma {:induction false} InsertPermutes<T>(x: T, s: seq<T>, le: (T, T) -> bool)
    ensures multiset(Insert(x, s, le)) == multiset(s) + multiset{x}
  {
    if s != [] && !le(x, s[0]) {
      InsertPermutes(x, s[1..], le);
      assert s == [s[0]] + s[1..];
    }
  }

  lemma {:induction false} InsertSorted<T(!new)>(x: T, s: seq<T>, le: (T, T) -> bool)
    requires TotalPreorder(le) && Sorted(s, le)
    ensures Sorted(Insert(x, s, le), le)
  {
    if s != [] && !le(x, s[0]) {
      InsertSorted(x, s[1..], le);
      InsertPermutes(x, s[1..], le);
      var r := Insert(x, s[1..], le);
      forall y | y in r ensures le(s[0], y) {
        assert y in multiset(r);
        assert y == x || y in s[1..];
      }
    }
  }

  lemma {:induction false} SortPermutes<T>(s: seq<T>, le: (T, T) -> bool)
    ensures multiset(Sort(s, le)) == multiset(s)
  {
    if s != [] {
      SortPermutes(s[1..], le);
      InsertPermutes(s[0], Sort(s[1..], le), le);
      assert s == [s[0]] + s[1..];
    }
  }

  lemma {:induction false} SortSorts<T(!new)>(s: seq<T>, le: (T, T) -> bool)
    requires TotalPreorder(le)
    ensures Sorted(Sort(s, le), le)
  {
    if s != [] {
      SortSorts(s[1..], le);
      InsertSorted(s[0], Sort(s[1..], le), le);
    }
  }

  lemma SortMembers<T(!new)>(s: seq<T>, le: (T, T) -> bool)
    ensures forall x :: x in Sort(s, le) <==> x in s
    ensures |Sort(s, le)| == |s|
  {
    SortPermutes(s, le);
    PermutationMembers(Sort(s, le), s);
  }

  lemma PermutationMembers<T(!new)>(s: seq<T>, t: seq<T>)
    requires multiset(s) == multiset(t)
    ensures forall x :: x in s <==> x in t
    ensures |s| == |t|
  {
    assert |multiset(s)| == |s| && |multiset(t)| == |t|;
    forall x ensures x in s <==> x in t {
      assert x in s <==> x in multiset(s);
      assert x in t <==> x in multiset(t);
    }
  }

  lemma DistinctPermutes<T(!new)>(a: seq<T>, b: seq<T>)
    requires Distinct(a) && Distinct(b) && forall x :: x in a <==> x in b
    ensures multiset(a) == multiset(b)
  {
    forall x ensures multiset(a)[x] == multiset(b)[x] {
      CountDistinct(a, x);
      CountDistinct(b, x);
    }
  }

  lemma {:induction false} CountDistinct<T(!new)>(s: seq<T>, x: T)
    requires Distinct(s)
    ensures multiset(s)[x] == if x in s then 1 else 0
  {
    if s != [] {
      CountDistinct(s[..|s| - 1], x);
      SnocSplit(s);
    }
  }

  lemma CountTwice<T>(s: seq<T>, i: nat, j: nat)
    requires i < j < |s| && s[i] == s[j]
    ensures multiset(s)[s[i]] >= 2
  {
    assert s == s[..j] + [s[j]] + s[j + 1..];
    assert s[..j][i] == s[i] && s[i] in s[..j];
  }

  lemma PermutedDistinct<T(!new)>(a: seq<T>, b: seq<T>)
    requires Distinct(a) && multiset(a) == multiset(b)
    ensures Distinct(b)
  {
    forall i, j | 0 <= i < j < |b| ensures b[i] != b[j] {
      CountDistinct(a, b[i]);
      if b[i] == b[j] {
        CountTwice(b, i, j);
        assert false;
      }
    }
  }

  /** Two sorted arrangements of the same entries are the same list. */
  lemma {:induction false} SortedUnique<T(!new)>(s: seq<T>, t: seq<T>, le: (T, T) -> bool)
    requires Sorted(s, le) && Sorted(t, le)
    requires multiset(s) == multiset(t) && AntisymmetricOn(s, le)
    ensures s == t
  {
    PermutationMembers(s, t);
    if s != [] {
      SortedHeads(s, t, le);
      RestPermutes(s, t);
      SortedUnique(s[1..], t[1..], le);
    }
  }

  lemma SortedHeads<T(!new)>(s: seq<T>, t: seq<T>, le: (T, T) -> bool)
    requires Sorted(s, le) && Sorted(t, le) && AntisymmetricOn(s, le)
    requires s != [] && t != [] && (forall x :: x in s <==> x in t)
    ensures s[0] == t[0]
  {
    assert s[0] in t && t[0] in s;
    var i :| 0 <= i < |s| && s[i] == t[0];
    var j :| 0 <= j < |t| && t[j] == s[0];
    if i != 0 && j != 0 {
      assert le(s[0], s[i]) && le(t[0], t[j]);
    }
  }

  lemma RestPermutes<T>(s: seq<T>, t: seq<T>)
    requires s != [] && t != [] && s[0] == t[0] && multiset(s) == multiset(t)
    ensures multiset(s[1..]) == multiset(t[1..])
  {
    assert s == [s[0]] + s[1..] && t == [t[0]] + t[1..];
    assert multiset(s[1..]) == multiset(s) - multiset{s[0]};
  }

  /** A sort whose comparison separates the entries does not depend on the input order. */
  lemma SortCanonical<T(!new)>(s: seq<T>, t: seq<T>, le: (T, T) -> bool)
    requires TotalPreorder(le) && multiset(s) == multiset(t) && AntisymmetricOn(s, le)
    ensures Sort(s, le) == Sort(t, le)
  {
    SortPermutes(s, le);
    SortPermutes(t, le);
    SortSorts(s, le);
    SortSorts(t, le);
    SortMembers(s, le);
    SortedUnique(Sort(s, le), Sort(t, le), le);
  }

  lemma {:induction false} FilterKeepsSorted<T(!new)>(s: seq<T>, p: T -> bool, le: (T, T) -> bool)
    requires Sorted(s, le)
    ensures Sorted(Filter(s, p), le)
  {
    if s != [] {
      var s' := s[..|s| - 1];
      FilterKeepsSorted(s', p, le);
      FilterMembers(s', p);
      var rest := Filter(s', p);
      forall i | 0 <= i < |rest| ensures le(rest[i], s[|s| - 1]) {
        assert rest[i] in rest;
      }
    }
  }

  /** Two differently sorted copies of a list, restricted to a class of entries on which the two
      orders agree, coincide. */
  lemma FilterAfterSort<T(!new)>(s: seq<T>, p: T -> bool, le1: (T, T) -> bool, le2: (T, T) -> bool)
    requires TotalPreorder(le1) && TotalPreorder(le2)
    requires forall a, b | a in s && b in s && p(a) && p(b) :: le1(a, b) == le2(a, b)
    requires forall a, b | a in s && b in s && p(a) && p(b) :: le1(a, b) && le1(b, a) ==> a == b
    ensures Filter(Sort(s, le1), p) == Filter(Sort(s, le2), p)
  {
    var a, b := Filter(Sort(s, le1), p), Filter(Sort(s, le2), p);
    SortSorts(s, le1);
    SortSorts(s, le2);
    SortPermutes(s, le1);
    SortPermutes(s, le2);
    SortMembers(s, le1);
    SortMembers(s, le2);
    FilterKeepsSorted(Sort(s, le1), p, le1);
    FilterKeepsSorted(Sort(s, le2), p, le2);
    FilterMembers(Sort(s, le1), p);
    FilterMembers(Sort(s, le2), p);
    forall x ensures multiset(a)[x] == multiset(b)[x] {
      FilterCount(Sort(s, le1), p, x);
      FilterCount(Sort(s, le2), p, x);
    }
    assert multiset(a) == multiset(b);
    assert Sorted(b, le1) by {
      forall i, j | 0 <= i < j < |b| ensures le1(b[i], b[j]) {
        assert b[i] in b && b[j] in b;
      }
    }
    SortedUnique(a, b, le1);
  }

  /** Entries of one equivalence class of the comparison. */
  ghost predicate ClassOf<T(!new)>(p: T -> bool, le: (T, T) -> bool) {
    forall a, b | p(a) && p(b) :: le(a, b)
  }

  lemma {:induction false} InsertStable<T(!new)>(x: T, s: seq<T>, le: (T, T) -> bool, p: T -> bool)
    requires ClassOf(p, le)
    ensures Filter(Insert(x, s, le), p) == Filter([x], p) + Filter(s, p)
  {
    FilterAppend([x], s, p);
    if s != [] && !le(x, s[0]) {
      InsertStable(x, s[1..], le, p);
      FilterAppend([s[0]], Insert(x, s[1..], le), p);
      FilterAppend([s[0]], s[1..], p);
      assert s == [s[0]] + s[1..];
      assert !p(x) || !p(s[0]);
      assert [x][..0] == [] && [s[0]][..0] == [];
    }
  }

  /** Sorting does not reorder entries that compare equal. */
  lemma {:induction false} SortStable<T(!new)>(s: seq<T>, le: (T, T) -> bool, p: T -> bool)
    requires ClassOf(p, le)
    ensures Filter(Sort(s, le), p) == Filter(s, p)
  {
    if s != [] {
      SortStable(s[1..], le, p);
      InsertStable(s[0], Sort(s[1..], le), le, p);
      FilterAppend([s[0]], s[1..], p);
      assert s == [s[0]] + s[1..];
    }
  }

  function Swap<T>(s: seq<T>, i: nat, j: nat): seq<T>
    requires i < |s| && j < |s|
  {
    s[i := s[j]][j := s[i]]
  }

  /** If two different entries compare equal, exchanging them changes the sorted list. */
  lemma SwapShows<T(!new)>(s: seq<T>, i: nat, j: nat, le: (T, T) -> bool)
    requires TotalPreorder(le) && i < j < |s|
    requires s[i] != s[j] && le(s[i], s[j]) && le(s[j], s[i])
    ensures Sort(s, le) != Sort(Swap(s, i, j), le)
  {
    var p := (x: T) => le(x, s[i]) && le(s[i], x);
    var t := Swap(s, i, j);
    SortStable(s, le, p);
    SortStable(t, le, p);
    FilterAt(s, i, p);
    FilterAt(t, i, p);
    assert s[..i] == t[..i];
  }

  lemma SwapPermutes<T>(s: seq<T>, i: nat, j: nat)
    requires i < j < |s|
    ensures multiset(Swap(s, i, j)) == multiset(s)
  {
  }

  lemma MapSwap<T, U>(s: seq<T>, i: nat, j: nat, f: T -> U)
    requires i < j < |s|
    ensures Map(Swap(s, i, j), f) == Swap(Map(s, f), i, j)
  {
  }

  /** Rearranging the arguments rearranges the images. */
  lemma {:induction false} MapPermutes<T(!new), U>(a: seq<T>, b: seq<T>, f: T -> U)
    requires multiset(a) == multiset(b)
    ensures multiset(Map(a, f)) == multiset(Map(b, f))
  {
    PermutationMembers(a, b);
    if a != [] {
      var x := a[|a| - 1];
      assert x in a && x in b;
      var j :| 0 <= j < |b| && b[j] == x;
      SnocSplit(a);
      RemoveAt(b, j);
      MultisetCancel(multiset(a[..|a| - 1]), multiset(b[..j] + b[j + 1..]), x);
      MapPermutes(a[..|a| - 1], b[..j] + b[j + 1..], f);
      MapRemoveAt(b, j, f);
      MapRemoveAt(a, |a| - 1, f);
      assert a[..|a| - 1] + a[|a|..] == a[..|a| - 1];
    }
  }

  /** Two images that tell the same entries apart occur equally often. */
  lemma {:induction false} CountImages<T(!new), A, B>(s: seq<T>, f: T -> A, g: T -> B, x: T)
    requires forall y | y in s :: f(y) == f(x) <==> g(y) == g(x)
    ensures multiset(Map(s, f))[f(x)] == multiset(Map(s, g))[g(x)]
  {
    if s != [] {
      var front, last := s[..|s| - 1], s[|s| - 1];
      CountImages(front, f, g, x);
      assert last in s;
      assert Map(s, f) == Map(front, f) + [f(last)];
      assert Map(s, g) == Map(front, g) + [g(last)];
    }
  }

  /** Whether two lists have the same images in some order does not depend on how the images are written. */
  lemma SameImages<T(!new), A, B(!new)>(a: seq<T>, b: seq<T>, f: T -> A, g: T -> B)
    requires forall x, y :: f(x) == f(y) <==> g(x) == g(y)
    requires multiset(Map(a, f)) == multiset(Map(b, f))
    ensures multiset(Map(a, g)) == multiset(Map(b, g))
  {
    var m, n := multiset(Map(a, g)), multiset(Map(b, g));
    forall z ensures m[z] == n[z] {
      if x :| (x in a || x in b) && g(x) == z {
        CountImages(a, f, g, x);
        CountImages(b, f, g, x);
      } else {
        ImageMember(a, g, z);
        ImageMember(b, g, z);
      }
    }
  }

  lemma ImageMember<T(!new), B>(s: seq<T>, g: T -> B, z: B)
    ensures multiset(Map(s, g))[z] > 0 ==> exists x :: x in s && g(x) == z
  {
    if multiset(Map(s, g))[z] > 0 {
      assert z in Map(s, g);
      var i :| 0 <= i < |s| && Map(s, g)[i] == z;
      assert s[i] in s;
    }
  }

  ghost predicate Paired<T(!new)>(s: seq<T>, t: seq<T>, related: (T, T) -> bool) {
    |s| == |t| && forall i | 0 <= i < |s| :: related(s[i], t[i])
  }

  lemma {:induction false} InsertPaired<T(!new)>(x: T, y: T, s: seq<T>, t: seq<T>, le: (T, T) -> bool, related: (T, T) -> bool)
    requires related(x, y) && Paired(s, t, related)
    requires forall a, b, c, d | related(a, b) && related(c, d) :: le(a, c) == le(b, d)
    ensures Paired(Insert(x, s, le), Insert(y, t, le), related)
  {
    if s != [] && !le(x, s[0]) {
      InsertPaired(x, y, s[1..], t[1..], le, related);
    }
  }

  /** Sorting treats pairwise related lists alike when related entries compare alike. */
  lemma {:induction false} SortPaired<T(!new)>(s: seq<T>, t: seq<T>, le: (T, T) -> bool, related: (T, T) -> bool)
    requires Paired(s, t, related)
    requires forall a, b, c, d | related(a, b) && related(c, d) :: le(a, c) == le(b, d)
    ensures Paired(Sort(s, le), Sort(t, le), related)
  {
    if s != [] {
      SortPaired(s[1..], t[1..], le, related);
      InsertPaired(s[0], t[0], Sort(s[1..], le), Sort(t[1..], le), le, related);
    }
  }

  lemma MapRemoveAt<T, U>(s: seq<T>, j: nat, f: T -> U)
    requires j < |s|
    ensures multiset(Map(s, f)) == multiset(Map(s[..j] + s[j + 1..], f)) + multiset{f(s[j])}
  {
    RemoveAt(Map(s, f), j);
    assert Map(s[..j] + s[j + 1..], f) == Map(s, f)[..j] + Map(s, f)[j + 1..];
  }

  lemma MultisetCancel<T>(m: multiset<T>, n: multiset<T>, x: T)
    requires m + multiset{x} == n + multiset{x}
    ensures m == n
  {
    assert (m + multiset{x}) - multiset{x} == m;
    assert (n + multiset{x}) - multiset{x} == n;
  }

  lemma RemoveAt<T>(s: seq<T>, j: nat)
    requires j < |s|
    ensures multiset(s) == multiset(s[..j] + s[j + 1..]) + multiset{s[j]}
  {
    assert s == s[..j] + [s[j]] + s[j + 1..];
  }

  lemma ConfusablePair<T(!new)>(s: seq<T>, le: (T, T) -> bool) returns (i: nat, j: nat)
    requires !AntisymmetricOn(s, le)
    ensures i < j < |s| && s[i] != s[j] && le(s[i], s[j]) && le(s[j], s[i])
  {
    var a, b :| a in s && b in s && le(a, b) && le(b, a) && a != b;
    i :| 0 <= i < |s| && s[i] == a;
    j :| 0 <= j < |s| && s[j] == b;
    if j < i {
      i, j := j, i;
    }
  }

  lemma FilterAt<T(!new)>(s: seq<T>, i: nat, p: T -> bool)
    requires i < |s| && p(s[i])
    ensures |Filter(s[..i], p)| < |Filter(s, p)|
    ensures Filter(s, p)[|Filter(s[..i], p)|] == s[i]
  {
    FilterAppend(s[..i + 1], s[i + 1..], p);
    assert s == s[..i + 1] + s[i + 1..];
    TakeTake(s, i);
  }

  /** The entries of a set in ascending order: the shape of `order_by(id)` queries and of
      `sorted(set(...))`. */
  function Ascending<T(!new)>(s: set<T>, le: (T, T) -> bool): seq<T>
    requires TotalOrder(le)
    decreases |s|
  {
    if s == {} then []
    else
      LeastExists(s, le);
      var x :| x in s && forall y | y in s :: le(x, y);
      [x] + Ascending(s - {x}, le)
  }

  lemma {:induction false} LeastExists<T(!new)>(s: set<T>, le: (T, T) -> bool)
    requires TotalOrder(le) && s != {}
    ensures exists x :: x in s && forall y | y in s :: le(x, y)
    decreases |s|
  {
    var x :| x in s;
    var rest := s - {x};
    if rest == {} {
      assert s == {x};
    } else {
      LeastExists(rest, le);
      var m :| m in rest && forall y | y in rest :: le(m, y);
      var least := if le(x, m) then x else m;
      forall y | y in s ensures le(least, y) {
        assert y == x || y in rest;
        assert le(x, m) || le(m, x);
      }
    }
  }

  lemma {:induction false} AscendingMembers<T(!new)>(s: set<T>, le: (T, T) -> bool)
    requires TotalOrder(le)
    ensures forall x :: x in Ascending(s, le) <==> x in s
    ensures Sorted(Ascending(s, le), le) && Distinct(Ascending(s, le))
    decreases |s|
  {
    if s != {} {
      LeastExists(s, le);
      var x :| x in s && forall y | y in s :: le(x, y);
      AscendingMembers(s - {x}, le);
      var rest := Ascending(s - {x}, le);
      assert Ascending(s, le) == [x] + rest;
    }
  }
}
