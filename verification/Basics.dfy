/** Sequence vocabulary shared by all modules. Every recursive function below peels the last
    element, because the program builds its lists by appending in loops. */
module Basics {

  datatype Option<+T> = None | Some(value: T) {
    function GetOr(default: T): T {
      if None? then default else value
    }
  }

  datatype Result<+T, +E> = Ok(value: T) | Err(error: E)

  /** The list comprehension `[x for x in s if p(x)]`. */
  function Filter<T>(s: seq<T>, p: T -> bool): seq<T> {
    if s == [] then []
    else
      var rest := Filter(s[..|s| - 1], p);
      if p(s[|s| - 1]) then rest + [s[|s| - 1]] else rest
  }

  /** The list comprehension `[f(x) for x in s]`. */
  function Map<T, U>(s: seq<T>, f: T -> U): (r: seq<U>)
    ensures |r| == |s| && forall i | 0 <= i < |s| :: r[i] == f(s[i])
  {
    seq(|s|, i requires 0 <= i < |s| => f(s[i]))
  }

  /** First occurrences, in order. */
  function Dedupe<T(==)>(s: seq<T>): seq<T> {
    if s == [] then []
    else
      var rest := Dedupe(s[..|s| - 1]);
      if s[|s| - 1] in rest then rest else rest + [s[|s| - 1]]
  }

  function ToSet<T>(s: seq<T>): set<T> {
    set x | x in s
  }

  ghost predicate Distinct<T>(s: seq<T>) {
    forall i, j | 0 <= i < j < |s| :: s[i] != s[j]
  }

  function Max(a: int, b: int): int {
    if a < b then b else a
  }

  /** `xs` can be obtained from `ys` by deleting entries. */
  ghost predicate Subsequence<T>(xs: seq<T>, ys: seq<T>) {
    exists at: seq<nat> :: Embeds(xs, ys, at)
  }

  ghost predicate Embeds<T>(xs: seq<T>, ys: seq<T>, at: seq<nat>) {
    && |at| == |xs|
    && (forall i | 0 <= i < |at| :: at[i] < |ys| && ys[at[i]] == xs[i])
    && (forall i, j | 0 <= i < j < |at| :: at[i] < at[j])
  }

  lemma TakeTake<T>(s: seq<T>, i: nat)
    requires i < |s|
    ensures s[..i + 1][..i] == s[..i]
    ensures s[..i + 1][i] == s[i]
    ensures s[..i + 1] == s[..i] + [s[i]]
  {
  }

  lemma SnocSplit<T>(s: seq<T>)
    requires s != []
    ensures s == s[..|s| - 1] + [s[|s| - 1]]
    ensures multiset(s) == multiset(s[..|s| - 1]) + multiset{s[|s| - 1]}
  {
    assert s == s[..|s| - 1] + [s[|s| - 1]];
  }

  lemma FilterOne<T>(a: T, p: T -> bool)
    ensures Filter([a], p) == if p(a) then [a] else []
  {
    assert [a][..0] == [];
  }

  lemma FilterTwo<T>(a: T, b: T, p: T -> bool)
    requires p(a) && p(b)
    ensures Filter([a, b], p) == [a, b]
  {
    FilterOne(a, p);
    assert [a, b][..1] == [a];
  }

  lemma {:induction false} FilterMembers<T(!new)>(s: seq<T>, p: T -> bool)
    ensures forall x :: x in Filter(s, p) <==> x in s && p(x)
  {
    if s != [] {
      FilterMembers(s[..|s| - 1], p);
      SnocSplit(s);
    }
  }

  lemma {:induction false} FilterCount<T>(s: seq<T>, p: T -> bool, x: T)
    ensures multiset(Filter(s, p))[x] == if p(x) then multiset(s)[x] else 0
  {
    if s != [] {
      FilterCount(s[..|s| - 1], p, x);
      SnocSplit(s);
    }
  }

  lemma {:induction false} FilterAppend<T>(a: seq<T>, b: seq<T>, p: T -> bool)
    ensures Filter(a + b, p) == Filter(a, p) + Filter(b, p)
  {
    if b == [] {
      assert a + b == a;
    } else {
      var b' := b[..|b| - 1];
      FilterAppend(a, b', p);
      assert (a + b)[..|a + b| - 1] == a + b';
    }
  }

  lemma {:induction false} FilterAgree<T(!new)>(s: seq<T>, p: T -> bool, q: T -> bool)
    requires forall x | x in s :: p(x) == q(x)
    ensures Filter(s, p) == Filter(s, q)
  {
    if s != [] {
      FilterAgree(s[..|s| - 1], p, q);
    }
  }

  lemma {:induction false} FilterDistinct<T(!new)>(s: seq<T>, p: T -> bool)
    requires Distinct(s)
    ensures Distinct(Filter(s, p))
  {
    if s != [] {
      var s' := s[..|s| - 1];
      FilterDistinct(s', p);
      FilterMembers(s', p);
    }
  }

  lemma {:induction false} DedupeMembers<T(!new)>(s: seq<T>)
    ensures Distinct(Dedupe(s))
    ensures forall x :: x in Dedupe(s) <==> x in s
  {
    if s != [] {
      DedupeMembers(s[..|s| - 1]);
      SnocSplit(s);
    }
  }

  /** A list without repetitions is left alone. */
  lemma {:induction false} DedupeDistinct<T(!new)>(s: seq<T>)
    requires Distinct(s)
    ensures Dedupe(s) == s
  {
    if s != [] {
      DedupeDistinct(s[..|s| - 1]);
      SnocSplit(s);
    }
  }

  /** Deduplicating in instalments is deduplicating once. */
  lemma {:induction false} DedupeAppend<T(!new)>(a: seq<T>, b: seq<T>)
    ensures Dedupe(Dedupe(a) + b) == Dedupe(a + b)
  {
    if b == [] {
      assert a + b == a && Dedupe(a) + b == Dedupe(a);
      DedupeMembers(a);
      DedupeDistinct(Dedupe(a));
    } else {
      var b' := b[..|b| - 1];
      DedupeAppend(a, b');
      assert (a + b)[..|a + b| - 1] == a + b';
      assert (Dedupe(a) + b)[..|Dedupe(a) + b| - 1] == Dedupe(a) + b';
    }
  }

  /** Appending entries already present changes nothing. */
  lemma {:induction false} DedupeAbsorbs<T(!new)>(a: seq<T>, b: seq<T>)
    requires forall x | x in b :: x in a
    ensures Dedupe(a + b) == Dedupe(a)
  {
    if b == [] {
      assert a + b == a;
    } else {
      var b' := b[..|b| - 1];
      DedupeAbsorbs(a, b');
      DedupeMembers(a);
      assert (a + b)[..|a + b| - 1] == a + b';
    }
  }

  lemma MapSnoc<T, U>(s: seq<T>, i: nat, f: T -> U)
    requires i < |s|
    ensures Map(s[..i + 1], f) == Map(s[..i], f) + [f(s[i])]
  {
  }

  // ---- First entries ----

  /** The first entry with the property. */
  function FirstThat<T>(s: seq<T>, p: T -> bool): (r: Option<T>)
    ensures r.Some? ==> r.value in s && p(r.value)
    ensures r.None? ==> forall x | x in s :: !p(x)
  {
    if s == [] then None
    else
      var before := FirstThat(s[..|s| - 1], p);
      if before.Some? then before else if p(s[|s| - 1]) then Some(s[|s| - 1]) else None
  }

  lemma {:induction false} FirstAppend<T>(a: seq<T>, b: seq<T>, p: T -> bool)
    ensures FirstThat(a + b, p) == if FirstThat(a, p).Some? then FirstThat(a, p) else FirstThat(b, p)
  {
    if b == [] {
      assert a + b == a;
    } else {
      FirstAppend(a, b[..|b| - 1], p);
      assert (a + b)[..|a + b| - 1] == a + b[..|b| - 1];
    }
  }

  lemma {:induction false} FirstOfFilter<T(!new)>(s: seq<T>, q: T -> bool, p: T -> bool)
    requires forall x | p(x) :: q(x)
    ensures FirstThat(Filter(s, q), p) == FirstThat(s, p)
  {
    if s != [] {
      FirstOfFilter(s[..|s| - 1], q, p);
    }
  }

  lemma {:induction false} FirstOfDedupe<T(!new)>(s: seq<T>, p: T -> bool)
    ensures FirstThat(Dedupe(s), p) == FirstThat(s, p)
  {
    if s != [] {
      FirstOfDedupe(s[..|s| - 1], p);
      DedupeMembers(s[..|s| - 1]);
    }
  }

  lemma {:induction false} FirstOfMap<T(!new), U>(s: seq<T>, f: T -> U, p: U -> bool, q: T -> bool)
    requires forall x :: q(x) <==> p(f(x))
    ensures FirstThat(Map(s, f), p) == match FirstThat(s, q) case None => None case Some(x) => Some(f(x))
  {
    if s != [] {
      var front, last := s[..|s| - 1], s[|s| - 1];
      FirstOfMap(front, f, p, q);
      assert Map(s, f)[..|s| - 1] == Map(front, f);
    }
  }

  /** Among sorted entries the first with a property comes before every other. */
  lemma {:induction false} FirstIsLeast<T(!new)>(s: seq<T>, p: T -> bool, le: (T, T) -> bool)
    requires forall i, j | 0 <= i < j < |s| :: le(s[i], s[j])
    ensures FirstThat(s, p).Some? ==> forall x | x in s && p(x) :: x == FirstThat(s, p).value || le(FirstThat(s, p).value, x)
  {
    if s != [] {
      var front, last := s[..|s| - 1], s[|s| - 1];
      FirstIsLeast(front, p, le);
      if FirstThat(front, p).Some? {
        var i :| 0 <= i < |front| && front[i] == FirstThat(front, p).value;
        assert le(s[i], s[|s| - 1]);
      }
      SnocSplit(s);
    }
  }
}
