/**
 * Sequence helpers shared by the components: JavaScript's `Array.prototype.filter`,
 * the "toggle a value in a selection list" idiom, and the insertion-ordered
 * de-duplication that a JavaScript `Set` performs.
 */
module Lists {

  /** The elements of `s` that satisfy `p`, in their original order (`Array.prototype.filter`). */
  function Filter<T>(s: seq<T>, p: T -> bool): (r: seq<T>)
    ensures |r| <= |s|
  {
    if s == [] then [] else (if p(s[0]) then [s[0]] else []) + Filter(s[1..], p)
  }

  /** `a` can be obtained from `b` by deleting elements (greedy matching is complete). */
  predicate IsSubsequence<T(==)>(a: seq<T>, b: seq<T>)
  {
    if a == [] then true
    else if b == [] then false
    else if a[0] == b[0] then IsSubsequence(a[1..], b[1..])
    else IsSubsequence(a, b[1..])
  }

  /** No value occurs twice. */
  predicate NoDup<T(==)>(s: seq<T>)
  {
    s == [] || (s[0] !in s[1..] && NoDup(s[1..]))
  }

  /** Some element of `xs` is an element of `ys`: `xs.some(x => ys.includes(x))`. */
  predicate Overlaps<T(==)>(xs: seq<T>, ys: seq<T>)
  {
    exists x :: x in xs && x in ys
  }

  /** The predicate "differs from v", as used by `list.filter(x => x !== v)`. */
  function Other<T(==)>(v: T): T -> bool
  {
    x => x != v
  }

  /**
   * The selection toggle of the filter bar and of both artifact forms:
   * `list.includes(v) ? list.filter(x => x !== v) : [...list, v]`.
   */
  function Toggle<T(==)>(s: seq<T>, v: T): (r: seq<T>)
    ensures v in r <==> v !in s
  {
    if v in s then
      FilterMembership(s, Other(v), v);
      Filter(s, Other(v))
    else s + [v]
  }

  /** A sequence is what comes before `k`, the element at `k`, and what comes after. */
  lemma SplitAt<T>(s: seq<T>, k: nat)
    requires k < |s|
    ensures s == s[..k] + ([s[k]] + s[k + 1..])
  {
  }

  /** Taking out the element at `k` takes one copy of it out of the multiset. */
  lemma MultisetRemoveAt<T>(s: seq<T>, k: nat)
    requires k < |s|
    ensures multiset(s[..k] + s[k + 1..]) == multiset(s) - multiset{s[k]}
  {
    assert s == s[..k] + ([s[k]] + s[k + 1..]);
    assert multiset(s) == multiset(s[..k] + s[k + 1..]) + multiset{s[k]};
  }

  /** `s.map(f)`. */
  function Map<A, B>(s: seq<A>, f: A -> B): (r: seq<B>)
    ensures |r| == |s|
  {
    if s == [] then [] else [f(s[0])] + Map(s[1..], f)
  }

  /** The element at `i` of the mapped sequence is the image of the element at `i`. */
  lemma {:induction false} MapAt<A, B>(s: seq<A>, f: A -> B, i: nat)
    requires i < |s|
    ensures Map(s, f)[i] == f(s[i])
    decreases i
  {
    if i > 0 {
      MapAt(s[1..], f, i - 1);
    }
  }

  /** Mapping two orderings of the same elements gives two orderings of the same images. */
  lemma {:induction false} MapPermutation<A, B>(a: seq<A>, b: seq<A>, f: A -> B)
    requires multiset(a) == multiset(b)
    ensures multiset(Map(a, f)) == multiset(Map(b, f))
    decreases |a|
  {
    if a == [] {
      assert b == [] by { assert |multiset(b)| == 0; }
    } else {
      assert a[0] in multiset(b);
      var k :| 0 <= k < |b| && b[k] == a[0];
      assert a[..0] + a[1..] == a[1..];
      MultisetRemoveAt(a, 0);
      MultisetRemoveAt(b, k);
      MapPermutation(a[1..], b[..k] + b[k + 1..], f);
      MapRemoveAt(a, 0, f);
      MapRemoveAt(b, k, f);
    }
  }

  /** Mapping the sequence without its element at `k` maps everything but that element. */
  lemma MapRemoveAt<A, B>(s: seq<A>, k: nat, f: A -> B)
    requires k < |s|
    ensures multiset(Map(s, f)) == multiset(Map(s[..k] + s[k + 1..], f)) + multiset{f(s[k])}
  {
    var c := [s[k]] + s[k + 1..];
    var front, back := Map(s[..k], f), Map(s[k + 1..], f);
    SplitAt(s, k);
    MapAppend(s[..k], c, f);
    assert c[0] == s[k] && c[1..] == s[k + 1..];
    assert Map(c, f) == [f(s[k])] + back;
    assert Map(s, f) == front + ([f(s[k])] + back);
    assert multiset(Map(s, f)) == multiset(front) + (multiset{f(s[k])} + multiset(back));
    MapAppend(s[..k], s[k + 1..], f);
  }

  lemma {:induction false} MapAppend<A, B>(a: seq<A>, b: seq<A>, f: A -> B)
    ensures Map(a + b, f) == Map(a, f) + Map(b, f)
  {
    forall i | 0 <= i < |a| + |b| ensures Map(a + b, f)[i] == (Map(a, f) + Map(b, f))[i] {
      MapAt(a + b, f, i);
      if i < |a| {
        MapAt(a, f, i);
      } else {
        MapAt(b, f, i - |a|);
      }
    }
  }

  /** Concatenation regroups freely; stated once so that a chain of appends need not be re-derived. */
  lemma AppendAssociative<T>(a: seq<T>, b: seq<T>, c: seq<T>)
    ensures (a + b) + c == a + (b + c)
  {
  }

  /** The distinct values of `s` in first-occurrence order: the iteration order of `new Set(s)`. */
  function Distinct<T(==)>(s: seq<T>): (r: seq<T>)
    ensures NoDup(r)
    ensures forall i :: 0 <= i < |s| ==> s[i] in r
    ensures forall i :: 0 <= i < |r| ==> r[i] in s
  {
    if s == [] then []
    else
      var d := Distinct(s[..|s| - 1]);
      var x := s[|s| - 1];
      assert s == s[..|s| - 1] + [x];
      if x in d then d
      else
        NoDupAppend(d, x);
        d + [x]
  }

  // ----- Filter -----

  lemma {:induction false} FilterMembership<T>(s: seq<T>, p: T -> bool, x: T)
    ensures x in Filter(s, p) <==> x in s && p(x)
  {
    if s != [] {
      FilterMembership(s[1..], p, x);
      assert s == [s[0]] + s[1..];
    }
  }

  lemma {:induction false} FilterMultiplicity<T>(s: seq<T>, p: T -> bool, x: T)
    ensures multiset(Filter(s, p))[x] == if p(x) then multiset(s)[x] else 0
  {
    if s != [] {
      FilterMultiplicity(s[1..], p, x);
      assert s == [s[0]] + s[1..];
    }
  }

  lemma {:induction false} FilterAppend<T>(a: seq<T>, b: seq<T>, p: T -> bool)
    ensures Filter(a + b, p) == Filter(a, p) + Filter(b, p)
  {
    if a != [] {
      FilterAppend(a[1..], b, p);
      assert (a + b)[0] == a[0];
      assert (a + b)[1..] == a[1..] + b;
      var head := if p(a[0]) then [a[0]] else [];
      assert Filter(a + b, p) == head + Filter(a[1..] + b, p);
      assert Filter(a, p) == head + Filter(a[1..], p);
    } else {
      assert a + b == b;
    }
  }

  /** A filter whose predicate holds everywhere on `s` returns `s` itself. */
  lemma {:induction false} FilterKeepsAll<T>(s: seq<T>, p: T -> bool)
    requires forall i :: 0 <= i < |s| ==> p(s[i])
    ensures Filter(s, p) == s
  {
    if s != [] {
      FilterKeepsAll(s[1..], p);
    }
  }

  /** Filters by predicates that agree everywhere agree. */
  lemma {:induction false} FilterCongruent<T>(s: seq<T>, p: T -> bool, q: T -> bool)
    requires forall x :: p(x) == q(x)
    ensures Filter(s, p) == Filter(s, q)
  {
    if s != [] {
      FilterCongruent(s[1..], p, q);
    }
  }

  /** Two filters in sequence are one filter on the conjunction of their predicates. */
  lemma {:induction false} FilterFilter<T>(s: seq<T>, p: T -> bool, q: T -> bool, both: T -> bool)
    requires forall x :: both(x) == (p(x) && q(x))
    ensures Filter(Filter(s, p), q) == Filter(s, both)
  {
    if s != [] {
      FilterFilter(s[1..], p, q, both);
      assert both(s[0]) == (p(s[0]) && q(s[0]));
      if !p(s[0]) {
        assert Filter(s, p) == Filter(s[1..], p);
      } else {
        assert Filter(s, p) == [s[0]] + Filter(s[1..], p);
        assert Filter(s, p)[1..] == Filter(s[1..], p);
      }
    }
  }

  lemma {:induction false} FilterIsSubsequence<T>(s: seq<T>, p: T -> bool)
    ensures IsSubsequence(Filter(s, p), s)
  {
    if s != [] {
      FilterIsSubsequence(s[1..], p);
      var rest := Filter(s[1..], p);
      if p(s[0]) {
        assert Filter(s, p) == [s[0]] + rest;
        assert Filter(s, p)[1..] == rest;
      } else {
        assert Filter(s, p) == rest;
        if rest != [] {
          FilterMembership(s[1..], p, rest[0]);
          assert rest[0] != s[0];
        }
      }
    }
  }

  lemma {:induction false} FilterKeepsNoDup<T>(s: seq<T>, p: T -> bool)
    requires NoDup(s)
    ensures NoDup(Filter(s, p))
  {
    if s != [] {
      FilterKeepsNoDup(s[1..], p);
      FilterMembership(s[1..], p, s[0]);
      assert s[0] !in s[1..];
      var r := Filter(s, p);
      if p(s[0]) {
        assert r == [s[0]] + Filter(s[1..], p);
        assert r[0] == s[0];
        assert r[1..] == Filter(s[1..], p);
      } else {
        assert r == Filter(s[1..], p);
      }
    }
  }

  // ----- NoDup -----

  lemma {:induction false} NoDupAppend<T>(s: seq<T>, x: T)
    requires NoDup(s) && x !in s
    ensures NoDup(s + [x])
  {
    if s != [] {
      NoDupAppend(s[1..], x);
      assert (s + [x])[1..] == s[1..] + [x];
    }
  }

  lemma {:induction false} NoDupMultiplicity<T>(s: seq<T>, x: T)
    requires NoDup(s)
    ensures multiset(s)[x] == if x in s then 1 else 0
  {
    if s != [] {
      NoDupMultiplicity(s[1..], x);
      assert s == [s[0]] + s[1..];
    }
  }

  /** A duplicate-free sequence has as many elements as the set of its values. */
  lemma {:induction false} NoDupCardinality<T>(s: seq<T>)
    requires NoDup(s)
    ensures |set x | x in s| == |s|
  {
    if s != [] {
      NoDupCardinality(s[1..]);
      assert (set x | x in s) == {s[0]} + (set x | x in s[1..]);
    }
  }

  // ----- Toggle -----

  /** Toggling changes the membership of `v` and of nothing else. */
  lemma ToggleMembership<T>(s: seq<T>, v: T, x: T)
    ensures x in Toggle(s, v) <==> (if x == v then v !in s else x in s)
  {
    if v in s {
      FilterMembership(s, Other(v), x);
    }
  }

  /** Toggling a value that is absent appends it at the end. */
  lemma ToggleAbsentAppends<T>(s: seq<T>, v: T)
    requires v !in s
    ensures Toggle(s, v) == s + [v]
  {
  }

  /**
   * Toggling a value that is present removes every occurrence of it and keeps the
   * other values in their order.
   */
  lemma TogglePresentRemovesAll<T>(s: seq<T>, v: T)
    requires v in s
    ensures v !in Toggle(s, v)
    ensures IsSubsequence(Toggle(s, v), s)
    ensures forall x :: x != v ==> multiset(Toggle(s, v))[x] == multiset(s)[x]
  {
    FilterIsSubsequence(s, Other(v));
    forall x | x != v
      ensures multiset(Toggle(s, v))[x] == multiset(s)[x]
    {
      FilterMultiplicity(s, Other(v), x);
    }
  }

  lemma ToggleKeepsNoDup<T>(s: seq<T>, v: T)
    requires NoDup(s)
    ensures NoDup(Toggle(s, v))
  {
    if v in s {
      FilterKeepsNoDup(s, Other(v));
    } else {
      NoDupAppend(s, v);
    }
  }

  /** Toggling an absent value twice gives back the original list exactly. */
  lemma ToggleTwiceAbsent<T>(s: seq<T>, v: T)
    requires v !in s
    ensures Toggle(Toggle(s, v), v) == s
  {
    assert Toggle(s, v) == s + [v];
    FilterAppend(s, [v], Other(v));
    forall i | 0 <= i < |s| ensures Other(v)(s[i]) {
      assert s[i] in s;
    }
    FilterKeepsAll(s, Other(v));
    assert Filter([v], Other(v)) == [];
  }

  /**
   * Toggling a present value twice (in a list without duplicates) restores the
   * selection as a set: the value moves to the end.
   */
  lemma ToggleTwicePresent<T>(s: seq<T>, v: T)
    requires NoDup(s) && v in s
    ensures multiset(Toggle(Toggle(s, v), v)) == multiset(s)
  {
    var once := Toggle(s, v);
    assert v !in once;
    assert Toggle(once, v) == once + [v];
    forall x ensures multiset(once + [v])[x] == multiset(s)[x] {
      FilterMultiplicity(s, Other(v), x);
      NoDupMultiplicity(s, x);
    }
    assert multiset(once + [v]) == multiset(s);
  }

  /** `new Set(s).size` is the number of distinct values of `s`. */
  lemma DistinctSize<T>(s: seq<T>)
    ensures |Distinct(s)| == |set x | x in s|
    ensures |Distinct(s)| <= |s|
  {
    var d := Distinct(s);
    NoDupCardinality(d);
    assert (set x | x in d) == (set x | x in s);
    DistinctShorter(s);
  }

  lemma {:induction false} DistinctShorter<T>(s: seq<T>)
    ensures |Distinct(s)| <= |s|
  {
    if s != [] {
      DistinctShorter(s[..|s| - 1]);
    }
  }
}
