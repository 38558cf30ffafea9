/**
 * The stable sort that `Array.prototype.sort` performs (stable since ECMAScript 2019),
 * and the ordered query `order(column)` of the backend, written as an insertion sort
 * over a "may go before" relation `le`. For a comparator `cmp`, `le(a, b)` is
 * `cmp(a, b) <= 0`.
 */
module Sorting {
  import opened Lists

  /** `le` is total and transitive: the comparators used by the application are. */
  ghost predicate TotalPreorder<T(!new)>(le: (T, T) -> bool)
  {
    && (forall x, y :: le(x, y) || le(y, x))
    && (forall x, y, z :: le(x, y) && le(y, z) ==> le(x, z))
  }

  /** Every element may go before every later one. */
  ghost predicate Sorted<T>(s: seq<T>, le: (T, T) -> bool)
  {
    forall i, j :: 0 <= i < j < |s| ==> le(s[i], s[j])
  }

  /** `a` and `b` compare equal under `le`. */
  predicate Tied<T>(le: (T, T) -> bool, a: T, b: T)
  {
    le(a, b) && le(b, a)
  }

  /** The elements of `s` that compare equal to `e`, in their order in `s`. */
  function TiedWith<T>(s: seq<T>, e: T, le: (T, T) -> bool): (r: seq<T>)
    ensures |r| <= |s|
  {
    if s == [] then [] else (if Tied(le, s[0], e) then [s[0]] else []) + TiedWith(s[1..], e, le)
  }

  /** Places `x` before the first element it may go before. */
  function Insert<T>(x: T, s: seq<T>, le: (T, T) -> bool): (r: seq<T>)
    ensures |r| == |s| + 1
  {
    if s == [] then [x]
    else if le(x, s[0]) then [x] + s
    else [s[0]] + Insert(x, s[1..], le)
  }

  /** Stable sort: elements that compare equal keep their relative order. */
  function Sort<T>(s: seq<T>, le: (T, T) -> bool): (r: seq<T>)
    ensures |r| == |s|
  {
    if s == [] then [] else Insert(s[0], Sort(s[1..], le), le)
  }

  // ----- permutation -----

  lemma {:induction false} InsertMultiset<T>(x: T, s: seq<T>, le: (T, T) -> bool)
    ensures multiset(Insert(x, s, le)) == multiset(s) + multiset{x}
  {
    if s == [] {
    } else if le(x, s[0]) {
      assert Insert(x, s, le) == [x] + s;
    } else {
      var tail := Insert(x, s[1..], le);
      InsertMultiset(x, s[1..], le);
      assert s == [s[0]] + s[1..];
      assert multiset(Insert(x, s, le)) == multiset{s[0]} + multiset(tail);
    }
  }

  /** Sorting only rearranges: the result is a permutation of the input. */
  lemma {:induction false} SortIsPermutation<T>(s: seq<T>, le: (T, T) -> bool)
    ensures multiset(Sort(s, le)) == multiset(s)
  {
    if s != [] {
      SortIsPermutation(s[1..], le);
      InsertMultiset(s[0], Sort(s[1..], le), le);
      assert s == [s[0]] + s[1..];
    }
  }

  // ----- order -----

  /** Whatever may go before `x` and every element of `s` may go before every element of the result. */
  lemma {:induction false} InsertLowerBound<T>(x: T, s: seq<T>, b: T, le: (T, T) -> bool)
    requires le(b, x)
    requires forall i :: 0 <= i < |s| ==> le(b, s[i])
    ensures forall i :: 0 <= i < |Insert(x, s, le)| ==> le(b, Insert(x, s, le)[i])
  {
    if s != [] && !le(x, s[0]) {
      InsertLowerBound(x, s[1..], b, le);
      var r := [s[0]] + Insert(x, s[1..], le);
      assert forall i :: 1 <= i < |r| ==> r[i] == Insert(x, s[1..], le)[i - 1];
    }
  }

  lemma {:induction false} InsertSorted<T(!new)>(x: T, s: seq<T>, le: (T, T) -> bool)
    requires TotalPreorder(le)
    requires Sorted(s, le)
    ensures Sorted(Insert(x, s, le), le)
  {
    if s == [] {
    } else if le(x, s[0]) {
      var r := [x] + s;
      forall i, j | 0 <= i < j < |r| ensures le(r[i], r[j]) {
        if i == 0 && j > 1 {
          assert le(s[0], s[j - 1]);
        }
      }
    } else {
      var tail := Insert(x, s[1..], le);
      assert le(s[0], x);
      InsertSorted(x, s[1..], le);
      InsertLowerBound(x, s[1..], s[0], le);
      var r := [s[0]] + tail;
      forall i, j | 0 <= i < j < |r| ensures le(r[i], r[j]) {
        if i == 0 {
          assert r[j] == tail[j - 1];
        } else {
          assert r[i] == tail[i - 1] && r[j] == tail[j - 1];
        }
      }
    }
  }

  /** Under a total preorder the result is ordered. */
  lemma {:induction false} SortIsSorted<T(!new)>(s: seq<T>, le: (T, T) -> bool)
    requires TotalPreorder(le)
    ensures Sorted(Sort(s, le), le)
  {
    if s != [] {
      SortIsSorted(s[1..], le);
      InsertSorted(s[0], Sort(s[1..], le), le);
    }
  }

  // ----- stability -----

  /** An element that may not go before `y` is never tied with the same `e` as `y`. */
  lemma NotBothTied<T(!new)>(x: T, y: T, e: T, le: (T, T) -> bool)
    requires TotalPreorder(le)
    requires !le(x, y)
    ensures !(Tied(le, x, e) && Tied(le, y, e))
  {
  }

  lemma {:induction false} InsertTiedWith<T(!new)>(x: T, s: seq<T>, e: T, le: (T, T) -> bool)
    requires TotalPreorder(le)
    ensures TiedWith(Insert(x, s, le), e, le) ==
            (if Tied(le, x, e) then [x] else []) + TiedWith(s, e, le)
  {
    if s == [] {
    } else if le(x, s[0]) {
      var r := [x] + s;
      assert r[1..] == s;
    } else {
      var tail := Insert(x, s[1..], le);
      var head := if Tied(le, s[0], e) then [s[0]] else [];
      var mine := if Tied(le, x, e) then [x] else [];
      InsertTiedWith(x, s[1..], e, le);
      var r := [s[0]] + tail;
      assert r[0] == s[0] && r[1..] == tail;
      assert TiedWith(r, e, le) == head + (mine + TiedWith(s[1..], e, le));
      NotBothTied(x, s[0], e, le);
      assert head == [] || mine == [];
    }
  }

  /** Stability: the elements tied with any `e` appear in the same order before and after. */
  lemma {:induction false} SortIsStable<T(!new)>(s: seq<T>, e: T, le: (T, T) -> bool)
    requires TotalPreorder(le)
    ensures TiedWith(Sort(s, le), e, le) == TiedWith(s, e, le)
  {
    if s != [] {
      SortIsStable(s[1..], e, le);
      InsertTiedWith(s[0], Sort(s[1..], le), e, le);
    }
  }
}
