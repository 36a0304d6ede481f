/**
 * Sorting by a caller-supplied "comes before" predicate, as Swift's `sorted(by:)` does.
 *
 * Swift promises that the result is a permutation of the input in which no element comes
 * before an earlier one, and that elements neither of which comes before the other keep
 * their relative order (the sort is stable). The model uses insertion sort; only its
 * contract matters to the callers.
 */
module Sorting {

  /**
   * Swift's demand on `areInIncreasingOrder`: a strict weak order (irreflexive, transitive,
   * and "neither comes before the other" is transitive too).
   */
  ghost predicate StrictWeakOrder<T(!new)>(less: (T, T) -> bool) {
    && (forall a :: !less(a, a))
    && (forall a, b, c :: less(a, b) && less(b, c) ==> less(a, c))
    && (forall a, b, c :: !less(a, b) && !less(b, a) && !less(b, c) && !less(c, b) ==>
          !less(a, c) && !less(c, a))
  }

  /** No element of `s` comes, by `less`, before an element that precedes it. */
  ghost predicate SortedBy<T>(s: seq<T>, less: (T, T) -> bool) {
    forall i, j :: 0 <= i < j < |s| ==> !less(s[j], s[i])
  }

  /**
   * Inserts `x` into the sorted `s` in front of the first element that does not come before
   * it, so in front of every element it is equivalent to.
   */
  function InsertSorted<T(!new)>(x: T, s: seq<T>, less: (T, T) -> bool): (r: seq<T>)
    requires StrictWeakOrder(less) && SortedBy(s, less)
    ensures multiset(r) == multiset(s) + multiset{x}
    ensures SortedBy(r, less)
    decreases |s|
  {
    if s == [] then [x]
    else if !less(s[0], x) then
      [x] + s
    else
      var rest := InsertSorted(x, s[1..], less);
      assert s == [s[0]] + s[1..];
      assert forall y :: y in multiset(rest) ==> !less(y, s[0]) by {
        forall y | y in multiset(rest) ensures !less(y, s[0]) {
          if y != x {
            assert y in multiset(s[1..]);
            var k :| 0 <= k < |s[1..]| && s[1..][k] == y;
            assert s[k + 1] == y;
          }
        }
      }
      var r := [s[0]] + rest;
      assert forall j :: 0 < j < |r| ==> r[j] in multiset(rest) by {
        forall j | 0 < j < |r| ensures r[j] in multiset(rest) {
          assert r[j] == rest[j - 1];
        }
      }
      r
  }

  /** `sorted(by: less)`: a permutation of `s` that is sorted by `less`; see `SortIsStable`. */
  function Sort<T(!new)>(s: seq<T>, less: (T, T) -> bool): (r: seq<T>)
    requires StrictWeakOrder(less)
    ensures multiset(r) == multiset(s)
    ensures |r| == |s|
    ensures SortedBy(r, less)
    decreases |s|
  {
    if s == [] then []
    else
      assert s == [s[0]] + s[1..];
      var r := InsertSorted(s[0], Sort(s[1..], less), less);
      assert |r| == |multiset(r)| == |s|;
      r
  }

  /** The elements of `s` that `less` does not order against `k`, in their order in `s`. */
  function Equivalents<T>(s: seq<T>, k: T, less: (T, T) -> bool): (e: seq<T>)
    ensures |e| <= |s|
    ensures forall y :: y in e ==> y in s && !less(y, k) && !less(k, y)
    decreases |s|
  {
    if s == [] then []
    else (if !less(s[0], k) && !less(k, s[0]) then [s[0]] else []) + Equivalents(s[1..], k, less)
  }

  /** Two members of one class are unordered against each other. */
  lemma SameClassUnordered<T(!new)>(a: T, b: T, k: T, less: (T, T) -> bool)
    requires StrictWeakOrder(less)
    ensures !less(a, k) && !less(k, a) && !less(b, k) && !less(k, b) ==> !less(a, b)
  {
  }

  /** Inserting `x` puts it in front of every element of its own class and moves no other. */
  lemma {:induction false} EquivalentsOfInsert<T(!new)>(x: T, s: seq<T>, k: T, less: (T, T) -> bool)
    requires StrictWeakOrder(less) && SortedBy(s, less)
    ensures Equivalents(InsertSorted(x, s, less), k, less)
      == (if !less(x, k) && !less(k, x) then [x] else []) + Equivalents(s, k, less)
    decreases |s|
  {
    var r := InsertSorted(x, s, less);
    var own := if !less(x, k) && !less(k, x) then [x] else [];
    if s == [] {
      assert r == [x] && r[1..] == [];
      assert Equivalents(r, k, less) == own + [];
    } else if !less(s[0], x) {
      assert r == [x] + s;
      assert r[0] == x && r[1..] == s;
      assert Equivalents(r, k, less) == own + Equivalents(s, k, less);
    } else {
      var rest := InsertSorted(x, s[1..], less);
      var head := if !less(s[0], k) && !less(k, s[0]) then [s[0]] else [];
      assert r == [s[0]] + rest;
      assert r[0] == s[0] && r[1..] == rest;
      var tail := Equivalents(s[1..], k, less);
      assert Equivalents(r, k, less) == head + Equivalents(rest, k, less);
      assert Equivalents(s, k, less) == head + tail;
      EquivalentsOfInsert(x, s[1..], k, less);
      if own == [] {
        assert Equivalents(rest, k, less) == tail;
        assert Equivalents(r, k, less) == Equivalents(s, k, less);
        assert own + Equivalents(s, k, less) == Equivalents(s, k, less);
      } else {
        SameClassUnordered(s[0], x, k, less);
        assert head == [];
        assert Equivalents(r, k, less) == own + tail;
        assert Equivalents(s, k, less) == tail;
      }
    }
  }

  /**
   * `sorted(by:)` is stable: within every class of mutually unordered elements, the result
   * keeps the order of the input.
   */
  lemma {:induction false} SortIsStable<T(!new)>(s: seq<T>, k: T, less: (T, T) -> bool)
    requires StrictWeakOrder(less)
    ensures Equivalents(Sort(s, less), k, less) == Equivalents(s, k, less)
    decreases |s|
  {
    if s != [] {
      SortIsStable(s[1..], k, less);
      EquivalentsOfInsert(s[0], Sort(s[1..], less), k, less);
    }
  }

  /** When `k` is unordered against every element of `s`, its class is all of `s`. */
  lemma {:induction false} AllEquivalent<T>(s: seq<T>, k: T, less: (T, T) -> bool)
    requires forall i :: 0 <= i < |s| ==> !less(s[i], k) && !less(k, s[i])
    ensures Equivalents(s, k, less) == s
    decreases |s|
  {
    if s != [] {
      AllEquivalent(s[1..], k, less);
    }
  }
}
