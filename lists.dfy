/**
 * Sequence helpers for the two places the program turns a set into a list
 * and sorts records by priority with Python's stable `list.sort`.
 */
module Lists {
  import opened Wrappers

  predicate Distinct<T(==)>(s: seq<T>)
  {
    forall i, j :: 0 <= i < j < |s| ==> s[i] != s[j]
  }

  /** `list(a_set)`: every element once, in an order the model leaves open. */
  method ListOfSet<T(==)>(s: set<T>) returns (r: seq<T>)
    ensures Distinct(r)
    ensures forall x :: x in r <==> x in s
  {
    r := [];
    var rest := s;
    while rest != {}
      invariant rest <= s
      invariant Distinct(r)
      invariant forall x :: x in r <==> x in s && x !in rest
      decreases |rest|
    {
      var x :| x in rest;
      r := r + [x];
      rest := rest - {x};
    }
  }

  /** `r` keeps some of the elements of `s`, in their order in `s`. */
  predicate IsSubsequence<T(==)>(r: seq<T>, s: seq<T>)
    decreases |s|
  {
    if r == [] then true
    else if s == [] then false
    else (r[0] == s[0] && IsSubsequence(r[1..], s[1..])) || IsSubsequence(r, s[1..])
  }

  predicate SortedBy<T>(s: seq<T>, key: T -> int)
  {
    forall i, j :: 0 <= i < j < |s| ==> key(s[i]) <= key(s[j])
  }

  /** The elements of `s` whose key is `k`, in their order in `s`. */
  function Having<T>(s: seq<T>, key: T -> int, k: int): seq<T>
  {
    if s == [] then []
    else (if key(s[0]) == k then [s[0]] else []) + Having(s[1..], key, k)
  }

  /** Puts `x` in front of the first element whose key is not smaller than its own. */
  function InsertBy<T>(x: T, s: seq<T>, key: T -> int): (r: seq<T>)
    ensures multiset(r) == multiset(s) + multiset{x}
  {
    if s == [] || key(x) <= key(s[0]) then [x] + s
    else
      assert s == [s[0]] + s[1..];
      [s[0]] + InsertBy(x, s[1..], key)
  }

  lemma {:induction false} InsertBySorted<T>(x: T, s: seq<T>, key: T -> int)
    requires SortedBy(s, key)
    ensures SortedBy(InsertBy(x, s, key), key)
  {
    if s != [] && key(x) > key(s[0]) {
      var t := InsertBy(x, s[1..], key);
      InsertBySorted(x, s[1..], key);
      InsertByBounded(x, s[1..], key, key(s[0]));
      assert InsertBy(x, s, key) == [s[0]] + t;
    }
  }

  /** A lower bound on every key of `s` and on the key of `x` bounds every key after inserting. */
  lemma {:induction false} InsertByBounded<T>(x: T, s: seq<T>, key: T -> int, b: int)
    requires b <= key(x)
    requires forall i :: 0 <= i < |s| ==> b <= key(s[i])
    ensures forall i :: 0 <= i < |InsertBy(x, s, key)| ==> b <= key(InsertBy(x, s, key)[i])
  {
    if s != [] && key(x) > key(s[0]) {
      InsertByBounded(x, s[1..], key, b);
    }
  }

  /** Python's `list.sort(key=...)` on integer keys: a stable sort (an insertion sort here). */
  function SortBy<T>(s: seq<T>, key: T -> int): (r: seq<T>)
    ensures SortedBy(r, key)
    ensures multiset(r) == multiset(s)
  {
    if s == [] then []
    else
      assert s == [s[0]] + s[1..];
      var t := SortBy(s[1..], key);
      InsertBySorted(s[0], t, key);
      InsertBy(s[0], t, key)
  }

  lemma {:induction false} InsertByHaving<T>(x: T, s: seq<T>, key: T -> int, k: int)
    requires SortedBy(s, key)
    ensures Having(InsertBy(x, s, key), key, k)
         == (if key(x) == k then [x] else []) + Having(s, key, k)
  {
    var r := InsertBy(x, s, key);
    if s == [] || key(x) <= key(s[0]) {
      assert r == [x] + s && r[1..] == s;
    } else {
      var t := InsertBy(x, s[1..], key);
      assert SortedBy(s[1..], key);
      InsertByHaving(x, s[1..], key, k);
      assert r == [s[0]] + t && r[1..] == t;
      assert Having(r, key, k) == (if key(s[0]) == k then [s[0]] else []) + Having(t, key, k);
      assert Having(s, key, k) == (if key(s[0]) == k then [s[0]] else []) + Having(s[1..], key, k);
    }
  }

  /** Sorting keeps, for every key, the elements with that key in their input order (stability). */
  lemma {:induction false} SortByIsStable<T>(s: seq<T>, key: T -> int, k: int)
    ensures Having(SortBy(s, key), key, k) == Having(s, key, k)
  {
    if s != [] {
      SortByIsStable(s[1..], key, k);
      InsertByHaving(s[0], SortBy(s[1..], key), key, k);
    }
  }

  /** Filtering by key keeps exactly the elements with that key, in order. */
  lemma {:induction false} HavingIsFilter<T>(s: seq<T>, key: T -> int, k: int)
    ensures IsSubsequence(Having(s, key, k), s)
    ensures forall x :: x in Having(s, key, k) <==> x in s && key(x) == k
  {
    if s != [] {
      var h := Having(s[1..], key, k);
      HavingIsFilter(s[1..], key, k);
      SubsequenceOfTail(h, s);
      if key(s[0]) == k {
        assert Having(s, key, k) == [s[0]] + h;
      } else {
        assert Having(s, key, k) == h;
      }
    }
  }

  lemma {:induction false} SubsequenceOfTail<T>(r: seq<T>, s: seq<T>)
    requires s != [] && IsSubsequence(r, s[1..])
    ensures IsSubsequence(r, s) && IsSubsequence([s[0]] + r, s)
  {
    assert ([s[0]] + r)[1..] == r;
  }

  /** The union of `f` over the elements of `xs`, built from the front as a loop would. */
  function UnionOf<T, U>(xs: seq<T>, f: T -> set<U>): set<U>
  {
    if xs == [] then {} else UnionOf(xs[..|xs| - 1], f) + f(xs[|xs| - 1])
  }

  /** An element is in the union exactly when some element of `xs` contributes it. */
  lemma {:induction false} UnionOfMembers<T, U>(xs: seq<T>, f: T -> set<U>, u: U)
    ensures u in UnionOf(xs, f) <==> exists k :: 0 <= k < |xs| && u in f(xs[k])
  {
    if xs != [] {
      var init := xs[..|xs| - 1];
      UnionOfMembers(init, f, u);
      if exists k :: 0 <= k < |xs| && u in f(xs[k]) {
        var k :| 0 <= k < |xs| && u in f(xs[k]);
        if k < |init| {
          assert init[k] == xs[k];
        }
      }
      if u in UnionOf(init, f) {
        var k :| 0 <= k < |init| && u in f(init[k]);
        assert xs[k] == init[k];
      }
    }
  }

  /** The values `f` gives the elements of `xs`, skipping `None`, in order, built from the front
      as a loop that appends would. */
  function FilterMap<T, U>(xs: seq<T>, f: T -> Option<U>): (r: seq<U>)
    ensures |r| <= |xs|
  {
    if xs == [] then []
    else
      var earlier := FilterMap(xs[..|xs| - 1], f);
      match f(xs[|xs| - 1])
      case None => earlier
      case Some(u) => earlier + [u]
  }

  /** A value is kept exactly when some element of `xs` gives it. */
  lemma {:induction false} FilterMapMembers<T, U>(xs: seq<T>, f: T -> Option<U>, u: U)
    ensures u in FilterMap(xs, f) <==> exists k :: 0 <= k < |xs| && f(xs[k]) == Some(u)
  {
    if xs != [] {
      var init := xs[..|xs| - 1];
      FilterMapMembers(init, f, u);
      if exists k :: 0 <= k < |xs| && f(xs[k]) == Some(u) {
        var k :| 0 <= k < |xs| && f(xs[k]) == Some(u);
        if k < |init| {
          assert init[k] == xs[k];
        }
      }
      if u in FilterMap(init, f) {
        var k :| 0 <= k < |init| && f(init[k]) == Some(u);
        assert xs[k] == init[k];
      }
    }
  }

  /** A subsequence stays one when the sequence grows at the end, and when both grow by the
      same element. */
  lemma {:induction false} SubsequenceExtend<T>(r: seq<T>, s: seq<T>, x: T)
    requires IsSubsequence(r, s)
    ensures IsSubsequence(r, s + [x])
    ensures IsSubsequence(r + [x], s + [x])
    decreases |s|
  {
    if s == [] {
      assert r == [];
      assert ([] + [x])[1..] == [];
    } else {
      assert (s + [x])[1..] == s[1..] + [x];
      if r == [] {
        SubsequenceExtend(r, s[1..], x);
        assert r + [x] == [x];
      } else if r[0] == s[0] && IsSubsequence(r[1..], s[1..]) {
        SubsequenceExtend(r[1..], s[1..], x);
        assert (r + [x])[1..] == r[1..] + [x];
      } else {
        SubsequenceExtend(r, s[1..], x);
      }
    }
  }
}
