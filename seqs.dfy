/**
  The array operations the application uses on query results and page data:
  `filter`, `map`, `some`, `includes`, taking the first row of a result set,
  and sorting by a numeric key (SQL `ORDER BY`).
 */
module Seqs {
  import opened Wrappers

  /** `xs.filter(keep)`: the elements satisfying `keep`, in their original order. */
  function Filter<T(!new)>(xs: seq<T>, keep: T -> bool): (r: seq<T>)
    ensures |r| <= |xs|
    ensures forall x :: x in r <==> x in xs && keep(x)
    ensures forall x :: multiset(r)[x] == if keep(x) then multiset(xs)[x] else 0
    decreases |xs|
  {
    if xs == [] then []
    else
      var rest := Filter(xs[..|xs| - 1], keep);
      var last := xs[|xs| - 1];
      assert xs == xs[..|xs| - 1] + [last];
      if keep(last) then rest + [last] else rest
  }

  /** `r` is obtained from `xs` by deleting elements, without reordering. */
  ghost predicate SubsequenceOf<T>(r: seq<T>, xs: seq<T>)
    decreases |xs|
  {
    if r == [] then true
    else if xs == [] then false
    else (r[|r| - 1] == xs[|xs| - 1] && SubsequenceOf(r[..|r| - 1], xs[..|xs| - 1]))
         || SubsequenceOf(r, xs[..|xs| - 1])
  }

  /** Deleting nothing is a subsequence. */
  lemma {:induction false} SubsequenceOfItself<T>(xs: seq<T>)
    ensures SubsequenceOf(xs, xs)
    decreases |xs|
  {
    if xs != [] {
      SubsequenceOfItself(xs[..|xs| - 1]);
    }
  }

  /** Filtering a sequence extended by one element filters the sequence, then that element. */
  lemma FilterSnoc<T(!new)>(xs: seq<T>, x: T, keep: T -> bool)
    ensures Filter(xs + [x], keep) == if keep(x) then Filter(xs, keep) + [x] else Filter(xs, keep)
  {
    assert (xs + [x])[..|xs|] == xs;
  }

  /** Filtering keeps the order of what it keeps. */
  lemma {:induction false} FilterIsSubsequence<T(!new)>(xs: seq<T>, keep: T -> bool)
    ensures SubsequenceOf(Filter(xs, keep), xs)
    decreases |xs|
  {
    if xs != [] {
      var init := xs[..|xs| - 1];
      FilterIsSubsequence(init, keep);
      var r := Filter(xs, keep);
      if keep(xs[|xs| - 1]) {
        assert r[..|r| - 1] == Filter(init, keep);
      }
    }
  }

  /** Filtering with a condition every element meets changes nothing. */
  lemma {:induction false} FilterAll<T(!new)>(xs: seq<T>, keep: T -> bool)
    requires forall x :: x in xs ==> keep(x)
    ensures Filter(xs, keep) == xs
    decreases |xs|
  {
    if xs != [] {
      var init, last := xs[..|xs| - 1], xs[|xs| - 1];
      assert xs == init + [last];
      FilterAll(init, keep);
      FilterSnoc(init, last, keep);
    }
  }

  /** Two conditions that agree on every element filter alike. */
  lemma {:induction false} FilterCongruent<T(!new)>(xs: seq<T>, p: T -> bool, q: T -> bool)
    requires forall x :: x in xs ==> p(x) == q(x)
    ensures Filter(xs, p) == Filter(xs, q)
    decreases |xs|
  {
    if xs != [] {
      var init := xs[..|xs| - 1];
      assert forall x :: x in init ==> x in xs;
      FilterCongruent(init, p, q);
    }
  }

  /** `xs.map(f)`. */
  function Map<T, U>(xs: seq<T>, f: T -> U): (r: seq<U>)
    ensures |r| == |xs|
    ensures forall i :: 0 <= i < |xs| ==> r[i] == f(xs[i])
  {
    seq(|xs|, i requires 0 <= i < |xs| => f(xs[i]))
  }

  /** Mapping a sequence extended by one element maps that element last. */
  lemma MapSnoc<T, U>(xs: seq<T>, x: T, f: T -> U)
    ensures Map(xs + [x], f) == Map(xs, f) + [f(x)]
  {
    var m, n := Map(xs + [x], f), Map(xs, f) + [f(x)];
    forall i | 0 <= i < |m| ensures m[i] == n[i] {
      if i < |xs| {
        assert (xs + [x])[i] == xs[i];
      }
    }
  }

  /** Filtering then mapping a sequence extended by one element handles that element last. */
  lemma MapFilterSnoc<T(!new), U>(xs: seq<T>, x: T, keep: T -> bool, f: T -> U)
    ensures Map(Filter(xs + [x], keep), f) == Map(Filter(xs, keep), f) + if keep(x) then [f(x)] else []
  {
    FilterSnoc(xs, x, keep);
    if keep(x) {
      MapSnoc(Filter(xs, keep), x, f);
    }
  }

  /** `xs.some(p)`. */
  predicate Any<T>(xs: seq<T>, p: T -> bool) {
    exists i :: 0 <= i < |xs| && p(xs[i])
  }

  /** Index of the first element satisfying `p`, or -1 when there is none. */
  function FirstIndex<T>(xs: seq<T>, p: T -> bool): (k: int)
    ensures -1 <= k < |xs|
    ensures k == -1 <==> forall i :: 0 <= i < |xs| ==> !p(xs[i])
    ensures k >= 0 ==> p(xs[k]) && forall i :: 0 <= i < k ==> !p(xs[i])
    decreases |xs|
  {
    if xs == [] then -1
    else if p(xs[0]) then 0
    else
      var k := FirstIndex(xs[1..], p);
      assert forall i :: 1 <= i < |xs| ==> xs[i] == xs[1..][i - 1];
      if k == -1 then -1 else k + 1
  }

  /** `const [row] = rows`: the first row satisfying `p`, or `undefined`. */
  function First<T(!new)>(xs: seq<T>, p: T -> bool): (r: Option<T>)
    ensures r.None? <==> forall x :: x in xs ==> !p(x)
    ensures r.Some? ==> r.value in xs && p(r.value)
  {
    var k := FirstIndex(xs, p);
    if k == -1 then None else Some(xs[k])
  }

  /** `xs.includes(x)`: a linear scan for `x`. */
  function Includes<T(==)>(xs: seq<T>, x: T): (r: bool)
    ensures r <==> x in xs
    decreases |xs|
  {
    if xs == [] then false
    else if xs[0] == x then true
    else
      var rest := Includes(xs[1..], x);
      assert x in xs <==> x == xs[0] || x in xs[1..];
      rest
  }

  /** Every element's key is no larger than the keys after it. */
  ghost predicate SortedBy<T>(xs: seq<T>, key: T -> int) {
    forall i, j :: 0 <= i < j < |xs| ==> key(xs[i]) <= key(xs[j])
  }

  /** Dropping the first element keeps a sequence sorted. */
  lemma SortedTail<T>(xs: seq<T>, key: T -> int)
    requires |xs| > 0 && SortedBy(xs, key)
    ensures SortedBy(xs[1..], key)
  {
    forall i, j | 0 <= i < j < |xs| - 1 ensures key(xs[1..][i]) <= key(xs[1..][j]) {
      assert xs[1..][i] == xs[i + 1] && xs[1..][j] == xs[j + 1];
    }
  }

  /** An element no larger than any of a sorted sequence can go in front of it. */
  lemma SortedCons<T>(a: T, rest: seq<T>, key: T -> int)
    requires SortedBy(rest, key)
    requires forall k :: 0 <= k < |rest| ==> key(a) <= key(rest[k])
    ensures SortedBy([a] + rest, key)
  {
    forall i, j | 0 <= i < j < |rest| + 1 ensures key(([a] + rest)[i]) <= key(([a] + rest)[j]) {
      assert ([a] + rest)[j] == rest[j - 1];
      if i > 0 {
        assert ([a] + rest)[i] == rest[i - 1];
      }
    }
  }

  /** Inserts `x` into the sorted `xs` in front of the first element with a larger key. */
  function Insert<T>(x: T, xs: seq<T>, key: T -> int): (r: seq<T>)
    requires SortedBy(xs, key)
    ensures SortedBy(r, key)
    ensures multiset(r) == multiset(xs) + multiset{x}
    decreases |xs|
  {
    if xs == [] || key(x) <= key(xs[0]) then
      SortedCons(x, xs, key);
      [x] + xs
    else
      SortedTail(xs, key);
      var rest := Insert(x, xs[1..], key);
      assert xs == [xs[0]] + xs[1..];
      forall k | 0 <= k < |rest| ensures key(xs[0]) <= key(rest[k]) {
        assert rest[k] in multiset(rest);
        if rest[k] != x {
          assert rest[k] in multiset(xs[1..]);
          var j :| 0 <= j < |xs[1..]| && xs[1..][j] == rest[k];
          assert xs[j + 1] == rest[k];
        }
      }
      SortedCons(xs[0], rest, key);
      [xs[0]] + rest
  }

  /** `ORDER BY key ASC`: the rows rearranged so that keys never decrease. */
  function SortBy<T>(xs: seq<T>, key: T -> int): (r: seq<T>)
    ensures SortedBy(r, key)
    ensures multiset(r) == multiset(xs)
    decreases |xs|
  {
    if xs == [] then []
    else
      var r := Insert(xs[0], SortBy(xs[1..], key), key);
      assert xs == [xs[0]] + xs[1..];
      r
  }

  /** Sorting rows that are already in key order leaves them where they are. */
  lemma {:induction false} SortBySorted<T>(xs: seq<T>, key: T -> int)
    requires SortedBy(xs, key)
    ensures SortBy(xs, key) == xs
    decreases |xs|
  {
    if xs != [] {
      var rest := xs[1..];
      assert SortedBy(rest, key) by {
        forall i, j | 0 <= i < j < |rest| ensures key(rest[i]) <= key(rest[j]) {
          assert rest[i] == xs[i + 1] && rest[j] == xs[j + 1];
        }
      }
      SortBySorted(rest, key);
      assert xs == [xs[0]] + rest;
    }
  }
}
