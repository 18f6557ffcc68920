/** The stable descending sort that scoring and both report truncations use: a
    list is ordered by a severity rank and, within it, by a number.
 */
module Sorting {

  type SortKey = (int, real)

  predicate Below(a: SortKey, b: SortKey) {
    a.0 < b.0 || (a.0 == b.0 && a.1 < b.1)
  }

  ghost predicate Descending<T>(xs: seq<T>, key: T -> SortKey) {
    forall i, j :: 0 <= i < j < |xs| ==> !Below(key(xs[i]), key(xs[j]))
  }

  /** Inserts behind everything that is not below. */
  function Insert<T>(sorted: seq<T>, x: T, key: T -> SortKey): seq<T> {
    if sorted != [] && Below(key(sorted[|sorted| - 1]), key(x))
    then Insert(sorted[..|sorted| - 1], x, key) + [sorted[|sorted| - 1]]
    else sorted + [x]
  }

  function SortDescending<T>(xs: seq<T>, key: T -> SortKey): seq<T> {
    if xs == [] then [] else Insert(SortDescending(xs[..|xs| - 1], key), xs[|xs| - 1], key)
  }

  /** The elements with one given key, in order. */
  ghost function WithKey<T>(xs: seq<T>, key: T -> SortKey, k: SortKey): seq<T> {
    if xs == [] then []
    else WithKey(xs[..|xs| - 1], key, k) + (if key(xs[|xs| - 1]) == k then [xs[|xs| - 1]] else [])
  }

  lemma {:induction false} InsertPermutes<T>(sorted: seq<T>, x: T, key: T -> SortKey)
    ensures multiset(Insert(sorted, x, key)) == multiset(sorted) + multiset{x}
    ensures |Insert(sorted, x, key)| == |sorted| + 1
  {
    if sorted != [] && Below(key(sorted[|sorted| - 1]), key(x)) {
      InsertPermutes(sorted[..|sorted| - 1], x, key);
      assert sorted == sorted[..|sorted| - 1] + [sorted[|sorted| - 1]];
    }
  }

  lemma {:induction false} SortPermutes<T>(xs: seq<T>, key: T -> SortKey)
    ensures multiset(SortDescending(xs, key)) == multiset(xs)
    ensures |SortDescending(xs, key)| == |xs|
  {
    if xs != [] {
      var before, last := xs[..|xs| - 1], xs[|xs| - 1];
      assert xs == before + [last];
      SortPermutes(before, key);
      InsertPermutes(SortDescending(before, key), last, key);
    }
  }

  lemma {:induction false} InsertDescends<T>(sorted: seq<T>, x: T, key: T -> SortKey)
    requires Descending(sorted, key)
    ensures Descending(Insert(sorted, x, key), key)
  {
    if sorted != [] && Below(key(sorted[|sorted| - 1]), key(x)) {
      var front, last := sorted[..|sorted| - 1], sorted[|sorted| - 1];
      InsertDescends(front, x, key);
      var inserted := Insert(front, x, key);
      InsertPermutes(front, x, key);
      forall i | 0 <= i < |inserted| ensures !Below(key(inserted[i]), key(last)) {
        assert inserted[i] in multiset(inserted);
        assert inserted[i] == x || inserted[i] in front;
      }
    }
  }

  lemma {:induction false} SortDescends<T>(xs: seq<T>, key: T -> SortKey)
    ensures Descending(SortDescending(xs, key), key)
  {
    if xs != [] {
      SortDescends(xs[..|xs| - 1], key);
      InsertDescends(SortDescending(xs[..|xs| - 1], key), xs[|xs| - 1], key);
    }
  }

  lemma {:induction false} SortedStays<T>(xs: seq<T>, key: T -> SortKey)
    requires Descending(xs, key)
    ensures SortDescending(xs, key) == xs
  {
    if xs != [] {
      SortedStays(xs[..|xs| - 1], key);
    }
  }

  lemma {:induction false} WithKeyAppends<T>(xs: seq<T>, ys: seq<T>, key: T -> SortKey, k: SortKey)
    ensures WithKey(xs + ys, key, k) == WithKey(xs, key, k) + WithKey(ys, key, k)
  {
    if ys == [] {
      assert xs + ys == xs;
    } else {
      assert (xs + ys)[..|xs + ys| - 1] == xs + ys[..|ys| - 1];
      WithKeyAppends(xs, ys[..|ys| - 1], key, k);
    }
  }

  lemma {:induction false} InsertIsStable<T>(sorted: seq<T>, x: T, key: T -> SortKey, k: SortKey)
    requires Descending(sorted, key)
    ensures WithKey(Insert(sorted, x, key), key, k) == WithKey(sorted + [x], key, k)
  {
    if sorted != [] && Below(key(sorted[|sorted| - 1]), key(x)) {
      var front, last := sorted[..|sorted| - 1], sorted[|sorted| - 1];
      InsertIsStable(front, x, key, k);
      WithKeyAppends(Insert(front, x, key), [last], key, k);
      WithKeyAppends(front, [x], key, k);
      WithKeyAppends(sorted, [x], key, k);
      assert key(last) != key(x);
      assert WithKey([x], key, k) == (if key(x) == k then [x] else []);
      assert WithKey([last], key, k) == (if key(last) == k then [last] else []);
    }
  }

  /** Elements with equal keys keep their order. */
  lemma {:induction false} SortIsStable<T>(xs: seq<T>, key: T -> SortKey, k: SortKey)
    ensures WithKey(SortDescending(xs, key), key, k) == WithKey(xs, key, k)
  {
    if xs != [] {
      var sorted := SortDescending(xs[..|xs| - 1], key);
      SortIsStable(xs[..|xs| - 1], key, k);
      SortDescends(xs[..|xs| - 1], key);
      InsertIsStable(sorted, xs[|xs| - 1], key, k);
      assert (sorted + [xs[|xs| - 1]])[..|sorted|] == sorted;
    }
  }

  /** Permutations can be taken apart: the last element of one list sits
      somewhere in the other, and the remaining lists are permutations too. */
  lemma TakeOutLast<T>(xs: seq<T>, ys: seq<T>) returns (left: seq<T>, right: seq<T>)
    requires multiset(xs) == multiset(ys) && xs != []
    ensures ys == left + [xs[|xs| - 1]] + right
    ensures multiset(xs[..|xs| - 1]) == multiset(left + right)
  {
    var front, last := xs[..|xs| - 1], xs[|xs| - 1];
    assert xs == front + [last];
    assert last in multiset(ys);
    var i :| 0 <= i < |ys| && ys[i] == last;
    left, right := ys[..i], ys[i + 1..];
    assert ys == left + [last] + right;
    assert multiset(front) == multiset(xs) - multiset{last};
    assert multiset(left + right) == multiset(ys) - multiset{last};
  }

  lemma PermutationsHaveOneLength<T>(xs: seq<T>, ys: seq<T>)
    requires multiset(xs) == multiset(ys)
    ensures |xs| == |ys|
  {
    assert |multiset(xs)| == |xs| && |multiset(ys)| == |ys|;
  }
}
