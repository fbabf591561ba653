/** The stable sort of `Array.prototype.sort` with a numeric comparator
    `(a, b) => key(a) - key(b)`, as a functional insertion sort: sorted by
    key, a permutation of its input, and stable (of two elements with the
    same key, the earlier one stays first). */
module Sorting {
  import opened Seqs

  predicate SortedBy<T>(s: seq<T>, key: T -> int)
  {
    forall i, j :: 0 <= i < j < |s| ==> key(s[i]) <= key(s[j])
  }

  /** Inserts `x` in front of the first element whose key is at least
      `key(x)`. When `x` preceded every element of `s` in the input, this
      keeps equal keys in input order. */
  function InsertBy<T>(x: T, s: seq<T>, key: T -> int): (r: seq<T>)
    decreases |s|, 1
    ensures |r| == |s| + 1
    ensures multiset(r) == multiset(s) + multiset{x}
    ensures SortedBy(s, key) ==> SortedBy(r, key)
  {
    if |s| == 0 || key(x) <= key(s[0]) then [x] + s
    else
      var rest := InsertBy(x, s[1..], key);
      assert s == [s[0]] + s[1..];
      RestAboveHead(x, s, key);
      [s[0]] + rest
  }

  /** After the head of a sorted `s`, the insertion of a larger `x` holds
      only keys at least the head's. */
  lemma RestAboveHead<T>(x: T, s: seq<T>, key: T -> int)
    requires |s| > 0 && key(x) > key(s[0])
    decreases |s|, 0
    ensures SortedBy(s, key) ==> forall i :: 0 <= i < |InsertBy(x, s[1..], key)| ==>
                                    key(s[0]) <= key(InsertBy(x, s[1..], key)[i])
  {
    var rest := InsertBy(x, s[1..], key);
    if SortedBy(s, key) {
      forall i | 0 <= i < |rest|
        ensures key(s[0]) <= key(rest[i])
      {
        assert rest[i] in multiset(rest);
        if rest[i] != x {
          assert rest[i] in multiset(s[1..]);
          var j :| 0 <= j < |s[1..]| && s[1..][j] == rest[i];
          assert s[j + 1] == rest[i];
        }
      }
    }
  }

  /** `xs.slice().sort((a, b) => key(a) - key(b))`. */
  function SortBy<T>(xs: seq<T>, key: T -> int): (r: seq<T>)
    ensures |r| == |xs|
    ensures multiset(r) == multiset(xs)
    ensures SortedBy(r, key)
  {
    if |xs| == 0 then []
    else
      assert xs == [xs[0]] + xs[1..];
      InsertBy(xs[0], SortBy(xs[1..], key), key)
  }

  /** Index of the first element with the smallest key. */
  function FirstMinIndex<T>(xs: seq<T>, key: T -> int): (i: nat)
    requires |xs| > 0
    ensures i < |xs|
    ensures forall j :: 0 <= j < |xs| ==> key(xs[i]) <= key(xs[j])
    ensures forall j :: 0 <= j < i ==> key(xs[j]) > key(xs[i])
  {
    if |xs| == 1 then 0
    else
      var k := FirstMinIndex(xs[1..], key);
      if key(xs[0]) <= key(xs[1..][k]) then 0 else k + 1
  }

  /** The head of an insertion keeps `x` when its key is at most the
      current head's. */
  lemma InsertHead<T>(x: T, s: seq<T>, key: T -> int)
    ensures |s| == 0 || key(x) <= key(s[0]) ==> InsertBy(x, s, key)[0] == x
    ensures |s| > 0 && key(x) > key(s[0]) ==> InsertBy(x, s, key)[0] == s[0]
  {
  }

  /** Stability at the front: the first element of the sorted sequence is
      the earliest element with the smallest key. */
  lemma {:induction false} SortHeadIsFirstMin<T>(xs: seq<T>, key: T -> int)
    requires |xs| > 0
    ensures SortBy(xs, key)[0] == xs[FirstMinIndex(xs, key)]
  {
    if |xs| > 1 {
      var rest := SortBy(xs[1..], key);
      SortHeadIsFirstMin(xs[1..], key);
      InsertHead(xs[0], rest, key);
    }
  }

  /** The test "has key `k`". */
  function KeyIs<T>(key: T -> int, k: int): T -> bool
  {
    (x: T) => key(x) == k
  }

  /** Inserting `x` puts it in front of every element with the same key. */
  lemma {:induction false} InsertStable<T(!new)>(x: T, s: seq<T>, key: T -> int, k: int)
    decreases |s|
    ensures Filter(InsertBy(x, s, key), KeyIs(key, k)) == Filter([x], KeyIs(key, k)) + Filter(s, KeyIs(key, k))
  {
    var p := KeyIs(key, k);
    if |s| == 0 || key(x) <= key(s[0]) {
      FilterConcat([x], s, p);
    } else {
      var rest := InsertBy(x, s[1..], key);
      assert InsertBy(x, s, key) == [s[0]] + rest;
      InsertStable(x, s[1..], key, k);
      FilterPastOther(s[0], x, rest, Filter(s[1..], p), p);
      FilterConcat([s[0]], s[1..], p);
      assert [s[0]] + s[1..] == s;
    }
  }

  /** An element that fails `p`, or that `z` fails against, lets `z` pass
      in front of it. */
  lemma FilterPastOther<T(!new)>(y: T, z: T, rest: seq<T>, t: seq<T>, p: T -> bool)
    requires !(p(y) && p(z))
    requires Filter(rest, p) == Filter([z], p) + t
    ensures Filter([y] + rest, p) == Filter([z], p) + (Filter([y], p) + t)
  {
    FilterConcat([y], rest, p);
    FilterSingle(y, p);
    FilterSingle(z, p);
    var fy, fz := Filter([y], p), Filter([z], p);
    if p(y) {
      assert fz == [];
      assert fy + (fz + t) == fz + (fy + t);
    } else {
      assert fy == [];
      assert fy + (fz + t) == fz + (fy + t);
    }
  }

  /** Stability: the elements with any one key appear in the sorted
      sequence in the order they had in the input. */
  lemma {:induction false} SortStable<T(!new)>(xs: seq<T>, key: T -> int, k: int)
    ensures Filter(SortBy(xs, key), KeyIs(key, k)) == Filter(xs, KeyIs(key, k))
  {
    if |xs| > 0 {
      var p := KeyIs(key, k);
      var tail := xs[1..];
      var sortedTail := SortBy(tail, key);
      assert SortBy(xs, key) == InsertBy(xs[0], sortedTail, key);
      SortStable(tail, key, k);
      InsertStable(xs[0], sortedTail, key, k);
      assert xs == [xs[0]] + tail;
      FilterConcat([xs[0]], tail, p);
    }
  }
}
