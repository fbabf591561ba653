/** Grouping a sequence by a string key, as the room grid's `reduce` into
    an object of arrays does: one group per key in order of first
    appearance, each holding its elements in input order, and
    `flatMap` over the groups, which gives back a permutation of the input
    however the groups are reordered. */
module Grouping {
  import opened Maybe

  /** One entry of the grouping object: a key and its elements. */
  datatype Group<T> = Group(key: string, members: seq<T>)

  /** The elements of `xs` whose key is `k`, in input order. */
  function Having<T(==)>(xs: seq<T>, key: T -> string, k: string): (r: seq<T>)
    ensures |r| <= |xs|
    ensures forall i :: 0 <= i < |r| ==> key(r[i]) == k
  {
    if |xs| == 0 then []
    else Having(xs[..|xs| - 1], key, k) + if key(xs[|xs| - 1]) == k then [xs[|xs| - 1]] else []
  }

  lemma HavingSnoc<T>(xs: seq<T>, x: T, key: T -> string, k: string)
    ensures Having(xs + [x], key, k) == Having(xs, key, k) + if key(x) == k then [x] else []
  {
    assert (xs + [x])[..|xs|] == xs;
  }

  /** A key no element has selects nothing. */
  lemma {:induction false} HavingAbsent<T>(xs: seq<T>, key: T -> string, k: string)
    requires forall i :: 0 <= i < |xs| ==> key(xs[i]) != k
    ensures Having(xs, key, k) == []
  {
    if |xs| > 0 {
      HavingAbsent(xs[..|xs| - 1], key, k);
    }
  }

  /** `groups.flatMap(([key, arr]) => arr)`. */
  function Flatten<T(==)>(g: seq<Group<T>>): (r: seq<T>)
  {
    if |g| == 0 then [] else g[0].members + Flatten(g[1..])
  }

  lemma {:induction false} FlattenConcat<T>(a: seq<Group<T>>, b: seq<Group<T>>)
    ensures Flatten(a + b) == Flatten(a) + Flatten(b)
  {
    if |a| == 0 {
      assert a + b == b;
    } else {
      assert (a + b)[0] == a[0];
      assert (a + b)[1..] == a[1..] + b;
      FlattenConcat(a[1..], b);
    }
  }

  /** Replacing one group's members changes the flattened multiset by
      exactly the members replaced. */
  lemma {:induction false} FlattenReplace<T>(g: seq<Group<T>>, i: nat, s: seq<T>)
    requires i < |g|
    ensures multiset(Flatten(g[i := Group(g[i].key, s)])) + multiset(g[i].members)
         == multiset(Flatten(g)) + multiset(s)
  {
    var h := g[i := Group(g[i].key, s)];
    if i == 0 {
      assert h[1..] == g[1..];
    } else {
      var t := g[1..];
      assert t[i - 1] == g[i];
      var ht := t[i - 1 := Group(t[i - 1].key, s)];
      assert h[1..] == ht;
      FlattenReplace(t, i - 1, s);
      assert Flatten(h) == g[0].members + Flatten(ht);
      assert Flatten(g) == g[0].members + Flatten(t);
      var a, b, c, d, e := multiset(g[0].members), multiset(Flatten(ht)), multiset(g[i].members),
                           multiset(Flatten(t)), multiset(s);
      assert b + c == d + e;
      assert multiset(Flatten(h)) + c == (a + b) + c == a + (b + c) == a + (d + e) == (a + d) + e;
    }
  }

  /** Groups that hold permutations of each other's members flatten to
      permutations of each other. */
  lemma {:induction false} FlattenPointwise<T>(g: seq<Group<T>>, h: seq<Group<T>>)
    requires |g| == |h|
    requires forall i :: 0 <= i < |g| ==> multiset(g[i].members) == multiset(h[i].members)
    ensures multiset(Flatten(g)) == multiset(Flatten(h))
  {
    if |g| > 0 {
      FlattenPointwise(g[1..], h[1..]);
    }
  }

  lemma WithoutOne<T>(b: seq<T>, j: nat)
    requires j < |b|
    ensures multiset(b[..j] + b[j + 1..]) == multiset(b) - multiset{b[j]}
  {
    assert b == b[..j] + [b[j]] + b[j + 1..];
  }

  /** Flattening around one group: its members plus the rest. */
  lemma FlattenAround<T>(b: seq<Group<T>>, j: nat)
    requires j < |b|
    ensures multiset(Flatten(b)) == multiset(b[j].members) + multiset(Flatten(b[..j] + b[j + 1..]))
  {
    FlattenSplitAt(b, j);
    FlattenConcat(b[..j], b[j + 1..]);
  }

  /** Flattening splits at one group. */
  lemma FlattenSplitAt<T>(b: seq<Group<T>>, j: nat)
    requires j < |b|
    ensures Flatten(b) == Flatten(b[..j]) + (b[j].members + Flatten(b[j + 1..]))
  {
    var left, m := b[..j], b[j..];
    assert m[0] == b[j] && m[1..] == b[j + 1..];
    assert b == left + m;
    FlattenConcat(left, m);
  }

  /** Reordering the groups reorders the flattened sequence. */
  lemma {:induction false} FlattenPermutation<T>(a: seq<Group<T>>, b: seq<Group<T>>)
    requires multiset(a) == multiset(b)
    decreases |a|
    ensures multiset(Flatten(a)) == multiset(Flatten(b))
  {
    if |a| == 0 {
      assert |b| == |multiset(b)| == 0;
    } else {
      var j := PickMatch(a, b);
      FlattenPermutation(a[1..], b[..j] + b[j + 1..]);
      FlattenAround(b, j);
    }
  }

  /** The first element of `a` sits somewhere in a permutation `b`, and
      the rests are permutations of each other. */
  lemma PickMatch<T>(a: seq<T>, b: seq<T>) returns (j: nat)
    requires multiset(a) == multiset(b) && |a| > 0
    ensures j < |b| && b[j] == a[0]
    ensures multiset(a[1..]) == multiset(b[..j] + b[j + 1..])
  {
    assert a[0] in multiset(b);
    j :| 0 <= j < |b| && b[j] == a[0];
    assert a == [a[0]] + a[1..];
    WithoutOne(b, j);
  }

  /** Index of the group filed under `k`, if any. */
  function IndexOfKey<T(==)>(g: seq<Group<T>>, k: string): (r: Option<nat>)
    ensures r.Some? ==> r.value < |g| && g[r.value].key == k
    ensures r.None? ==> forall i :: 0 <= i < |g| ==> g[i].key != k
  {
    if |g| == 0 then None
    else if g[|g| - 1].key == k then Some(|g| - 1)
    else IndexOfKey(g[..|g| - 1], k)
  }

  predicate HasGroup<T(==)>(g: seq<Group<T>>, k: string)
  {
    exists i :: 0 <= i < |g| && g[i].key == k
  }

  predicate DistinctKeys<T(==)>(g: seq<Group<T>>)
  {
    forall i, j :: 0 <= i < j < |g| ==> g[i].key != g[j].key
  }

  /** Each group holds the elements of its key in input order. */
  predicate Filed<T(==)>(g: seq<Group<T>>, xs: seq<T>, key: T -> string)
  {
    forall i :: 0 <= i < |g| ==> g[i].members == Having(xs, key, g[i].key)
  }

  /** Every element's key has a group. */
  predicate Covers<T(==)>(g: seq<Group<T>>, xs: seq<T>, key: T -> string)
  {
    forall i :: 0 <= i < |xs| ==> HasGroup(g, key(xs[i]))
  }

  /** `g` groups `xs` by `key`: one group per key, each holding the
      elements of that key in input order, together exactly the elements
      of `xs`. */
  predicate IsGrouping<T(==)>(g: seq<Group<T>>, xs: seq<T>, key: T -> string)
  {
    DistinctKeys(g) && Filed(g, xs, key) && Covers(g, xs, key) && multiset(Flatten(g)) == multiset(xs)
  }

  /** A key that has no group has no element. */
  lemma UncoveredKeyIsAbsent<T>(g: seq<Group<T>>, xs: seq<T>, key: T -> string, k: string)
    requires Covers(g, xs, key)
    requires forall i :: 0 <= i < |g| ==> g[i].key != k
    ensures Having(xs, key, k) == []
  {
    forall i | 0 <= i < |xs|
      ensures key(xs[i]) != k
    {
      assert HasGroup(g, key(xs[i]));
    }
    HavingAbsent(xs, key, k);
  }

  lemma NewKeyFiled<T>(g: seq<Group<T>>, xs: seq<T>, x: T, key: T -> string)
    requires Filed(g, xs, key) && Covers(g, xs, key)
    requires forall i :: 0 <= i < |g| ==> g[i].key != key(x)
    ensures Filed(g + [Group(key(x), [x])], xs + [x], key)
  {
    var h := g + [Group(key(x), [x])];
    UncoveredKeyIsAbsent(g, xs, key, key(x));
    forall i | 0 <= i < |h|
      ensures h[i].members == Having(xs + [x], key, h[i].key)
    {
      HavingSnoc(xs, x, key, h[i].key);
      if i < |g| {
        assert h[i] == g[i];
      }
    }
  }

  lemma NewKeyCovers<T>(g: seq<Group<T>>, xs: seq<T>, x: T, key: T -> string)
    requires Covers(g, xs, key)
    ensures Covers(g + [Group(key(x), [x])], xs + [x], key)
  {
    var ys := xs + [x];
    var h := g + [Group(key(x), [x])];
    forall k | 0 <= k < |ys|
      ensures HasGroup(h, key(ys[k]))
    {
      if k < |xs| {
        assert ys[k] == xs[k];
        assert HasGroup(g, key(xs[k]));
        var i :| 0 <= i < |g| && g[i].key == key(xs[k]);
        assert h[i] == g[i];
      } else {
        assert h[|g|].key == key(x);
      }
    }
  }

  /** An element of a new key opens a group at the end. */
  lemma GroupNewKey<T>(g: seq<Group<T>>, xs: seq<T>, x: T, key: T -> string)
    requires IsGrouping(g, xs, key)
    requires forall i :: 0 <= i < |g| ==> g[i].key != key(x)
    ensures IsGrouping(g + [Group(key(x), [x])], xs + [x], key)
  {
    var h := g + [Group(key(x), [x])];
    assert DistinctKeys(h);
    NewKeyFiled(g, xs, x, key);
    NewKeyCovers(g, xs, x, key);
    FlattenConcat(g, [Group(key(x), [x])]);
    assert Flatten([Group(key(x), [x])]) == [x];
  }

  lemma KnownKeyFiled<T>(g: seq<Group<T>>, xs: seq<T>, x: T, key: T -> string, i: nat)
    requires DistinctKeys(g) && Filed(g, xs, key)
    requires i < |g| && g[i].key == key(x)
    ensures Filed(g[i := Group(g[i].key, g[i].members + [x])], xs + [x], key)
  {
    var h := g[i := Group(g[i].key, g[i].members + [x])];
    forall j | 0 <= j < |h|
      ensures h[j].members == Having(xs + [x], key, h[j].key)
    {
      HavingSnoc(xs, x, key, h[j].key);
      if j < i {
        assert g[j].key != g[i].key;
      } else if j > i {
        assert g[i].key != g[j].key;
      }
    }
  }

  lemma KnownKeyCovers<T>(g: seq<Group<T>>, xs: seq<T>, x: T, key: T -> string, i: nat)
    requires Covers(g, xs, key)
    requires i < |g| && g[i].key == key(x)
    ensures Covers(g[i := Group(g[i].key, g[i].members + [x])], xs + [x], key)
  {
    var ys := xs + [x];
    var h := g[i := Group(g[i].key, g[i].members + [x])];
    forall k | 0 <= k < |ys|
      ensures HasGroup(h, key(ys[k]))
    {
      if k < |xs| {
        assert ys[k] == xs[k];
        assert HasGroup(g, key(xs[k]));
        var j :| 0 <= j < |g| && g[j].key == key(xs[k]);
        assert h[j].key == g[j].key;
      } else {
        assert h[i].key == key(x);
      }
    }
  }

  /** An element of a known key joins the end of that key's group. */
  lemma GroupKnownKey<T>(g: seq<Group<T>>, xs: seq<T>, x: T, key: T -> string, i: nat)
    requires IsGrouping(g, xs, key)
    requires i < |g| && g[i].key == key(x)
    ensures IsGrouping(g[i := Group(g[i].key, g[i].members + [x])], xs + [x], key)
  {
    var h := g[i := Group(g[i].key, g[i].members + [x])];
    assert DistinctKeys(h) by {
      forall a, b | 0 <= a < b < |h|
        ensures h[a].key != h[b].key
      {
        assert h[a].key == g[a].key && h[b].key == g[b].key;
      }
    }
    KnownKeyFiled(g, xs, x, key, i);
    KnownKeyCovers(g, xs, x, key, i);
    KnownKeyFlatten(g, xs, x, i);
  }

  lemma KnownKeyFlatten<T>(g: seq<Group<T>>, xs: seq<T>, x: T, i: nat)
    requires multiset(Flatten(g)) == multiset(xs)
    requires i < |g|
    ensures multiset(Flatten(g[i := Group(g[i].key, g[i].members + [x])])) == multiset(xs + [x])
  {
    var h := g[i := Group(g[i].key, g[i].members + [x])];
    FlattenReplace(g, i, g[i].members + [x]);
    assert multiset(xs + [x]) == multiset(xs) + multiset{x};
    MultisetCancel(multiset(Flatten(h)), multiset(g[i].members), multiset(xs + [x]));
  }

  /** The same multiset added to both sides cancels. */
  lemma MultisetCancel<T>(a: multiset<T>, b: multiset<T>, c: multiset<T>)
    requires a + b == c + b
    ensures a == c
  {
    assert a == (a + b) - b;
  }

  /** One step of the `reduce`: `(acc[key(cur)] ||= []).push(cur)`. */
  function AddTo<T(==)>(g: seq<Group<T>>, x: T, key: T -> string): (h: seq<Group<T>>)
  {
    match IndexOfKey(g, key(x))
    case None => g + [Group(key(x), [x])]
    case Some(i) => g[i := Group(g[i].key, g[i].members + [x])]
  }

  lemma AddToKeepsGrouping<T>(g: seq<Group<T>>, xs: seq<T>, x: T, key: T -> string)
    requires IsGrouping(g, xs, key)
    ensures IsGrouping(AddTo(g, x, key), xs + [x], key)
  {
    match IndexOfKey(g, key(x))
    case None => GroupNewKey(g, xs, x, key);
    case Some(i) => GroupKnownKey(g, xs, x, key, i);
  }

  /** `xs.reduce((acc, cur) => { (acc[key(cur)] ||= []).push(cur); return acc; }, {})`
      with its entries in insertion order. */
  function GroupBy<T(==)>(xs: seq<T>, key: T -> string): (g: seq<Group<T>>)
    ensures IsGrouping(g, xs, key)
  {
    if |xs| == 0 then []
    else
      var init := xs[..|xs| - 1];
      assert init + [xs[|xs| - 1]] == xs;
      var prev := GroupBy(init, key);
      AddToKeepsGrouping(prev, init, xs[|xs| - 1], key);
      AddTo(prev, xs[|xs| - 1], key)
  }

  /** The position of the first element of `xs` whose key is `k`, or
      `|xs|` when there is none. */
  function FirstIndexOf<T>(xs: seq<T>, key: T -> string, k: string): (n: nat)
    ensures n <= |xs|
    ensures n < |xs| ==> key(xs[n]) == k
    ensures forall q :: 0 <= q < n ==> key(xs[q]) != k
  {
    if |xs| == 0 then 0
    else if key(xs[0]) == k then 0
    else 1 + FirstIndexOf(xs[1..], key, k)
  }

  /** Appending an element moves no first position that already exists;
      a key seen for the first time is first at the appended position. */
  lemma {:induction false} FirstIndexSnoc<T>(xs: seq<T>, x: T, key: T -> string, k: string)
    ensures FirstIndexOf(xs + [x], key, k) ==
              if FirstIndexOf(xs, key, k) < |xs| then FirstIndexOf(xs, key, k)
              else if key(x) == k then |xs| else |xs| + 1
  {
    if |xs| > 0 && key(xs[0]) != k {
      assert (xs + [x])[1..] == xs[1..] + [x];
      FirstIndexSnoc(xs[1..], x, key, k);
    }
  }

  /** Every group's key appears in `xs`, and the groups are ordered by
      where their keys first appear. */
  predicate InFirstSeenOrder<T>(g: seq<Group<T>>, xs: seq<T>, key: T -> string)
  {
    && (forall i :: 0 <= i < |g| ==> FirstIndexOf(xs, key, g[i].key) < |xs|)
    && (forall i, j :: 0 <= i < j < |g| ==> FirstIndexOf(xs, key, g[i].key) < FirstIndexOf(xs, key, g[j].key))
  }

  /** Appending an element leaves the first positions of the existing
      groups' keys where they were. */
  lemma KeysStayFirstSeen<T>(g: seq<Group<T>>, xs: seq<T>, x: T, key: T -> string)
    requires InFirstSeenOrder(g, xs, key)
    ensures forall i :: 0 <= i < |g| ==> FirstIndexOf(xs + [x], key, g[i].key) == FirstIndexOf(xs, key, g[i].key)
  {
    forall i | 0 <= i < |g|
      ensures FirstIndexOf(xs + [x], key, g[i].key) == FirstIndexOf(xs, key, g[i].key)
    {
      FirstIndexSnoc(xs, x, key, g[i].key);
    }
  }

  /** Appending to a known key's group keeps the first-seen order. */
  lemma KnownKeyFirstSeen<T>(g: seq<Group<T>>, xs: seq<T>, x: T, key: T -> string, n: nat)
    requires InFirstSeenOrder(g, xs, key)
    requires n < |g| && g[n].key == key(x)
    ensures InFirstSeenOrder(g[n := Group(g[n].key, g[n].members + [x])], xs + [x], key)
  {
    KeysStayFirstSeen(g, xs, x, key);
  }

  /** A new key's group goes last, and its key is first seen last. */
  lemma NewKeyFirstSeen<T>(g: seq<Group<T>>, xs: seq<T>, x: T, key: T -> string)
    requires Covers(g, xs, key) && InFirstSeenOrder(g, xs, key)
    requires forall i :: 0 <= i < |g| ==> g[i].key != key(x)
    ensures InFirstSeenOrder(g + [Group(key(x), [x])], xs + [x], key)
  {
    KeysStayFirstSeen(g, xs, x, key);
    assert FirstIndexOf(xs, key, key(x)) == |xs| by {
      forall q | 0 <= q < |xs|
        ensures key(xs[q]) != key(x)
      {
        assert HasGroup(g, key(xs[q]));
      }
    }
    FirstIndexSnoc(xs, x, key, key(x));
  }

  /** One reduce step keeps the groups in first-seen order. */
  lemma AddToKeepsFirstSeenOrder<T>(g: seq<Group<T>>, xs: seq<T>, x: T, key: T -> string)
    requires Covers(g, xs, key) && InFirstSeenOrder(g, xs, key)
    ensures InFirstSeenOrder(AddTo(g, x, key), xs + [x], key)
  {
    match IndexOfKey(g, key(x))
    case Some(n) => KnownKeyFirstSeen(g, xs, x, key, n);
    case None => NewKeyFirstSeen(g, xs, x, key);
  }

  /** The groups come out in the order their keys first appear in the
      input, which is the insertion order of the grouping object's
      entries, and every group's key does appear. */
  lemma {:induction false} GroupByFirstSeenOrder<T>(xs: seq<T>, key: T -> string)
    ensures InFirstSeenOrder(GroupBy(xs, key), xs, key)
  {
    if |xs| > 0 {
      var init := xs[..|xs| - 1];
      assert init + [xs[|xs| - 1]] == xs;
      GroupByFirstSeenOrder(init, key);
      AddToKeepsFirstSeenOrder(GroupBy(init, key), init, xs[|xs| - 1], key);
    }
  }
}
