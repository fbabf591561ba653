/** `Array.prototype.filter` over a sequence, with the facts that pin it
    down: it keeps exactly the elements that pass, each as often as it
    occurs, and it distributes over concatenation, so the kept elements
    stay in input order. */
module Seqs {

  /** `xs.filter(p)`. */
  function Filter<T(!new)>(xs: seq<T>, p: T -> bool): (r: seq<T>)
    ensures |r| <= |xs|
    ensures forall k :: 0 <= k < |r| ==> p(r[k])
    ensures forall x :: multiset(r)[x] == if p(x) then multiset(xs)[x] else 0
  {
    if |xs| == 0 then []
    else
      assert xs == [xs[0]] + xs[1..];
      var rest := Filter(xs[1..], p);
      if p(xs[0]) then [xs[0]] + rest else rest
  }

  /** Filtering a concatenation filters each part: with the one-element
      case this fixes the order of the result. */
  lemma {:induction false} FilterConcat<T(!new)>(a: seq<T>, b: seq<T>, p: T -> bool)
    ensures Filter(a + b, p) == Filter(a, p) + Filter(b, p)
  {
    if |a| == 0 {
      assert a + b == b;
    } else {
      assert (a + b)[1..] == a[1..] + b;
      FilterConcat(a[1..], b, p);
    }
  }

  /** One element is kept exactly when it passes. */
  lemma FilterSingle<T(!new)>(x: T, p: T -> bool)
    ensures Filter([x], p) == if p(x) then [x] else []
  {
    assert [x][1..] == [];
  }

  /** The number of positions of `xs` whose element passes `p`. */
  function CountWhere<T(!new)>(xs: seq<T>, p: T -> bool): nat
  {
    |set i | 0 <= i < |xs| && p(xs[i])|
  }

  /** The length of a filter is the number of passing positions. */
  lemma {:induction false} FilterLength<T(!new)>(xs: seq<T>, p: T -> bool)
    ensures |Filter(xs, p)| == CountWhere(xs, p)
  {
    if |xs| > 0 {
      var n := |xs| - 1;
      var init := xs[..n];
      FilterLength(init, p);
      assert xs == init + [xs[n]];
      FilterConcat(init, [xs[n]], p);
      assert Filter([xs[n]], p) == if p(xs[n]) then [xs[n]] else [];
      CountSnoc(init, xs[n], p);
    }
  }

  /** Appending one element adds one to the count when it passes. */
  lemma CountSnoc<T(!new)>(xs: seq<T>, x: T, p: T -> bool)
    ensures CountWhere(xs + [x], p) == CountWhere(xs, p) + if p(x) then 1 else 0
  {
    var ys := xs + [x];
    var a := set i | 0 <= i < |xs| && p(xs[i]);
    var b := set i | 0 <= i < |ys| && p(ys[i]);
    if p(x) {
      assert b == a + {|xs|};
    } else {
      assert b == a;
    }
  }

  /** Nothing passes exactly when the count is zero. */
  lemma CountZero<T(!new)>(xs: seq<T>, p: T -> bool)
    ensures CountWhere(xs, p) == 0 <==> forall k :: 0 <= k < |xs| ==> !p(xs[k])
  {
    if exists k :: 0 <= k < |xs| && p(xs[k]) {
      var k :| 0 <= k < |xs| && p(xs[k]);
      var passing := set i | 0 <= i < |xs| && p(xs[i]);
      assert k in passing;
      assert passing != {};
    } else {
      assert (set i | 0 <= i < |xs| && p(xs[i])) == {};
    }
  }
}
