/** Sequence helpers shared by the table model: first-index lookup, filtering,
    and de-duplication that keeps first occurrences (pandas `unique`). */
module Seqs {

  /** Position of the first `x` in `xs`, or `|xs|` when there is none. */
  function IndexOf<T(==)>(xs: seq<T>, x: T): (k: nat)
    ensures k <= |xs|
    ensures k < |xs| <==> x in xs
    ensures k < |xs| ==> xs[k] == x
    ensures forall j | 0 <= j < k :: xs[j] != x
  {
    if |xs| == 0 then 0
    else if xs[0] == x then 0
    else 1 + IndexOf(xs[1..], x)
  }

  /** Appending an element does not move the first occurrence of one already present. */
  lemma IndexOfAppend<T>(xs: seq<T>, y: T, x: T)
    requires x in xs
    ensures IndexOf(xs + [y], x) == IndexOf(xs, x)
  {
    var i := IndexOf(xs, x);
    assert (xs + [y])[i] == x;
    var k := IndexOf(xs + [y], x);
    assert k <= i;
    assert xs[k] == x;
  }

  ghost predicate Distinct<T>(xs: seq<T>) {
    forall i, j | 0 <= i < j < |xs| :: xs[i] != xs[j]
  }

  /** The elements of `xs` that satisfy `p`, in their original order. */
  function Filter<T>(xs: seq<T>, p: T -> bool): (r: seq<T>)
    ensures |r| <= |xs|
    ensures forall x | x in r :: x in xs && p(x)
    ensures forall x | x in xs && p(x) :: x in r
  {
    if |xs| == 0 then []
    else
      var rest := Filter(xs[1..], p);
      assert xs == [xs[0]] + xs[1..];
      if p(xs[0]) then [xs[0]] + rest else rest
  }

  /** Filtering a sequence with a known first element. */
  lemma FilterCons<T>(x: T, xs: seq<T>, p: T -> bool)
    ensures Filter([x] + xs, p) == (if p(x) then [x] else []) + Filter(xs, p)
  {
    assert ([x] + xs)[1..] == xs;
  }

  /** Filtering with a predicate that holds everywhere keeps the sequence. */
  lemma {:induction false} FilterAll<T>(xs: seq<T>, p: T -> bool)
    requires forall x | x in xs :: p(x)
    ensures Filter(xs, p) == xs
  {
    if |xs| > 0 {
      FilterAll(xs[1..], p);
      assert xs == [xs[0]] + xs[1..];
    }
  }

  /** Filtering a concatenation filters each part. */
  lemma {:induction false} FilterConcat<T>(xs: seq<T>, ys: seq<T>, p: T -> bool)
    ensures Filter(xs + ys, p) == Filter(xs, p) + Filter(ys, p)
  {
    if |xs| > 0 {
      var zs := xs + ys;
      var head := if p(xs[0]) then [xs[0]] else [];
      var fa, fb := Filter(xs[1..], p), Filter(ys, p);
      assert Filter(zs, p) == head + (fa + fb) by {
        assert zs[0] == xs[0] && zs[1..] == xs[1..] + ys;
        FilterConcat(xs[1..], ys, p);
      }
      assert Filter(xs, p) == head + fa;
      assert head + (fa + fb) == (head + fa) + fb;
    } else {
      assert xs + ys == ys;
    }
  }

  /** Filtering twice with the same predicate is filtering once. */
  lemma {:induction false} FilterTwice<T>(xs: seq<T>, p: T -> bool)
    ensures Filter(Filter(xs, p), p) == Filter(xs, p)
  {
    FilterAll(Filter(xs, p), p);
  }

  /** Filtering depends only on the predicate's values on the elements. */
  lemma {:induction false} FilterCongruent<T>(xs: seq<T>, p: T -> bool, q: T -> bool)
    requires forall x | x in xs :: p(x) == q(x)
    ensures Filter(xs, p) == Filter(xs, q)
  {
    if |xs| > 0 {
      FilterCongruent(xs[1..], p, q);
      assert xs[0] in xs;
    }
  }

  /** The distinct elements of `xs`, each at the place of its first occurrence. */
  function Unique<T(==)>(xs: seq<T>): (r: seq<T>)
    ensures Distinct(r)
    ensures forall x | x in r :: x in xs
    ensures forall x | x in xs :: x in r
    ensures |r| <= |xs|
  {
    if |xs| == 0 then []
    else
      var u := Unique(xs[..|xs| - 1]);
      assert xs == xs[..|xs| - 1] + [xs[|xs| - 1]];
      if xs[|xs| - 1] in u then u else u + [xs[|xs| - 1]]
  }

  /** A sequence without repetitions is its own de-duplication. */
  lemma {:induction false} UniqueOfDistinct<T>(xs: seq<T>)
    requires Distinct(xs)
    ensures Unique(xs) == xs
  {
    if |xs| > 0 {
      var init := xs[..|xs| - 1];
      assert Distinct(init);
      UniqueOfDistinct(init);
      assert xs[|xs| - 1] !in init by {
        forall j | 0 <= j < |init| ensures init[j] != xs[|xs| - 1] {
          assert xs[j] != xs[|xs| - 1];
        }
      }
      assert xs == init + [xs[|xs| - 1]];
    }
  }

  /** A sequence without repetitions holds each element at most once. */
  lemma {:induction false} DistinctCounts<T>(xs: seq<T>, x: T)
    requires Distinct(xs)
    ensures multiset(xs)[x] <= 1
  {
    if |xs| > 0 {
      var n := |xs| - 1;
      var init := xs[..n];
      assert Distinct(init);
      DistinctCounts(init, x);
      assert xs == init + [xs[n]];
      assert xs[n] !in init by {
        forall j | 0 <= j < n ensures init[j] != xs[n] {
          assert xs[j] != xs[n];
        }
      }
      assert multiset(init)[xs[n]] == 0;
    }
  }

  /** A reordering of a sequence without repetitions has none either. */
  lemma DistinctPermutation<T>(xs: seq<T>, ys: seq<T>)
    requires Distinct(xs) && multiset(xs) == multiset(ys)
    ensures Distinct(ys)
  {
    forall i, j | 0 <= i < j < |ys| ensures ys[i] != ys[j] {
      if ys[i] == ys[j] {
        var x := ys[i];
        assert ys == ys[..j] + [ys[j]] + ys[j + 1..];
        assert x in ys[..j];
        assert multiset(ys) == multiset(ys[..j]) + multiset{x} + multiset(ys[j + 1..]);
        DistinctCounts(xs, x);
        assert false;
      }
    }
  }
}
