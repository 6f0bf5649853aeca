/** Python's `sorted(xs, key=...)`: a stable sort by a key under the key
    type's `<`. Modelled as insertion sort: each element goes in front of the
    first later-sorted element whose key is not smaller, so elements with equal
    keys keep their input order. */
module Sorting {
  import opened Seqs

  /** `lt` is irreflexive, transitive and total on distinct keys. Transitivity
      and totality are stated through `Chained` and `Comparable`, so that they
      are used only for the keys a proof names. */
  ghost predicate StrictTotalOrder<K(!new)>(lt: (K, K) -> bool) {
    && (forall a :: !lt(a, a))
    && (forall a, b, c :: Chained(lt, a, b, c))
    && (forall a, b :: Comparable(lt, a, b))
  }

  ghost predicate Chained<K>(lt: (K, K) -> bool, a: K, b: K, c: K) {
    lt(a, b) && lt(b, c) ==> lt(a, c)
  }

  ghost predicate Comparable<K>(lt: (K, K) -> bool, a: K, b: K) {
    a == b || lt(a, b) || lt(b, a)
  }

  /** No element's key is below the key of an element before it. */
  ghost predicate SortedBy<T, K>(xs: seq<T>, key: T -> K, lt: (K, K) -> bool) {
    forall i, j | 0 <= i < j < |xs| :: !lt(key(xs[j]), key(xs[i]))
  }

  lemma LessAsymmetric<K(!new)>(lt: (K, K) -> bool, a: K, b: K)
    requires StrictTotalOrder(lt) && lt(a, b)
    ensures !lt(b, a)
  {
    assert Chained(lt, a, b, a);
  }

  /** "Not below" is transitive under a strict total order. */
  lemma NotLessTransitive<K(!new)>(lt: (K, K) -> bool, a: K, b: K, c: K)
    requires StrictTotalOrder(lt)
    requires !lt(b, a) && !lt(c, b)
    ensures !lt(c, a)
  {
    assert Comparable(lt, a, b);
    assert Chained(lt, c, a, b);
  }

  /** `x` placed in front of the first element whose key is not below its own. */
  function Insert<T, K>(x: T, xs: seq<T>, key: T -> K, lt: (K, K) -> bool): (r: seq<T>)
    ensures |r| == |xs| + 1
    ensures multiset(r) == multiset(xs) + multiset{x}
  {
    if |xs| == 0 then [x]
    else if !lt(key(xs[0]), key(x)) then [x] + xs
    else
      assert xs == [xs[0]] + xs[1..];
      [xs[0]] + Insert(x, xs[1..], key, lt)
  }

  function Sort<T, K>(xs: seq<T>, key: T -> K, lt: (K, K) -> bool): (r: seq<T>)
    ensures |r| == |xs|
    ensures multiset(r) == multiset(xs)
  {
    if |xs| == 0 then []
    else
      assert xs == [xs[0]] + xs[1..];
      Insert(xs[0], Sort(xs[1..], key, lt), key, lt)
  }

  /** Sorting keeps exactly the elements it is given. */
  lemma SortMembers<T, K>(xs: seq<T>, key: T -> K, lt: (K, K) -> bool, x: T)
    ensures x in Sort(xs, key, lt) <==> x in xs
  {
    var s := Sort(xs, key, lt);
    assert x in s <==> x in multiset(s);
    assert x in xs <==> x in multiset(xs);
  }

  lemma {:induction false} InsertSorted<T, K(!new)>(x: T, xs: seq<T>, key: T -> K, lt: (K, K) -> bool)
    requires StrictTotalOrder(lt) && SortedBy(xs, key, lt)
    ensures SortedBy(Insert(x, xs, key, lt), key, lt)
  {
    if |xs| == 0 {
    } else if !lt(key(xs[0]), key(x)) {
      var r := [x] + xs;
      forall i, j | 0 <= i < j < |r| ensures !lt(key(r[j]), key(r[i])) {
        if i == 0 && j > 1 {
          NotLessTransitive(lt, key(x), key(xs[0]), key(xs[j - 1]));
        }
      }
    } else {
      InsertSorted(x, xs[1..], key, lt);
      var tail := Insert(x, xs[1..], key, lt);
      var r := [xs[0]] + tail;
      forall j | 0 <= j < |tail| ensures !lt(key(tail[j]), key(xs[0])) {
        assert tail[j] in multiset(tail);
        assert tail[j] == x || tail[j] in multiset(xs[1..]);
        if tail[j] == x {
          LessAsymmetric(lt, key(xs[0]), key(x));
        } else {
          var k :| 0 <= k < |xs[1..]| && xs[1..][k] == tail[j];
          assert xs[k + 1] == tail[j];
        }
      }
      forall i, j | 0 <= i < j < |r| ensures !lt(key(r[j]), key(r[i])) {
        if i > 0 {
          assert r[i] == tail[i - 1] && r[j] == tail[j - 1];
        }
      }
    }
  }

  /** The sort's output is ordered by key. */
  lemma {:induction false} SortSorted<T, K(!new)>(xs: seq<T>, key: T -> K, lt: (K, K) -> bool)
    requires StrictTotalOrder(lt)
    ensures SortedBy(Sort(xs, key, lt), key, lt)
  {
    if |xs| > 0 {
      SortSorted(xs[1..], key, lt);
      InsertSorted(xs[0], Sort(xs[1..], key, lt), key, lt);
    }
  }

  /** Filtering an insertion into a sorted sequence is inserting into the
      filtered sequence (or not inserting, when `x` is filtered out). */
  lemma {:induction false} FilterInsert<T, K(!new)>(x: T, xs: seq<T>, key: T -> K, lt: (K, K) -> bool, p: T -> bool)
    requires StrictTotalOrder(lt) && SortedBy(xs, key, lt)
    ensures Filter(Insert(x, xs, key, lt), p) ==
      if p(x) then Insert(x, Filter(xs, p), key, lt) else Filter(xs, p)
  {
    if |xs| == 0 || !lt(key(xs[0]), key(x)) {
      FilterInsertFront(x, xs, key, lt, p);
    } else {
      var rest := xs[1..];
      assert xs == [xs[0]] + rest;
      SortedTail(xs, key, lt);
      FilterInsert(x, rest, key, lt, p);
      InsertBehind(x, xs[0], rest, key, lt);
      FilterCons(xs[0], Insert(x, rest, key, lt), p);
      FilterCons(xs[0], rest, p);
      if p(xs[0]) && p(x) {
        InsertBehind(x, xs[0], Filter(rest, p), key, lt);
      }
    }
  }

  /** `FilterInsert` when `x` goes in front. */
  lemma FilterInsertFront<T, K(!new)>(x: T, xs: seq<T>, key: T -> K, lt: (K, K) -> bool, p: T -> bool)
    requires StrictTotalOrder(lt) && SortedBy(xs, key, lt)
    requires |xs| == 0 || !lt(key(xs[0]), key(x))
    ensures Filter(Insert(x, xs, key, lt), p) ==
      if p(x) then Insert(x, Filter(xs, p), key, lt) else Filter(xs, p)
  {
    var f := Filter(xs, p);
    InsertFront(x, xs, key, lt);
    FilterCons(x, xs, p);
    if p(x) && |f| > 0 {
      assert f[0] in xs;
      var k :| 0 <= k < |xs| && xs[k] == f[0];
      if k > 0 {
        NotLessTransitive(lt, key(x), key(xs[0]), key(xs[k]));
      }
      InsertFront(x, f, key, lt);
    }
  }

  /** `x` goes in front when the first element is not below it. */
  lemma InsertFront<T, K>(x: T, xs: seq<T>, key: T -> K, lt: (K, K) -> bool)
    requires |xs| == 0 || !lt(key(xs[0]), key(x))
    ensures Insert(x, xs, key, lt) == [x] + xs
  {
  }

  /** `x` goes behind a first element that is below it. */
  lemma InsertBehind<T, K>(x: T, y: T, ys: seq<T>, key: T -> K, lt: (K, K) -> bool)
    requires lt(key(y), key(x))
    ensures Insert(x, [y] + ys, key, lt) == [y] + Insert(x, ys, key, lt)
  {
    assert ([y] + ys)[1..] == ys;
  }

  /** The tail of a sorted sequence is sorted. */
  lemma SortedTail<T, K>(xs: seq<T>, key: T -> K, lt: (K, K) -> bool)
    requires |xs| > 0 && SortedBy(xs, key, lt)
    ensures SortedBy(xs[1..], key, lt)
  {
    forall i, j | 0 <= i < j < |xs| - 1 ensures !lt(key(xs[1..][j]), key(xs[1..][i])) {
      assert xs[1..][j] == xs[j + 1] && xs[1..][i] == xs[i + 1];
    }
  }

  /** Sorting commutes with filtering. */
  lemma {:induction false} FilterSort<T, K(!new)>(xs: seq<T>, key: T -> K, lt: (K, K) -> bool, p: T -> bool)
    requires StrictTotalOrder(lt)
    ensures Filter(Sort(xs, key, lt), p) == Sort(Filter(xs, p), key, lt)
  {
    if |xs| > 0 {
      var rest := xs[1..];
      var s := Sort(rest, key, lt);
      assert Sort(xs, key, lt) == Insert(xs[0], s, key, lt);
      assert Filter(Insert(xs[0], s, key, lt), p) ==
        if p(xs[0]) then Insert(xs[0], Filter(s, p), key, lt) else Filter(s, p) by {
        SortSorted(rest, key, lt);
        FilterInsert(xs[0], s, key, lt, p);
      }
      FilterSort(rest, key, lt, p);
      var f, fr := Filter(xs, p), Filter(rest, p);
      assert f == (if p(xs[0]) then [xs[0]] else []) + fr by {
        assert xs == [xs[0]] + rest;
        FilterCons(xs[0], rest, p);
      }
      if p(xs[0]) {
        assert f[0] == xs[0] && f[1..] == fr;
        assert Sort(f, key, lt) == Insert(xs[0], Sort(fr, key, lt), key, lt);
      } else {
        assert f == fr;
      }
    }
  }

  /** Elements that all share one key come out in their input order. */
  lemma {:induction false} SortEqualKeys<T, K>(xs: seq<T>, key: T -> K, lt: (K, K) -> bool, k: K)
    requires !lt(k, k)
    requires forall x | x in xs :: key(x) == k
    ensures Sort(xs, key, lt) == xs
  {
    if |xs| > 0 {
      var rest := xs[1..];
      assert xs == [xs[0]] + rest;
      SortEqualKeys(rest, key, lt, k);
      assert Sort(xs, key, lt) == Insert(xs[0], rest, key, lt);
      if |rest| > 0 {
        assert key(rest[0]) == k && key(xs[0]) == k;
      }
    }
  }

  /** Whether an element's key is `k`. */
  function KeyIs<T, K(==)>(key: T -> K, k: K): T -> bool {
    x => key(x) == k
  }

  /** Stability: the elements with any one key appear in the sorted output in
      the same order as in the input. */
  lemma SortStable<T, K(!new)>(xs: seq<T>, key: T -> K, lt: (K, K) -> bool, k: K)
    requires StrictTotalOrder(lt)
    ensures Filter(Sort(xs, key, lt), KeyIs(key, k)) == Filter(xs, KeyIs(key, k))
  {
    var p := KeyIs(key, k);
    FilterSort(xs, key, lt, p);
    SortEqualKeys(Filter(xs, p), key, lt, k);
  }

  /** The head of an insertion: `x` unless the first element is below it. */
  lemma InsertHead<T, K>(x: T, xs: seq<T>, key: T -> K, lt: (K, K) -> bool)
    ensures Insert(x, xs, key, lt)[0] == if |xs| == 0 || !lt(key(xs[0]), key(x)) then x else xs[0]
  {
  }

  /** The head of the sorted output is the first element of the input whose
      key is minimal. */
  lemma {:induction false} SortHead<T, K(!new)>(xs: seq<T>, key: T -> K, lt: (K, K) -> bool) returns (m: nat)
    requires StrictTotalOrder(lt) && |xs| > 0
    ensures m < |xs| && Sort(xs, key, lt)[0] == xs[m]
    ensures forall j | 0 <= j < |xs| :: !lt(key(xs[j]), key(xs[m]))
    ensures forall j | 0 <= j < m :: lt(key(xs[m]), key(xs[j]))
  {
    var rest := xs[1..];
    var s := Sort(rest, key, lt);
    assert Sort(xs, key, lt) == Insert(xs[0], s, key, lt);
    InsertHead(xs[0], s, key, lt);
    if |rest| == 0 {
      m := 0;
    } else {
      var m' := SortHead(rest, key, lt);
      assert s[0] == xs[m' + 1];
      if !lt(key(xs[m' + 1]), key(xs[0])) {
        m := 0;
        SortHeadFirst(xs, key, lt, m');
      } else {
        m := m' + 1;
        SortHeadLater(xs, key, lt, m');
      }
    }
  }

  /** The inductive step of `SortHead` when the first element is a minimum. */
  lemma SortHeadFirst<T, K(!new)>(xs: seq<T>, key: T -> K, lt: (K, K) -> bool, m': nat)
    requires StrictTotalOrder(lt) && 0 <= m' < |xs| - 1
    requires !lt(key(xs[m' + 1]), key(xs[0]))
    requires forall j | 0 <= j < |xs| - 1 :: !lt(key(xs[1..][j]), key(xs[1..][m']))
    ensures forall j | 0 <= j < |xs| :: !lt(key(xs[j]), key(xs[0]))
  {
    forall j | 0 < j < |xs| ensures !lt(key(xs[j]), key(xs[0])) {
      assert xs[j] == xs[1..][j - 1];
      assert xs[m' + 1] == xs[1..][m'];
      NotLessTransitive(lt, key(xs[0]), key(xs[m' + 1]), key(xs[j]));
    }
    LessIrreflexiveAt(lt, key(xs[0]));
  }

  lemma LessIrreflexiveAt<K(!new)>(lt: (K, K) -> bool, a: K)
    requires StrictTotalOrder(lt)
    ensures !lt(a, a)
  {
  }

  /** The inductive step of `SortHead` when the minimum lies in the tail. */
  lemma SortHeadLater<T, K(!new)>(xs: seq<T>, key: T -> K, lt: (K, K) -> bool, m': nat)
    requires StrictTotalOrder(lt) && 0 <= m' < |xs| - 1
    requires lt(key(xs[m' + 1]), key(xs[0]))
    requires forall j | 0 <= j < |xs| - 1 :: !lt(key(xs[1..][j]), key(xs[1..][m']))
    requires forall j | 0 <= j < m' :: lt(key(xs[1..][m']), key(xs[1..][j]))
    ensures forall j | 0 <= j < |xs| :: !lt(key(xs[j]), key(xs[m' + 1]))
    ensures forall j | 0 <= j < m' + 1 :: lt(key(xs[m' + 1]), key(xs[j]))
  {
    var m := m' + 1;
    assert xs[m] == xs[1..][m'];
    forall j | 0 <= j < |xs| ensures !lt(key(xs[j]), key(xs[m])) {
      if j == 0 {
        LessAsymmetric(lt, key(xs[m]), key(xs[0]));
      } else {
        assert xs[j] == xs[1..][j - 1];
      }
    }
    forall j | 0 < j < m ensures lt(key(xs[m]), key(xs[j])) {
      assert xs[j] == xs[1..][j - 1];
    }
  }
}
