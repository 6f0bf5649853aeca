/** `DataFrame.merge(other, how=..., on=...)` as the merge stage and the
    repeat-instrument pivot use it: a keyed join of two frames on equal key
    tuples. The key columns of the right frame are dropped, labels that
    remain on both sides get the suffixes "_x" and "_y", and cells that one
    side cannot fill read "nan". Row order follows pandas' documented rule:
    inner and left joins keep the left frame's order, a right join the right
    frame's order, and an outer join sorts the keys. */
module Merging {
  import opened Results
  import opened Seqs
  import opened Text
  import opened Tables
  import opened Sorting

  datatype How = Inner | Left | Right | Outer

  /** The modelled keywords: `how` and `on` (absent: the shared labels). */
  datatype JoinSpec = JoinSpec(how: How, on: Option<seq<string>>)

  /** The key columns. Given keys must all be labels of both frames: the first
      that is missing on either side raises KeyError. Without `on`, the keys
      are the labels the frames share, in the left frame's order, and a pair
      of frames sharing none raises MergeError. An empty `on` list has no key
      to join on and is reported as MergeError too. */
  function KeyColumns(lc: seq<string>, rc: seq<string>, on: Option<seq<string>>): (r: Result<seq<string>>)
    ensures r.Success? ==> |r.value| > 0 && forall c | c in r.value :: c in lc && c in rc
    ensures on.Some? ==> (r.Success? <==> |on.value| > 0 && forall c | c in on.value :: c in lc && c in rc)
    ensures on.Some? && r.Success? ==> r.value == on.value
    ensures on.Some? && |on.value| > 0 && r.Failure? ==>
      r.error.KeyError? && r.error.key in on.value && (r.error.key !in lc || r.error.key !in rc)
    ensures on.None? ==> (r.Success? <==> exists c | c in lc :: c in rc)
    ensures on.None? && r.Success? ==> forall c | c in lc && c in rc :: c in r.value
    ensures (on.None? || on == Some([])) && r.Failure? ==> r.error.MergeError?
  {
    match on
    case Some(keys) =>
      if |keys| == 0 then Failure(MergeError("no key columns"))
      else
        var missing := Filter(keys, c => c !in lc || c !in rc);
        assert forall c | c in keys && (c !in lc || c !in rc) :: c in missing;
        if |missing| > 0 then
          assert missing[0] in missing;
          Failure(KeyError(missing[0]))
        else Success(keys)
    case None =>
      var shared := Filter(lc, c => c in rc);
      assert forall c | c in lc && c in rc :: c in shared;
      if |shared| == 0 then Failure(MergeError("No common columns to perform merge on"))
      else
        assert shared[0] in shared;
        Success(shared)
  }

  /** Everything the row builders need, worked out from the labels once. */
  datatype Plan = Plan(lc: seq<string>, rc: seq<string>, keys: seq<string>,
                       lpos: seq<nat>, rpos: seq<nat>, rest: seq<nat>)

  /** The positions of the right frame's non-key columns, in order. */
  function RestPositions(rc: seq<string>, keys: seq<string>): (ps: seq<nat>)
    ensures forall k | 0 <= k < |ps| :: ps[k] < |rc| && rc[ps[k]] !in keys
    ensures forall j | 0 <= j < |rc| && rc[j] !in keys :: j in ps
  {
    KeptPositions(rc, set c | c in rc && c !in keys)
  }

  function MakePlan(lc: seq<string>, rc: seq<string>, keys: seq<string>): Plan {
    Plan(lc, rc, keys, Positions(lc, keys), Positions(rc, keys), RestPositions(rc, keys))
  }

  /** The cells of `row` at the positions `pos` (a position past the end of
      the row, which a well-formed frame never has, reads as empty). */
  function Cells(row: seq<string>, pos: seq<nat>): (cs: seq<string>)
    ensures |cs| == |pos|
    ensures forall k | 0 <= k < |pos| && pos[k] < |row| :: cs[k] == row[pos[k]]
  {
    seq(|pos|, k requires 0 <= k < |pos| => if pos[k] < |row| then row[pos[k]] else "")
  }

  /** The right frame's non-key labels. */
  function RestLabels(p: Plan): (ls: seq<string>)
    ensures |ls| == |p.rest|
  {
    Cells(p.rc, p.rest)
  }

  /** A left label, suffixed "_x" when a right non-key column has it too. */
  function LeftLabel(c: string, p: Plan): string {
    if c in RestLabels(p) then c + "_x" else c
  }

  /** A right non-key label, suffixed "_y" when the left frame has it too. */
  function RightLabel(c: string, p: Plan): string {
    if c in p.lc then c + "_y" else c
  }

  /** The joined frame's labels: the left labels, then the right non-key
      labels, each suffixed where the two sides share it. */
  function JoinedColumns(p: Plan): (cs: seq<string>)
    ensures |cs| == |p.lc| + |p.rest|
  {
    var rl := RestLabels(p);
    seq(|p.lc|, j requires 0 <= j < |p.lc| => LeftLabel(p.lc[j], p))
      + seq(|rl|, k requires 0 <= k < |rl| => RightLabel(rl[k], p))
  }

  /** When the two sides share no non-key label, no label is suffixed. */
  lemma JoinedColumnsUnsuffixed(p: Plan)
    requires forall c | c in RestLabels(p) :: c !in p.lc
    ensures JoinedColumns(p) == p.lc + RestLabels(p)
  {
    var rl := RestLabels(p);
    var left := seq(|p.lc|, j requires 0 <= j < |p.lc| => LeftLabel(p.lc[j], p));
    var right := seq(|rl|, k requires 0 <= k < |rl| => RightLabel(rl[k], p));
    assert left == p.lc by {
      forall j | 0 <= j < |p.lc| ensures left[j] == p.lc[j] {
        assert p.lc[j] in p.lc;
      }
    }
    assert right == rl by {
      forall k | 0 <= k < |rl| ensures right[k] == rl[k] {
        assert rl[k] in rl;
      }
    }
  }

  /** Whether a left row and a right row hold the same key tuple. */
  predicate SameKey(lrow: seq<string>, rrow: seq<string>, p: Plan) {
    Cells(lrow, p.lpos) == Cells(rrow, p.rpos)
  }

  /** A matched pair: the left row followed by the right row's non-key cells. */
  function Combine(lrow: seq<string>, rrow: seq<string>, p: Plan): (row: seq<string>)
    ensures |row| == |lrow| + |p.rest|
  {
    lrow + Cells(rrow, p.rest)
  }

  /** A left row without a partner: its non-key right cells read "nan". */
  function LeftOnly(lrow: seq<string>, p: Plan): (row: seq<string>)
    ensures |row| == |lrow| + |p.rest|
  {
    lrow + seq(|p.rest|, k => NanText)
  }

  /** A right row without a partner: the left key columns take the right
      row's key cells, the other left columns read "nan". */
  function RightOnly(rrow: seq<string>, p: Plan): (row: seq<string>)
    ensures |row| == |p.lc| + |p.rest|
  {
    seq(|p.lc|, j requires 0 <= j < |p.lc| =>
      var i := IndexOf(p.rc, p.lc[j]);
      if p.lc[j] in p.keys && i < |rrow| then rrow[i] else NanText)
      + Cells(rrow, p.rest)
  }

  /** `lrow` combined with each right row holding its key, in right order. */
  function MatchesOf(lrow: seq<string>, rrows: seq<seq<string>>, p: Plan): seq<seq<string>>
  {
    if |rrows| == 0 then []
    else (if SameKey(lrow, rrows[0], p) then [Combine(lrow, rrows[0], p)] else []) + MatchesOf(lrow, rrows[1..], p)
  }

  /** Each left row holding its key combined with `rrow`, in left order. */
  function PartnersOf(lrows: seq<seq<string>>, rrow: seq<string>, p: Plan): seq<seq<string>>
  {
    if |lrows| == 0 then []
    else (if SameKey(lrows[0], rrow, p) then [Combine(lrows[0], rrow, p)] else []) + PartnersOf(lrows[1..], rrow, p)
  }

  /** The inner (or, with `keepUnmatched`, left) join rows: for each left row
      in order its matches, or its padded self when it has none. */
  function LeftRows(lrows: seq<seq<string>>, rrows: seq<seq<string>>, p: Plan, keepUnmatched: bool): seq<seq<string>>
  {
    if |lrows| == 0 then []
    else
      var ms := MatchesOf(lrows[0], rrows, p);
      (if |ms| == 0 && keepUnmatched then [LeftOnly(lrows[0], p)] else ms)
        + LeftRows(lrows[1..], rrows, p, keepUnmatched)
  }

  /** The right join rows: for each right row in order its partners, or its
      padded self when it has none. */
  function RightRows(lrows: seq<seq<string>>, rrows: seq<seq<string>>, p: Plan): seq<seq<string>>
  {
    if |rrows| == 0 then []
    else
      var ms := PartnersOf(lrows, rrows[0], p);
      (if |ms| == 0 then [RightOnly(rrows[0], p)] else ms) + RightRows(lrows, rrows[1..], p)
  }

  /** The right rows without a partner, padded, in right order. */
  function Unmatched(lrows: seq<seq<string>>, rrows: seq<seq<string>>, p: Plan): seq<seq<string>>
  {
    if |rrows| == 0 then []
    else
      (if exists i | 0 <= i < |lrows| :: SameKey(lrows[i], rrows[0], p) then [] else [RightOnly(rrows[0], p)])
        + Unmatched(lrows, rrows[1..], p)
  }

  /** Python's `<` on tuples of strings: the first differing component
      decides, and a proper prefix comes first. */
  predicate TupleLess(a: seq<string>, b: seq<string>) {
    if |a| == 0 then |b| > 0
    else if |b| == 0 then false
    else if a[0] != b[0] then Less(a[0], b[0])
    else TupleLess(a[1..], b[1..])
  }

  /** The key tuple of an output row (the left key columns come first and keep
      their places). */
  function RowKey(p: Plan): seq<string> -> seq<string> {
    row => Cells(row, p.lpos)
  }

  /** The joined rows for each `how`. */
  function JoinRows(l: Table, r: Table, p: Plan, how: How): seq<seq<string>> {
    match how
    case Inner => LeftRows(l.rows, r.rows, p, false)
    case Left => LeftRows(l.rows, r.rows, p, true)
    case Right => RightRows(l.rows, r.rows, p)
    case Outer =>
      var all := LeftRows(l.rows, r.rows, p, true) + Unmatched(l.rows, r.rows, p);
      Sort(all, RowKey(p), TupleLess)
  }

  /** `l.merge(r, how=..., on=...)`. */
  function Join(l: Table, r: Table, spec: JoinSpec): (res: Result<Table>)
    requires WellFormed(l) && WellFormed(r)
    ensures res.Success? <==> KeyColumns(l.columns, r.columns, spec.on).Success?
    ensures res.Failure? ==> res.error == KeyColumns(l.columns, r.columns, spec.on).error
    ensures res.Success? ==> WellFormed(res.value)
    ensures res.Success? ==> var p := MakePlan(l.columns, r.columns, KeyColumns(l.columns, r.columns, spec.on).value);
      res.value == Table(JoinedColumns(p), JoinRows(l, r, p, spec.how))
  {
    var keys :- KeyColumns(l.columns, r.columns, spec.on);
    var p := MakePlan(l.columns, r.columns, keys);
    var rows := JoinRows(l, r, p, spec.how);
    JoinRowsWidth(l, r, p, spec.how);
    assert forall i | 0 <= i < |rows| :: rows[i] in rows;
    Success(Table(JoinedColumns(p), rows))
  }

  ghost predicate RowsOfWidth(rows: seq<seq<string>>, n: nat) {
    forall i | 0 <= i < |rows| :: |rows[i]| == n
  }

  lemma {:induction false} PartnersOfWidth(lrows: seq<seq<string>>, rrow: seq<string>, p: Plan)
    requires RowsOfWidth(lrows, |p.lc|)
    ensures forall m | m in PartnersOf(lrows, rrow, p) :: |m| == |p.lc| + |p.rest|
  {
    if |lrows| > 0 {
      PartnersOfWidth(lrows[1..], rrow, p);
    }
  }

  lemma {:induction false} MatchesOfWidth(lrow: seq<string>, rrows: seq<seq<string>>, p: Plan)
    ensures forall m | m in MatchesOf(lrow, rrows, p) :: |m| == |lrow| + |p.rest|
  {
    if |rrows| > 0 {
      MatchesOfWidth(lrow, rrows[1..], p);
    }
  }

  lemma {:induction false} LeftRowsWidth(lrows: seq<seq<string>>, rrows: seq<seq<string>>, p: Plan, keep: bool)
    requires RowsOfWidth(lrows, |p.lc|)
    ensures forall m | m in LeftRows(lrows, rrows, p, keep) :: |m| == |p.lc| + |p.rest|
  {
    if |lrows| > 0 {
      MatchesOfWidth(lrows[0], rrows, p);
      LeftRowsWidth(lrows[1..], rrows, p, keep);
    }
  }

  lemma {:induction false} UnmatchedWidth(lrows: seq<seq<string>>, rrows: seq<seq<string>>, p: Plan)
    ensures forall m | m in Unmatched(lrows, rrows, p) :: |m| == |p.lc| + |p.rest|
  {
    if |rrows| > 0 {
      UnmatchedWidth(lrows, rrows[1..], p);
    }
  }

  lemma {:induction false} RightRowsWidth(lrows: seq<seq<string>>, rrows: seq<seq<string>>, p: Plan)
    requires RowsOfWidth(lrows, |p.lc|)
    ensures forall m | m in RightRows(lrows, rrows, p) :: |m| == |p.lc| + |p.rest|
  {
    if |rrows| > 0 {
      PartnersOfWidth(lrows, rrows[0], p);
      RightRowsWidth(lrows, rrows[1..], p);
    }
  }

  /** Every joined row holds a cell for each joined label. */
  lemma JoinRowsWidth(l: Table, r: Table, p: Plan, how: How)
    requires RowsOfWidth(l.rows, |p.lc|)
    ensures forall m | m in JoinRows(l, r, p, how) :: |m| == |p.lc| + |p.rest|
  {
    match how
    case Inner => LeftRowsWidth(l.rows, r.rows, p, false);
    case Left => LeftRowsWidth(l.rows, r.rows, p, true);
    case Right => RightRowsWidth(l.rows, r.rows, p);
    case Outer =>
      LeftRowsWidth(l.rows, r.rows, p, true);
      UnmatchedWidth(l.rows, r.rows, p);
      var all := LeftRows(l.rows, r.rows, p, true) + Unmatched(l.rows, r.rows, p);
      var sorted := Sort(all, RowKey(p), TupleLess);
      assert forall m | m in sorted :: m in multiset(all);
  }

  // ---------------------------------------------------------------------
  // The order an outer join sorts by
  // ---------------------------------------------------------------------

  lemma {:induction false} TupleLessIrreflexive(a: seq<string>)
    ensures !TupleLess(a, a)
  {
    if |a| > 0 {
      TupleLessIrreflexive(a[1..]);
    }
  }

  lemma {:induction false} TupleLessTransitive(a: seq<string>, b: seq<string>, c: seq<string>)
    requires TupleLess(a, b) && TupleLess(b, c)
    ensures TupleLess(a, c)
  {
    if |a| > 0 && |b| > 0 && |c| > 0 {
      if a[0] == b[0] && b[0] == c[0] {
        TupleLessTransitive(a[1..], b[1..], c[1..]);
      } else if a[0] != b[0] && b[0] != c[0] {
        LessTransitive(a[0], b[0], c[0]);
        if a[0] == c[0] {
          LessTransitive(a[0], b[0], a[0]);
          LessIrreflexive(a[0]);
        }
      }
    }
  }

  lemma {:induction false} TupleLessTotal(a: seq<string>, b: seq<string>)
    requires a != b
    ensures TupleLess(a, b) || TupleLess(b, a)
  {
    if |a| > 0 && |b| > 0 {
      if a[0] == b[0] {
        assert a == [a[0]] + a[1..] && b == [b[0]] + b[1..];
        TupleLessTotal(a[1..], b[1..]);
      } else {
        LessTotal(a[0], b[0]);
      }
    }
  }

  /** Tuple comparison is a strict total order, so an outer join's sort is
      well defined. */
  lemma TupleLessOrder()
    ensures StrictTotalOrder(TupleLess)
  {
    forall a ensures !TupleLess(a, a) {
      TupleLessIrreflexive(a);
    }
    forall a, b, c ensures Chained(TupleLess, a, b, c) {
      if TupleLess(a, b) && TupleLess(b, c) {
        TupleLessTransitive(a, b, c);
      }
    }
    forall a, b ensures Comparable(TupleLess, a, b) {
      if a != b {
        TupleLessTotal(a, b);
      }
    }
  }

  // ---------------------------------------------------------------------
  // What the joined rows are
  // ---------------------------------------------------------------------

  /** Whether some row of `rrows` holds the key of `lrow`. */
  ghost predicate HasPartner(lrow: seq<string>, rrows: seq<seq<string>>, p: Plan) {
    exists k | 0 <= k < |rrows| :: SameKey(lrow, rrows[k], p)
  }

  /** Whether some row of `lrows` holds the key of `rrow`. */
  ghost predicate IsPartnered(lrows: seq<seq<string>>, rrow: seq<string>, p: Plan) {
    exists i | 0 <= i < |lrows| :: SameKey(lrows[i], rrow, p)
  }

  /** Whether `m` combines `lrow` with a right row holding its key. */
  ghost predicate MatchOf(lrow: seq<string>, rrows: seq<seq<string>>, p: Plan, m: seq<string>) {
    exists k | 0 <= k < |rrows| :: SameKey(lrow, rrows[k], p) && m == Combine(lrow, rrows[k], p)
  }

  /** Whether `m` combines a left row holding the key of `rrow` with it. */
  ghost predicate PartnerOf(lrows: seq<seq<string>>, rrow: seq<string>, p: Plan, m: seq<string>) {
    exists i | 0 <= i < |lrows| :: SameKey(lrows[i], rrow, p) && m == Combine(lrows[i], rrow, p)
  }

  /** Whether `m` combines a left row with a right row holding the same key. */
  ghost predicate MatchedPair(lrows: seq<seq<string>>, rrows: seq<seq<string>>, p: Plan, m: seq<string>) {
    exists i | 0 <= i < |lrows| :: MatchOf(lrows[i], rrows, p, m)
  }

  /** Whether `m` is a padded left row that has no partner. */
  ghost predicate PaddedLeft(lrows: seq<seq<string>>, rrows: seq<seq<string>>, p: Plan, m: seq<string>) {
    exists i | 0 <= i < |lrows| :: !HasPartner(lrows[i], rrows, p) && m == LeftOnly(lrows[i], p)
  }

  /** Whether `m` is a padded right row that has no partner. */
  ghost predicate PaddedRight(lrows: seq<seq<string>>, rrows: seq<seq<string>>, p: Plan, m: seq<string>) {
    exists k | 0 <= k < |rrows| :: !IsPartnered(lrows, rrows[k], p) && m == RightOnly(rrows[k], p)
  }

  /** `MatchOf` for the first right row, then for the rest. */
  lemma MatchOfStep(lrow: seq<string>, rrows: seq<seq<string>>, p: Plan, m: seq<string>)
    requires |rrows| > 0
    ensures MatchOf(lrow, rrows, p, m) <==>
      (SameKey(lrow, rrows[0], p) && m == Combine(lrow, rrows[0], p)) || MatchOf(lrow, rrows[1..], p, m)
  {
    var tail := rrows[1..];
    if MatchOf(lrow, rrows, p, m) {
      var k :| 0 <= k < |rrows| && SameKey(lrow, rrows[k], p) && m == Combine(lrow, rrows[k], p);
      if k > 0 {
        assert tail[k - 1] == rrows[k];
      }
    }
    if MatchOf(lrow, tail, p, m) {
      var k :| 0 <= k < |tail| && SameKey(lrow, tail[k], p) && m == Combine(lrow, tail[k], p);
      assert rrows[k + 1] == tail[k];
    }
  }

  /** The matches of one left row are its combinations with exactly the
      right rows holding its key. */
  lemma {:induction false} MatchesOfMembers(lrow: seq<string>, rrows: seq<seq<string>>, p: Plan, m: seq<string>)
    ensures m in MatchesOf(lrow, rrows, p) <==> MatchOf(lrow, rrows, p, m)
    decreases |rrows|
  {
    if |rrows| > 0 {
      MatchesOfMembers(lrow, rrows[1..], p, m);
      MatchOfStep(lrow, rrows, p, m);
    }
  }

  /** A left row has matches exactly when it has a partner. */
  lemma MatchesOfEmpty(lrow: seq<string>, rrows: seq<seq<string>>, p: Plan)
    ensures |MatchesOf(lrow, rrows, p)| == 0 <==> !HasPartner(lrow, rrows, p)
  {
    var ms := MatchesOf(lrow, rrows, p);
    if HasPartner(lrow, rrows, p) {
      var k :| 0 <= k < |rrows| && SameKey(lrow, rrows[k], p);
      MatchesOfMembers(lrow, rrows, p, Combine(lrow, rrows[k], p));
    }
    if |ms| > 0 {
      MatchesOfMembers(lrow, rrows, p, ms[0]);
    }
  }

  /** Joining a concatenation of left frames concatenates the joins: the
      rows of an earlier left row come before those of a later one. */
  lemma {:induction false} LeftRowsConcat(a: seq<seq<string>>, b: seq<seq<string>>, rrows: seq<seq<string>>, p: Plan, keep: bool)
    ensures LeftRows(a + b, rrows, p, keep) == LeftRows(a, rrows, p, keep) + LeftRows(b, rrows, p, keep)
  {
    if |a| == 0 {
      assert a + b == b;
    } else {
      var ab := a + b;
      var ms := MatchesOf(a[0], rrows, p);
      var head := if |ms| == 0 && keep then [LeftOnly(a[0], p)] else ms;
      var ra, rb := LeftRows(a[1..], rrows, p, keep), LeftRows(b, rrows, p, keep);
      assert LeftRows(ab, rrows, p, keep) == head + (ra + rb) by {
        assert ab[0] == a[0] && ab[1..] == a[1..] + b;
        LeftRowsConcat(a[1..], b, rrows, p, keep);
      }
      assert LeftRows(a, rrows, p, keep) == head + ra;
      assert head + (ra + rb) == (head + ra) + rb;
    }
  }

  /** The rows an inner or left join produces for the first left row, then
      for the rest. */
  lemma LeftRowsStep(lrows: seq<seq<string>>, rrows: seq<seq<string>>, p: Plan, keep: bool, m: seq<string>)
    requires |lrows| > 0
    ensures m in LeftRows(lrows, rrows, p, keep) <==>
      || MatchOf(lrows[0], rrows, p, m)
      || (keep && !HasPartner(lrows[0], rrows, p) && m == LeftOnly(lrows[0], p))
      || m in LeftRows(lrows[1..], rrows, p, keep)
  {
    MatchesOfMembers(lrows[0], rrows, p, m);
    MatchesOfEmpty(lrows[0], rrows, p);
  }

  /** `MatchedPair` for the first left row, then for the rest. */
  lemma MatchedPairStep(lrows: seq<seq<string>>, rrows: seq<seq<string>>, p: Plan, m: seq<string>)
    requires |lrows| > 0
    ensures MatchedPair(lrows, rrows, p, m) <==> MatchOf(lrows[0], rrows, p, m) || MatchedPair(lrows[1..], rrows, p, m)
  {
    var tail := lrows[1..];
    if MatchedPair(lrows, rrows, p, m) {
      var i :| 0 <= i < |lrows| && MatchOf(lrows[i], rrows, p, m);
      if i > 0 {
        assert tail[i - 1] == lrows[i];
      }
    }
    if MatchedPair(tail, rrows, p, m) {
      var i :| 0 <= i < |tail| && MatchOf(tail[i], rrows, p, m);
      assert lrows[i + 1] == tail[i];
    }
  }

  /** An inner join's rows are exactly the combinations of a left row with a
      right row holding the same key. */
  lemma {:induction false} InnerJoinMembers(lrows: seq<seq<string>>, rrows: seq<seq<string>>, p: Plan, m: seq<string>)
    ensures m in LeftRows(lrows, rrows, p, false) <==> MatchedPair(lrows, rrows, p, m)
    decreases |lrows|
  {
    if |lrows| > 0 {
      LeftRowsStep(lrows, rrows, p, false, m);
      InnerJoinMembers(lrows[1..], rrows, p, m);
      MatchedPairStep(lrows, rrows, p, m);
    }
  }

  /** `PaddedLeft` for the first left row, then for the rest. */
  lemma PaddedLeftStep(lrows: seq<seq<string>>, rrows: seq<seq<string>>, p: Plan, m: seq<string>)
    requires |lrows| > 0
    ensures PaddedLeft(lrows, rrows, p, m) <==>
      || (!HasPartner(lrows[0], rrows, p) && m == LeftOnly(lrows[0], p))
      || PaddedLeft(lrows[1..], rrows, p, m)
  {
    var tail := lrows[1..];
    if PaddedLeft(lrows, rrows, p, m) {
      var i :| 0 <= i < |lrows| && !HasPartner(lrows[i], rrows, p) && m == LeftOnly(lrows[i], p);
      if i > 0 {
        assert tail[i - 1] == lrows[i];
      }
    }
    if PaddedLeft(tail, rrows, p, m) {
      var i :| 0 <= i < |tail| && !HasPartner(tail[i], rrows, p) && m == LeftOnly(tail[i], p);
      assert lrows[i + 1] == tail[i];
    }
  }

  /** A left join's rows are the matched combinations together with each
      partnerless left row padded with "nan". */
  lemma {:induction false} LeftJoinMembers(lrows: seq<seq<string>>, rrows: seq<seq<string>>, p: Plan, m: seq<string>)
    ensures m in LeftRows(lrows, rrows, p, true) <==>
      MatchedPair(lrows, rrows, p, m) || PaddedLeft(lrows, rrows, p, m)
    decreases |lrows|
  {
    if |lrows| > 0 {
      LeftRowsStep(lrows, rrows, p, true, m);
      LeftJoinMembers(lrows[1..], rrows, p, m);
      MatchedPairStep(lrows, rrows, p, m);
      PaddedLeftStep(lrows, rrows, p, m);
    }
  }

  /** A left join loses no left row: every one begins some output row. */
  lemma LeftJoinKeepsLeftRows(lrows: seq<seq<string>>, rrows: seq<seq<string>>, p: Plan, i: nat) returns (m: seq<string>)
    requires i < |lrows|
    ensures m in LeftRows(lrows, rrows, p, true) && |lrows[i]| <= |m| && m[..|lrows[i]|] == lrows[i]
  {
    if HasPartner(lrows[i], rrows, p) {
      var k :| 0 <= k < |rrows| && SameKey(lrows[i], rrows[k], p);
      m := Combine(lrows[i], rrows[k], p);
      assert MatchOf(lrows[i], rrows, p, m);
      assert MatchedPair(lrows, rrows, p, m);
    } else {
      m := LeftOnly(lrows[i], p);
      assert PaddedLeft(lrows, rrows, p, m);
    }
    LeftJoinMembers(lrows, rrows, p, m);
  }

  /** `PartnerOf` for the first left row, then for the rest. */
  lemma PartnerOfStep(lrows: seq<seq<string>>, rrow: seq<string>, p: Plan, m: seq<string>)
    requires |lrows| > 0
    ensures PartnerOf(lrows, rrow, p, m) <==>
      (SameKey(lrows[0], rrow, p) && m == Combine(lrows[0], rrow, p)) || PartnerOf(lrows[1..], rrow, p, m)
  {
    var tail := lrows[1..];
    if PartnerOf(lrows, rrow, p, m) {
      var i :| 0 <= i < |lrows| && SameKey(lrows[i], rrow, p) && m == Combine(lrows[i], rrow, p);
      if i > 0 {
        assert tail[i - 1] == lrows[i];
      }
    }
    if PartnerOf(tail, rrow, p, m) {
      var i :| 0 <= i < |tail| && SameKey(tail[i], rrow, p) && m == Combine(tail[i], rrow, p);
      assert lrows[i + 1] == tail[i];
    }
  }

  /** The partners of one right row are its combinations with exactly the
      left rows holding its key. */
  lemma {:induction false} PartnersOfMembers(lrows: seq<seq<string>>, rrow: seq<string>, p: Plan, m: seq<string>)
    ensures m in PartnersOf(lrows, rrow, p) <==> PartnerOf(lrows, rrow, p, m)
    decreases |lrows|
  {
    if |lrows| > 0 {
      PartnersOfMembers(lrows[1..], rrow, p, m);
      PartnerOfStep(lrows, rrow, p, m);
    }
  }

  /** A right row has partners exactly when some left row holds its key. */
  lemma PartnersOfEmpty(lrows: seq<seq<string>>, rrow: seq<string>, p: Plan)
    ensures |PartnersOf(lrows, rrow, p)| == 0 <==> !IsPartnered(lrows, rrow, p)
  {
    var ms := PartnersOf(lrows, rrow, p);
    if IsPartnered(lrows, rrow, p) {
      var i :| 0 <= i < |lrows| && SameKey(lrows[i], rrow, p);
      PartnersOfMembers(lrows, rrow, p, Combine(lrows[i], rrow, p));
    }
    if |ms| > 0 {
      PartnersOfMembers(lrows, rrow, p, ms[0]);
    }
  }

  /** A matched pair seen from the right frame's side. */
  lemma MatchedPairByRight(lrows: seq<seq<string>>, rrows: seq<seq<string>>, p: Plan, m: seq<string>)
    ensures MatchedPair(lrows, rrows, p, m) <==> exists k | 0 <= k < |rrows| :: PartnerOf(lrows, rrows[k], p, m)
  {
    if MatchedPair(lrows, rrows, p, m) {
      var i :| 0 <= i < |lrows| && MatchOf(lrows[i], rrows, p, m);
      var k :| 0 <= k < |rrows| && SameKey(lrows[i], rrows[k], p) && m == Combine(lrows[i], rrows[k], p);
      assert PartnerOf(lrows, rrows[k], p, m);
    }
    if exists k | 0 <= k < |rrows| :: PartnerOf(lrows, rrows[k], p, m) {
      var k :| 0 <= k < |rrows| && PartnerOf(lrows, rrows[k], p, m);
      var i :| 0 <= i < |lrows| && SameKey(lrows[i], rrows[k], p) && m == Combine(lrows[i], rrows[k], p);
      assert MatchOf(lrows[i], rrows, p, m);
    }
  }

  /** `MatchedPair` for the first right row, then for the rest. */
  lemma MatchedPairRightStep(lrows: seq<seq<string>>, rrows: seq<seq<string>>, p: Plan, m: seq<string>)
    requires |rrows| > 0
    ensures MatchedPair(lrows, rrows, p, m) <==> PartnerOf(lrows, rrows[0], p, m) || MatchedPair(lrows, rrows[1..], p, m)
  {
    var tail := rrows[1..];
    MatchedPairByRight(lrows, rrows, p, m);
    MatchedPairByRight(lrows, tail, p, m);
    if exists k | 0 <= k < |rrows| :: PartnerOf(lrows, rrows[k], p, m) {
      var k :| 0 <= k < |rrows| && PartnerOf(lrows, rrows[k], p, m);
      if k > 0 {
        assert tail[k - 1] == rrows[k];
      }
    }
    if exists k | 0 <= k < |tail| :: PartnerOf(lrows, tail[k], p, m) {
      var k :| 0 <= k < |tail| && PartnerOf(lrows, tail[k], p, m);
      assert rrows[k + 1] == tail[k];
    }
  }

  /** `PaddedRight` for the first right row, then for the rest. */
  lemma PaddedRightStep(lrows: seq<seq<string>>, rrows: seq<seq<string>>, p: Plan, m: seq<string>)
    requires |rrows| > 0
    ensures PaddedRight(lrows, rrows, p, m) <==>
      || (!IsPartnered(lrows, rrows[0], p) && m == RightOnly(rrows[0], p))
      || PaddedRight(lrows, rrows[1..], p, m)
  {
    var tail := rrows[1..];
    if PaddedRight(lrows, rrows, p, m) {
      var k :| 0 <= k < |rrows| && !IsPartnered(lrows, rrows[k], p) && m == RightOnly(rrows[k], p);
      if k > 0 {
        assert tail[k - 1] == rrows[k];
      }
    }
    if PaddedRight(lrows, tail, p, m) {
      var k :| 0 <= k < |tail| && !IsPartnered(lrows, tail[k], p) && m == RightOnly(tail[k], p);
      assert rrows[k + 1] == tail[k];
    }
  }

  /** A right join's rows are the matched combinations together with each
      partnerless right row padded with "nan". */
  lemma {:induction false} RightJoinMembers(lrows: seq<seq<string>>, rrows: seq<seq<string>>, p: Plan, m: seq<string>)
    ensures m in RightRows(lrows, rrows, p) <==>
      MatchedPair(lrows, rrows, p, m) || PaddedRight(lrows, rrows, p, m)
    decreases |rrows|
  {
    if |rrows| > 0 {
      PartnersOfMembers(lrows, rrows[0], p, m);
      PartnersOfEmpty(lrows, rrows[0], p);
      RightJoinMembers(lrows, rrows[1..], p, m);
      MatchedPairRightStep(lrows, rrows, p, m);
      PaddedRightStep(lrows, rrows, p, m);
    }
  }

  /** The right rows an outer join adds are exactly the partnerless ones. */
  lemma {:induction false} UnmatchedMembers(lrows: seq<seq<string>>, rrows: seq<seq<string>>, p: Plan, m: seq<string>)
    ensures m in Unmatched(lrows, rrows, p) <==> PaddedRight(lrows, rrows, p, m)
    decreases |rrows|
  {
    if |rrows| > 0 {
      UnmatchedMembers(lrows, rrows[1..], p, m);
      PaddedRightStep(lrows, rrows, p, m);
    }
  }

  /** An outer join's rows are ordered by key. */
  lemma OuterJoinSorted(l: Table, r: Table, p: Plan)
    ensures SortedBy(JoinRows(l, r, p, Outer), RowKey(p), TupleLess)
  {
    TupleLessOrder();
    SortSorted(LeftRows(l.rows, r.rows, p, true) + Unmatched(l.rows, r.rows, p), RowKey(p), TupleLess);
  }

  /** An outer join's rows are the left join's rows and the partnerless
      right rows, reordered. */
  lemma OuterJoinParts(l: Table, r: Table, p: Plan, m: seq<string>)
    ensures m in JoinRows(l, r, p, Outer) <==>
      m in LeftRows(l.rows, r.rows, p, true) || m in Unmatched(l.rows, r.rows, p)
  {
    var left, right := LeftRows(l.rows, r.rows, p, true), Unmatched(l.rows, r.rows, p);
    SortMembers(left + right, RowKey(p), TupleLess, m);
    assert m in left + right <==> m in left || m in right;
  }

  /** An outer join's rows are the matched combinations together with the
      partnerless rows of both sides. */
  lemma OuterJoinMembers(l: Table, r: Table, p: Plan, m: seq<string>)
    ensures m in JoinRows(l, r, p, Outer) <==>
      MatchedPair(l.rows, r.rows, p, m) || PaddedLeft(l.rows, r.rows, p, m) || PaddedRight(l.rows, r.rows, p, m)
  {
    OuterJoinParts(l, r, p, m);
    LeftJoinMembers(l.rows, r.rows, p, m);
    UnmatchedMembers(l.rows, r.rows, p, m);
  }

  /** The right frame's non-key labels are right labels that are not keys. */
  lemma RestLabelsOutsideKeys(p: Plan)
    requires p == MakePlan(p.lc, p.rc, p.keys)
    ensures forall c | c in RestLabels(p) :: c in p.rc && c !in p.keys
  {
    var rl := RestLabels(p);
    forall c | c in rl ensures c in p.rc && c !in p.keys {
      var k :| 0 <= k < |rl| && rl[k] == c;
      assert p.rest[k] < |p.rc|;
    }
  }

  /** Key labels and labels only one side has keep their names; the left
      labels keep their positions. */
  lemma JoinedLabels(p: Plan, j: nat)
    requires p == MakePlan(p.lc, p.rc, p.keys)
    requires j < |p.lc| + |p.rest|
    ensures var cs := JoinedColumns(p);
      && (j < |p.lc| && (p.lc[j] in p.keys || p.lc[j] !in p.rc) ==> cs[j] == p.lc[j])
      && (j >= |p.lc| && RestLabels(p)[j - |p.lc|] !in p.lc ==> cs[j] == RestLabels(p)[j - |p.lc|])
  {
    RestLabelsOutsideKeys(p);
    JoinedLabelsAt(p, j);
  }

  lemma JoinedLabelsAt(p: Plan, j: nat)
    requires forall c | c in RestLabels(p) :: c in p.rc && c !in p.keys
    requires j < |p.lc| + |p.rest|
    ensures var cs := JoinedColumns(p);
      && (j < |p.lc| && (p.lc[j] in p.keys || p.lc[j] !in p.rc) ==> cs[j] == p.lc[j])
      && (j >= |p.lc| && RestLabels(p)[j - |p.lc|] !in p.lc ==> cs[j] == RestLabels(p)[j - |p.lc|])
  {
    var rl := RestLabels(p);
    var cs := JoinedColumns(p);
    if j < |p.lc| {
      assert cs[j] == LeftLabel(p.lc[j], p);
    } else {
      assert cs[j] == RightLabel(rl[j - |p.lc|], p);
    }
  }
}
