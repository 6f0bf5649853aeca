/** `_aggregate_repeat_instrument_by_index`: REDCap exports one row per
    repeat-instrument instance. The transform pivots the instance numbers into
    one column per instrument (one row per index tuple, each cell the
    aggregate of that tuple's instance numbers for that instrument), joins the
    pivot back onto the frame, keeps the first row of each index tuple and
    casts every new column. Cells stay text throughout: the instance numbers
    are compared as strings, exactly as the engine's `dtype=str` frames do. */
module RepeatInstruments {
  import opened Results
  import opened Seqs
  import opened Text
  import opened Tables
  import opened Sorting
  import opened Merging

  const InstrumentColumn: string := "redcap_repeat_instrument"
  const InstanceColumn: string := "redcap_repeat_instance"

  // ---------------------------------------------------------------------
  // Aggregators
  // ---------------------------------------------------------------------

  /** The named reductions the pivot is modelled with. */
  datatype Aggregator = Max | Min | First | Last

  function AggregatorName(a: Aggregator): string {
    match a
    case Max => "max"
    case Min => "min"
    case First => "first"
    case Last => "last"
  }

  /** The reduction a name selects; a name the grouped frame has no method
      for raises AttributeError. */
  function AggregatorNamed(name: string): (r: Result<Aggregator>)
    ensures r.Success? ==> AggregatorName(r.value) == name
    ensures r.Failure? ==> r.error == AttributeError(name)
  {
    if name == "max" then Success(Max)
    else if name == "min" then Success(Min)
    else if name == "first" then Success(First)
    else if name == "last" then Success(Last)
    else Failure(AttributeError(name))
  }

  /** Every aggregator is found under its own name. */
  lemma AggregatorNamedRoundTrip(a: Aggregator)
    ensures AggregatorNamed(AggregatorName(a)) == Success(a)
  {
  }

  /** The greatest text under Python's string `<`: no instance cell is
      above it. */
  function Greatest(xs: seq<string>): (r: string)
    requires |xs| > 0
    ensures r in xs
    ensures forall x | x in xs :: !Less(r, x)
  {
    if |xs| == 1 then
      LessIrreflexive(xs[0]);
      assert forall x | x in xs :: x == xs[0];
      xs[0]
    else
      var m := Greatest(xs[1..]);
      LessOrder();
      if Less(m, xs[0]) then
        forall x | x in xs ensures !Less(xs[0], x) {
          if x == xs[0] {
            LessIrreflexive(x);
          } else {
            assert x in xs[1..];
            LessAsymmetric(Less, m, xs[0]);
            NotLessTransitive(Less, x, m, xs[0]);
          }
        }
        xs[0]
      else
        assert forall x | x in xs :: x == xs[0] || x in xs[1..];
        m
  }

  /** The least text under Python's string `<`: no instance cell is below
      it. */
  function Least(xs: seq<string>): (r: string)
    requires |xs| > 0
    ensures r in xs
    ensures forall x | x in xs :: !Less(x, r)
  {
    if |xs| == 1 then
      LessIrreflexive(xs[0]);
      assert forall x | x in xs :: x == xs[0];
      xs[0]
    else
      var m := Least(xs[1..]);
      LessOrder();
      if Less(xs[0], m) then
        forall x | x in xs ensures !Less(x, xs[0]) {
          if x == xs[0] {
            LessIrreflexive(x);
          } else {
            assert x in xs[1..];
            LessAsymmetric(Less, xs[0], m);
            NotLessTransitive(Less, xs[0], m, x);
          }
        }
        xs[0]
      else
        assert forall x | x in xs :: x == xs[0] || x in xs[1..];
        m
  }

  /** One group's instance cells reduced to one: `max` gives a cell no other
      is above, `min` one no other is below, `first` and `last` the cells at
      the ends. */
  function Reduce(xs: seq<string>, a: Aggregator): (r: string)
    requires |xs| > 0
    ensures r in xs
    ensures a.Max? ==> forall x | x in xs :: !Less(r, x)
    ensures a.Min? ==> forall x | x in xs :: !Less(x, r)
    ensures a.First? ==> r == xs[0]
    ensures a.Last? ==> r == xs[|xs| - 1]
  {
    match a
    case Max => Greatest(xs)
    case Min => Least(xs)
    case First => xs[0]
    case Last => xs[|xs| - 1]
  }

  // ---------------------------------------------------------------------
  // The pivot table
  // ---------------------------------------------------------------------

  function Itself<T>(x: T): T {
    x
  }

  /** The index tuple of each row, top to bottom. */
  function KeyTuples(rows: seq<seq<string>>, pos: seq<nat>): (ks: seq<seq<string>>)
    ensures |ks| == |rows| && forall i | 0 <= i < |rows| :: ks[i] == Cells(rows[i], pos)
  {
    seq(|rows|, i requires 0 <= i < |rows| => Cells(rows[i], pos))
  }

  /** The pivot's rows: the distinct index tuples, sorted. */
  function PivotKeys(rows: seq<seq<string>>, pos: seq<nat>): seq<seq<string>> {
    Sort(Unique(KeyTuples(rows, pos)), Itself, TupleLess)
  }

  /** The pivot's new columns: the distinct instruments, sorted. */
  function Instruments(t: Table): seq<string>
    requires WellFormed(t) && InstrumentColumn in t.columns
  {
    Sort(Unique(Column(t, InstrumentColumn)), Itself, Less)
  }

  /** Where the pivot reads a row: the index cells, the instrument and the
      instance number. */
  datatype Layout = Layout(pos: seq<nat>, instrument: nat, instance: nat)

  predicate Fits(row: seq<string>, l: Layout) {
    l.instrument < |row| && l.instance < |row|
  }

  /** The instance cells of the rows holding index tuple `key` and
      `instrument`, top to bottom. */
  function InstanceValues(rows: seq<seq<string>>, l: Layout, key: seq<string>, instrument: string): (vs: seq<string>)
    ensures |vs| <= |rows|
  {
    if |rows| == 0 then []
    else
      var r := rows[0];
      (if Fits(r, l) && Cells(r, l.pos) == key && r[l.instrument] == instrument then [r[l.instance]] else [])
        + InstanceValues(rows[1..], l, key, instrument)
  }

  /** One pivot cell: the aggregate of its group, or the fill value when the
      index tuple has no row of that instrument. */
  function PivotCell(rows: seq<seq<string>>, l: Layout, key: seq<string>, instrument: string, a: Aggregator, fill: string): string {
    var vs := InstanceValues(rows, l, key, instrument);
    if |vs| == 0 then fill else Reduce(vs, a)
  }

  /** One pivot row: the index tuple, then a cell per instrument. */
  function PivotRow(rows: seq<seq<string>>, l: Layout, instruments: seq<string>, key: seq<string>, a: Aggregator, fill: string): (row: seq<string>)
    ensures |row| == |key| + |instruments|
  {
    key + seq(|instruments|, q requires 0 <= q < |instruments| => PivotCell(rows, l, key, instruments[q], a, fill))
  }

  function LayoutOf(t: Table, index: seq<string>): Layout {
    Layout(Positions(t.columns, index), IndexOf(t.columns, InstrumentColumn), IndexOf(t.columns, InstanceColumn))
  }

  /** The pivot's body: a row per distinct index tuple in sorted order, a
      column per instrument in sorted order. */
  function PivotTable(t: Table, index: seq<string>, a: Aggregator, fill: string): (r: Table)
    requires WellFormed(t) && InstrumentColumn in t.columns
    ensures WellFormed(r)
  {
    var l := LayoutOf(t, index);
    var instruments := Instruments(t);
    var keys := PivotKeys(t.rows, l.pos);
    var rows := seq(|keys|, i requires 0 <= i < |keys| => PivotRow(t.rows, l, instruments, keys[i], a, fill));
    assert forall i | 0 <= i < |keys| :: |rows[i]| == |index| + |instruments| by {
      PivotKeysWidth(t.rows, l.pos);
      forall i | 0 <= i < |keys| ensures |rows[i]| == |index| + |instruments| {
        assert keys[i] in keys;
      }
    }
    Table(index + instruments, rows)
  }

  /** `pivot_table(df, index=index, columns=[instrument], values=instance,
      aggfunc=aggregator, fill_value=fill)` with the index levels as
      ordinary leading columns. A missing instance column raises KeyError
      first, then the first missing index column; an unknown aggregator name
      raises AttributeError. */
  function Pivot(t: Table, index: seq<string>, aggregator: string, fill: string): (r: Result<Table>)
    requires WellFormed(t) && InstrumentColumn in t.columns
    ensures InstanceColumn !in t.columns ==> r == Failure(KeyError(InstanceColumn))
    ensures InstanceColumn in t.columns && FirstAbsent(index, t.columns).Some? ==>
      r == Failure(KeyError(FirstAbsent(index, t.columns).value))
    ensures r.Success? <==>
      InstanceColumn in t.columns && (forall c | c in index :: c in t.columns) && AggregatorNamed(aggregator).Success?
    ensures r.Success? ==> r.value == PivotTable(t, index, AggregatorNamed(aggregator).value, fill)
  {
    if InstanceColumn !in t.columns then Failure(KeyError(InstanceColumn))
    else match FirstAbsent(index, t.columns)
      case Some(c) => Failure(KeyError(c))
      case None =>
        var a :- AggregatorNamed(aggregator);
        Success(PivotTable(t, index, a, fill))
  }

  /** Every pivot key is an index tuple of the frame, as wide as the index. */
  lemma PivotKeysWidth(rows: seq<seq<string>>, pos: seq<nat>)
    ensures forall k | k in PivotKeys(rows, pos) :: |k| == |pos| && k in KeyTuples(rows, pos)
  {
    var ks := KeyTuples(rows, pos);
    forall k | k in PivotKeys(rows, pos) ensures |k| == |pos| && k in ks {
      SortMembers(Unique(ks), Itself, TupleLess, k);
    }
  }

  // ---------------------------------------------------------------------
  // Keeping the first row of each index tuple
  // ---------------------------------------------------------------------

  /** `drop_duplicates(keep="first")` on rows: a row is kept when no earlier
      row has its key. */
  function FirstOccurrences<T, K(==)>(xs: seq<T>, key: T -> K): (r: seq<T>)
    ensures |r| <= |xs|
  {
    if |xs| == 0 then []
    else
      var init := xs[..|xs| - 1];
      var last := xs[|xs| - 1];
      FirstOccurrences(init, key) + (if exists i | 0 <= i < |init| :: key(init[i]) == key(last) then [] else [last])
  }

  function KeyAt(pos: seq<nat>): seq<string> -> seq<string> {
    row => Cells(row, pos)
  }

  /** `df.drop_duplicates(subset, keep="first")`: a subset label the frame
      lacks raises KeyError. */
  function DropDuplicates(t: Table, subset: seq<string>): (r: Result<Table>)
    requires WellFormed(t)
    ensures r.Success? <==> forall c | c in subset :: c in t.columns
    ensures r.Failure? ==> r.error.KeyError? && r.error.key in subset && r.error.key !in t.columns
    ensures r.Success? ==>
      r.value.columns == t.columns && r.value.rows == FirstOccurrences(t.rows, KeyAt(Positions(t.columns, subset)))
  {
    match FirstAbsent(subset, t.columns)
    case Some(c) => Failure(KeyError(c))
    case None => Success(Table(t.columns, FirstOccurrences(t.rows, KeyAt(Positions(t.columns, subset)))))
  }

  /** The pivot joined back on the index and reduced to the first row of each
      index tuple (lines 599-609 of the transform). */
  function Collapse(t: Table, index: seq<string>, aggregator: string, fill: string): (r: Result<Table>)
    requires WellFormed(t) && InstrumentColumn in t.columns
  {
    var pivot :- Pivot(t, index, aggregator, fill);
    var joined :- Merging.Join(t, pivot, JoinSpec(Outer, Some(index)));
    DropDuplicates(joined, index)
  }

  // ---------------------------------------------------------------------
  // Casting the new columns
  // ---------------------------------------------------------------------

  /** The first cell the cast rejects, if any. */
  function FirstRejected(cells: seq<string>, cast: string -> Option<string>): (r: Option<string>)
    ensures r.None? <==> forall k | 0 <= k < |cells| :: cast(cells[k]).Some?
    ensures r.Some? ==> r.value in cells && cast(r.value).None?
  {
    if |cells| == 0 then None
    else if cast(cells[0]).None? then Some(cells[0])
    else
      var rest := FirstRejected(cells[1..], cast);
      assert forall k | 1 <= k < |cells| :: cells[k] == cells[1..][k - 1];
      rest
  }

  /** `df[c] = df[c].astype(dtype)`: a missing label raises KeyError, a cell
      the cast rejects raises ValueError, and otherwise every cell of the
      column is replaced by its cast. */
  function CastColumn(t: Table, c: string, cast: string -> Option<string>): (r: Result<Table>)
    requires WellFormed(t)
    ensures r.Failure? ==> r.error.KeyError? || r.error.ValueError?
    ensures r.Success? <==> c in t.columns && forall i | 0 <= i < |t.rows| :: cast(t.rows[i][IndexOf(t.columns, c)]).Some?
    ensures r.Success? ==> WellFormed(r.value) && r.value.columns == t.columns && |r.value.rows| == |t.rows|
    ensures r.Success? ==> forall i, j | 0 <= i < |t.rows| && 0 <= j < |t.columns| ::
      r.value.rows[i][j] == if j == IndexOf(t.columns, c) then cast(t.rows[i][j]).value else t.rows[i][j]
  {
    if c !in t.columns then Failure(KeyError(c))
    else
      var cells := Column(t, c);
      match FirstRejected(cells, cast)
      case Some(bad) => Failure(ValueError(bad))
      case None =>
        Success(SetColumn(t, c, seq(|cells|, i requires 0 <= i < |cells| => cast(cells[i]).value)))
  }

  /** The columns cast one after the other. */
  function CastColumns(t: Table, cs: seq<string>, cast: string -> Option<string>): (r: Result<Table>)
    requires WellFormed(t)
    ensures r.Failure? ==> r.error.KeyError? || r.error.ValueError?
    ensures r.Success? ==> WellFormed(r.value) && r.value.columns == t.columns && |r.value.rows| == |t.rows|
  {
    if |cs| == 0 then Success(t)
    else
      var prev :- CastColumns(t, cs[..|cs| - 1], cast);
      CastColumn(prev, cs[|cs| - 1], cast)
  }

  /** `_aggregate_repeat_instrument_by_index` as a value. The instrument
      column is read first (KeyError when absent); the new columns are the
      distinct instruments in order of appearance. */
  function Aggregate(t: Table, index: seq<string>, aggregator: string, cast: string -> Option<string>, fill: string): (r: Result<Table>)
    requires WellFormed(t)
    ensures r.Success? ==> WellFormed(r.value)
  {
    if InstrumentColumn !in t.columns then Failure(KeyError(InstrumentColumn))
    else
      var collapsed :- Collapse(t, index, aggregator, fill);
      CollapseWellFormed(t, index, aggregator, fill);
      CastColumns(collapsed, Unique(Column(t, InstrumentColumn)), cast)
  }

  /** Python's `float` on a text, as far as the model needs it: a decimal
      numeral (optional sign, digits, optional fraction) after stripping
      whitespace, or "nan"; the cell keeps its text. */
  function FloatCast(s: string): (r: Option<string>)
    ensures r.Some? ==> r.value == s
  {
    var u := Strip(s);
    if u == "nan" || IsDecimal(u) then Some(s) else None
  }

  predicate IsDecimal(u: string) {
    var v := if |u| > 0 && (u[0] == '+' || u[0] == '-') then u[1..] else u;
    var d := IndexOf(v, '.');
    var whole := if d < |v| then v[..d] else v;
    var frac := if d < |v| then v[d + 1..] else "";
    |whole| + |frac| > 0 && AllDigits(whole) && AllDigits(frac)
  }

  // ---------------------------------------------------------------------
  // The transform on frames
  // ---------------------------------------------------------------------

  /** The cast loop: each new column cast in turn on the collapsed frame. */
  method CastNewColumns(df: Frame, cs: seq<string>, cast: string -> Option<string>) returns (r: Result<Frame>)
    requires WellFormed(df.Value())
    modifies df
    ensures r.Success? <==> CastColumns(old(df.Value()), cs, cast).Success?
    ensures r.Failure? ==> r.error == CastColumns(old(df.Value()), cs, cast).error
    ensures r.Success? ==> r.value == df && df.Value() == CastColumns(old(df.Value()), cs, cast).value
  {
    ghost var t0 := df.Value();
    var k := 0;
    assert cs[..0] == [];
    while k < |cs|
      invariant 0 <= k <= |cs|
      invariant CastColumns(t0, cs[..k], cast).Success?
      invariant df.Value() == CastColumns(t0, cs[..k], cast).value
    {
      CastColumnsStep(t0, cs, cast, k);
      var next := CastColumn(df.Value(), cs[k], cast);
      if next.Failure? {
        CastColumnsFailurePersists(t0, cs, cast, k + 1);
        return Failure(next.error);
      }
      df.columns, df.rows := next.value.columns, next.value.rows;
      k := k + 1;
    }
    assert cs[..k] == cs;
    return Success(df);
  }

  lemma CastColumnsStep(t: Table, cs: seq<string>, cast: string -> Option<string>, k: nat)
    requires WellFormed(t) && k < |cs| && CastColumns(t, cs[..k], cast).Success?
    ensures CastColumns(t, cs[..k + 1], cast) == CastColumn(CastColumns(t, cs[..k], cast).value, cs[k], cast)
  {
    assert cs[..k + 1][..k] == cs[..k];
  }

  lemma {:induction false} CastColumnsFailurePersists(t: Table, cs: seq<string>, cast: string -> Option<string>, k: nat)
    requires WellFormed(t) && k <= |cs| && CastColumns(t, cs[..k], cast).Failure?
    ensures CastColumns(t, cs, cast) == CastColumns(t, cs[..k], cast)
    decreases |cs| - k
  {
    if k < |cs| {
      assert cs[..k + 1][..k] == cs[..k];
      CastColumnsFailurePersists(t, cs, cast, k + 1);
    } else {
      assert cs[..k] == cs;
    }
  }

  /** The transform: the frame it is given is left alone and a new frame is
      returned. */
  method AggregateRepeatInstrumentByIndex(df: Frame, index: seq<string>, aggregator: string, cast: string -> Option<string>, fill: string)
    returns (r: Result<Frame>)
    requires WellFormed(df.Value())
    ensures r.Success? <==> Aggregate(df.Value(), index, aggregator, cast, fill).Success?
    ensures r.Failure? ==> r.error == Aggregate(df.Value(), index, aggregator, cast, fill).error
    ensures r.Success? ==> fresh(r.value) && r.value.Value() == Aggregate(df.Value(), index, aggregator, cast, fill).value
  {
    var t := df.Value();
    if InstrumentColumn !in t.columns {
      return Failure(KeyError(InstrumentColumn));
    }
    var newColumns := Unique(Column(t, InstrumentColumn));
    var collapsed := Collapse(t, index, aggregator, fill);
    if collapsed.Failure? {
      return Failure(collapsed.error);
    }
    CollapseWellFormed(t, index, aggregator, fill);
    var out := new Frame(collapsed.value);
    r := CastNewColumns(out, newColumns, cast);
  }

  lemma CollapseWellFormed(t: Table, index: seq<string>, aggregator: string, fill: string)
    requires WellFormed(t) && InstrumentColumn in t.columns
    requires Collapse(t, index, aggregator, fill).Success?
    ensures WellFormed(Collapse(t, index, aggregator, fill).value)
  {
    var pivot := Pivot(t, index, aggregator, fill).value;
    var joined := Merging.Join(t, pivot, JoinSpec(Outer, Some(index))).value;
    var r := Collapse(t, index, aggregator, fill).value;
    forall i | 0 <= i < |r.rows| ensures |r.rows[i]| == |r.columns| {
      FirstOccurrencesMembers(joined.rows, KeyAt(Positions(joined.columns, index)), r.rows[i]);
    }
  }

  /** Every kept row is a row of the input. */
  lemma {:induction false} FirstOccurrencesMembers<T, K>(xs: seq<T>, key: T -> K, x: T)
    requires x in FirstOccurrences(xs, key)
    ensures x in xs
  {
    var n := |xs| - 1;
    if x in FirstOccurrences(xs[..n], key) {
      FirstOccurrencesMembers(xs[..n], key, x);
      assert x in xs[..n];
    }
  }

  /** Whether position `j` holds the first element of `xs` with its key. */
  ghost predicate FirstWithKey<T, K>(xs: seq<T>, key: T -> K, j: nat) {
    j < |xs| && forall i | 0 <= i < j :: key(xs[i]) != key(xs[j])
  }

  /** No two kept rows share a key. */
  lemma {:induction false} FirstOccurrencesDistinctKeys<T, K>(xs: seq<T>, key: T -> K)
    ensures var r := FirstOccurrences(xs, key);
      forall i, j | 0 <= i < j < |r| :: key(r[i]) != key(r[j])
  {
    if |xs| > 0 {
      var n := |xs| - 1;
      var init := xs[..n];
      FirstOccurrencesDistinctKeys(init, key);
      var prev := FirstOccurrences(init, key);
      var r := FirstOccurrences(xs, key);
      if !exists i | 0 <= i < |init| :: key(init[i]) == key(xs[n]) {
        assert r == prev + [xs[n]];
        forall i | 0 <= i < |prev| ensures key(prev[i]) != key(xs[n]) {
          FirstOccurrencesMembers(init, key, prev[i]);
          var k :| 0 <= k < |init| && init[k] == prev[i];
        }
        forall i, j | 0 <= i < j < |r| ensures key(r[i]) != key(r[j]) {
          assert r[i] == prev[i];
          if j < |prev| {
            assert r[j] == prev[j];
          }
        }
      } else {
        assert r == prev;
        forall i, j | 0 <= i < j < |r| ensures key(r[i]) != key(r[j]) {
          assert r[i] == prev[i] && r[j] == prev[j];
        }
      }
    }
  }

  /** Every row no earlier row shares a key with is kept. */
  lemma {:induction false} FirstOccurrencesKeeps<T, K>(xs: seq<T>, key: T -> K, j: nat)
    requires FirstWithKey(xs, key, j)
    ensures xs[j] in FirstOccurrences(xs, key)
  {
    var n := |xs| - 1;
    var init := xs[..n];
    if j < n {
      assert FirstWithKey(init, key, j);
      FirstOccurrencesKeeps(init, key, j);
    } else {
      assert !exists i | 0 <= i < |init| :: key(init[i]) == key(xs[n]);
    }
  }

  /** Every kept row is the first row with its key. */
  lemma {:induction false} FirstOccurrencesOnlyFirsts<T, K>(xs: seq<T>, key: T -> K, x: T)
    requires x in FirstOccurrences(xs, key)
    ensures exists j | 0 <= j < |xs| :: FirstWithKey(xs, key, j) && xs[j] == x
  {
    var n := |xs| - 1;
    var init := xs[..n];
    if x in FirstOccurrences(init, key) {
      FirstOccurrencesOnlyFirsts(init, key, x);
      var j :| 0 <= j < |init| && FirstWithKey(init, key, j) && init[j] == x;
      assert FirstWithKey(xs, key, j);
    } else {
      assert FirstWithKey(xs, key, n);
    }
  }

  /** Every key of the input is the key of a kept row. */
  lemma FirstOccurrencesCovers<T, K>(xs: seq<T>, key: T -> K, j: nat)
    requires j < |xs|
    ensures exists x | x in FirstOccurrences(xs, key) :: key(x) == key(xs[j])
  {
    var ks := seq(|xs|, i requires 0 <= i < |xs| => key(xs[i]));
    assert ks[j] == key(xs[j]);
    var f := IndexOf(ks, key(xs[j]));
    assert key(xs[f]) == key(xs[j]) by {
      assert ks[f] == key(xs[f]);
    }
    forall i | 0 <= i < f ensures key(xs[i]) != key(xs[f]) {
      assert ks[i] == key(xs[i]) && ks[i] != key(xs[j]);
    }
    assert FirstWithKey(xs, key, f);
    FirstOccurrencesKeeps(xs, key, f);
  }

  // ---------------------------------------------------------------------
  // What the aggregation guarantees
  // ---------------------------------------------------------------------

  /** The new columns are the instruments of the frame, each once, in
      Python's string order. */
  lemma InstrumentsMeaning(t: Table)
    requires WellFormed(t) && InstrumentColumn in t.columns
    ensures var ins := Instruments(t);
      && Distinct(ins)
      && SortedBy(ins, Itself, Less)
      && forall v :: v in ins <==> v in Column(t, InstrumentColumn)
  {
    var u := Unique(Column(t, InstrumentColumn));
    DistinctPermutation(u, Instruments(t));
    LessOrder();
    SortSorted(u, Itself, Less);
    forall v ensures v in Instruments(t) <==> v in Column(t, InstrumentColumn) {
      SortMembers(u, Itself, Less, v);
    }
  }

  /** Joining a frame to one that holds the keys followed by new labels:
      the right frame's non-key columns are the ones after the keys... */
  lemma RestPositionsAfterKeys(keys: seq<string>, extra: seq<string>)
    requires forall c | c in extra :: c !in keys
    ensures RestPositions(keys + extra, keys) == seq(|extra|, k => |keys| + k)
  {
    var rc := keys + extra;
    var keep := set c | c in rc && c !in keys;
    forall i | |keys| <= i < |rc| ensures rc[i] in keep {
      assert rc[i] == extra[i - |keys|];
    }
    forall i | 0 <= i < |keys| ensures rc[i] !in keep {
      assert rc[i] == keys[i];
    }
    KeptPositionsFrom(rc, |keys|, keep);
    var ps := KeptPositions(rc, keep);
    forall k | 0 <= k < |extra| ensures ps[k] == seq(|extra|, k => |keys| + k)[k] {
    }
  }

  /** ... so its non-key labels are the new labels. */
  lemma RestLabelsAfterKeys(lc: seq<string>, keys: seq<string>, extra: seq<string>)
    requires forall c | c in extra :: c !in keys
    ensures RestLabels(MakePlan(lc, keys + extra, keys)) == extra
  {
    RestPositionsAfterKeys(keys, extra);
    CellsAfterKeys(keys, extra, RestPositions(keys + extra, keys));
  }

  /** Reading the positions after the keys out of the keys followed by new
      labels gives back the new labels. */
  lemma CellsAfterKeys(keys: seq<string>, extra: seq<string>, rest: seq<nat>)
    requires rest == seq(|extra|, k => |keys| + k)
    ensures Cells(keys + extra, rest) == extra
  {
    var rc := keys + extra;
    var rl := Cells(rc, rest);
    forall k | 0 <= k < |extra| ensures rl[k] == extra[k] {
      assert rest[k] == |keys| + k;
      assert rc[|keys| + k] == extra[k];
    }
  }

  /** ... and when the new labels are not labels of the left frame, the
      joined labels are the left labels followed by the new ones. */
  lemma JoinedColumnsAfterKeys(lc: seq<string>, keys: seq<string>, extra: seq<string>)
    requires forall c | c in extra :: c !in keys && c !in lc
    ensures JoinedColumns(MakePlan(lc, keys + extra, keys)) == lc + extra
  {
    var p := MakePlan(lc, keys + extra, keys);
    assert p.lc == lc;
    RestLabelsAfterKeys(lc, keys, extra);
    assert RestLabels(p) == extra;
    JoinedColumnsUnsuffixed(p);
  }

  /** When no instrument is also a label of the frame, the collapsed frame
      has the frame's own labels followed by one column per instrument: the
      join adds no "_x"/"_y" suffix. */
  lemma CollapseColumns(t: Table, index: seq<string>, aggregator: string, fill: string)
    requires WellFormed(t) && InstrumentColumn in t.columns
    requires forall v | v in Column(t, InstrumentColumn) :: v !in t.columns
    requires Collapse(t, index, aggregator, fill).Success?
    ensures Collapse(t, index, aggregator, fill).value.columns == t.columns + Instruments(t)
  {
    var ins := Instruments(t);
    InstrumentsMeaning(t);
    var pivot := Pivot(t, index, aggregator, fill).value;
    assert pivot.columns == index + ins;
    assert forall c | c in ins :: c !in index && c !in t.columns;
    JoinedColumnsAfterKeys(t.columns, index, ins);
  }

  /** No two rows of the collapsed frame share an index tuple. */
  lemma CollapseUniqueIndex(t: Table, index: seq<string>, aggregator: string, fill: string)
    requires WellFormed(t) && InstrumentColumn in t.columns
    requires Collapse(t, index, aggregator, fill).Success?
    ensures var r := Collapse(t, index, aggregator, fill).value;
      forall i, j | 0 <= i < j < |r.rows| ::
        Cells(r.rows[i], Positions(r.columns, index)) != Cells(r.rows[j], Positions(r.columns, index))
  {
    var pivot := Pivot(t, index, aggregator, fill).value;
    var joined := Merging.Join(t, pivot, JoinSpec(Outer, Some(index))).value;
    var r := Collapse(t, index, aggregator, fill).value;
    var key := KeyAt(Positions(joined.columns, index));
    assert r.columns == joined.columns && r.rows == FirstOccurrences(joined.rows, key);
    FirstOccurrencesDistinctKeys(joined.rows, key);
  }

  /** Every row of the collapsed frame is the first joined row with its index
      tuple, and every index tuple of the joined frame keeps such a row. */
  lemma CollapseKeepsFirst(t: Table, index: seq<string>, aggregator: string, fill: string)
    requires WellFormed(t) && InstrumentColumn in t.columns
    requires Collapse(t, index, aggregator, fill).Success?
    ensures var pivot := Pivot(t, index, aggregator, fill).value;
      var joined := Merging.Join(t, pivot, JoinSpec(Outer, Some(index))).value;
      var r := Collapse(t, index, aggregator, fill).value;
      var key := KeyAt(Positions(joined.columns, index));
      && r.columns == joined.columns
      && (forall x | x in r.rows :: exists j | 0 <= j < |joined.rows| :: FirstWithKey(joined.rows, key, j) && joined.rows[j] == x)
      && (forall j | 0 <= j < |joined.rows| && FirstWithKey(joined.rows, key, j) :: joined.rows[j] in r.rows)
  {
    var pivot := Pivot(t, index, aggregator, fill).value;
    var joined := Merging.Join(t, pivot, JoinSpec(Outer, Some(index))).value;
    var key := KeyAt(Positions(joined.columns, index));
    forall x | x in FirstOccurrences(joined.rows, key)
      ensures exists j | 0 <= j < |joined.rows| :: FirstWithKey(joined.rows, key, j) && joined.rows[j] == x
    {
      FirstOccurrencesOnlyFirsts(joined.rows, key, x);
    }
    forall j | 0 <= j < |joined.rows| && FirstWithKey(joined.rows, key, j)
      ensures joined.rows[j] in FirstOccurrences(joined.rows, key)
    {
      FirstOccurrencesKeeps(joined.rows, key, j);
    }
  }

  // ---------------------------------------------------------------------
  // What each aggregated cell holds
  // ---------------------------------------------------------------------

  /** A pivot row starts with its index tuple, so reading the index labels'
      positions in the pivot's labels gives the tuple back. */
  lemma KeyPrefixCells(cols: seq<string>, index: seq<string>, extra: seq<string>, r: seq<string>, rest: seq<string>)
    requires |r| == |cols| && forall c | c in index :: c in cols
    ensures var key := Cells(r, Positions(cols, index));
      Cells(key + rest, Positions(index + extra, index)) == key
  {
    var pos := Positions(cols, index);
    var key := Cells(r, pos);
    var row := key + rest;
    var rpos := Positions(index + extra, index);
    var got := Cells(row, rpos);
    forall m | 0 <= m < |index| ensures got[m] == key[m] {
      var j := IndexOf(index + extra, index[m]);
      assert (index + extra)[m] == index[m];
      assert j <= m;
      assert index[j] == index[m] by {
        assert (index + extra)[j] == index[j];
      }
      assert rpos[m] == j && j < |row|;
      assert got[m] == row[j] == key[j];
      assert index[m] in cols && index[j] in cols;
      assert pos[j] == pos[m] && pos[m] < |r|;
    }
  }

  /** A pivot row is its key tuple followed by one aggregated cell per
      instrument. */
  lemma PivotRowCells(rows: seq<seq<string>>, l: Layout, ins: seq<string>, key: seq<string>, a: Aggregator, fill: string)
    ensures var row := PivotRow(rows, l, ins, key, a, fill);
      && row[..|key|] == key
      && forall q | 0 <= q < |ins| :: row[|key| + q] == PivotCell(rows, l, key, ins[q], a, fill)
  {
  }

  /** The pivot's rows, one per key. */
  lemma PivotRowAt(t: Table, index: seq<string>, a: Aggregator, fill: string, kk: nat)
    requires WellFormed(t) && InstrumentColumn in t.columns
    requires kk < |PivotTable(t, index, a, fill).rows|
    ensures var keys := PivotKeys(t.rows, Positions(t.columns, index));
      && kk < |keys|
      && PivotTable(t, index, a, fill).rows[kk] == PivotRow(t.rows, LayoutOf(t, index), Instruments(t), keys[kk], a, fill)
  {
  }

  /** A pivot row built for the index tuple of some row reads its key back
      at the index labels' positions in the pivot. */
  lemma KeyRowRead(cols: seq<string>, rows: seq<seq<string>>, index: seq<string>, l: Layout, ins: seq<string>,
                   key: seq<string>, a: Aggregator, fill: string)
    requires forall r | r in rows :: |r| == |cols|
    requires forall c | c in index :: c in cols
    requires key in KeyTuples(rows, Positions(cols, index))
    ensures var row := PivotRow(rows, l, ins, key, a, fill);
      && |row| == |index| + |ins|
      && Cells(row, Positions(index + ins, index)) == key
      && forall q | 0 <= q < |ins| :: row[|index| + q] == PivotCell(rows, l, key, ins[q], a, fill)
  {
    var ks := KeyTuples(rows, Positions(cols, index));
    var i :| 0 <= i < |rows| && ks[i] == key;
    assert rows[i] in rows;
    var row := PivotRow(rows, l, ins, key, a, fill);
    PivotRowCells(rows, l, ins, key, a, fill);
    assert row == key + row[|key|..];
    KeyPrefixCells(cols, index, ins, rows[i], row[|key|..]);
  }

  /** Each pivot row holds its key tuple, which is the index tuple of some
      row of the frame, followed by one aggregated cell per instrument. */
  lemma PivotRowsRead(t: Table, index: seq<string>, a: Aggregator, fill: string, kk: nat)
    requires WellFormed(t) && InstrumentColumn in t.columns && forall c | c in index :: c in t.columns
    requires kk < |PivotTable(t, index, a, fill).rows|
    ensures var pivot := PivotTable(t, index, a, fill);
      var pos := Positions(t.columns, index);
      var keys := PivotKeys(t.rows, pos);
      && kk < |keys|
      && |pivot.rows[kk]| == |index| + |Instruments(t)|
      && Cells(pivot.rows[kk], Positions(index + Instruments(t), index)) == keys[kk]
      && keys[kk] in KeyTuples(t.rows, pos)
      && forall q | 0 <= q < |Instruments(t)| ::
        pivot.rows[kk][|index| + q] == PivotCell(t.rows, LayoutOf(t, index), keys[kk], Instruments(t)[q], a, fill)
  {
    var pos := Positions(t.columns, index);
    var keys := PivotKeys(t.rows, pos);
    PivotRowAt(t, index, a, fill, kk);
    PivotKeysWidth(t.rows, pos);
    assert keys[kk] in keys;
    assert forall r | r in t.rows :: |r| == |t.columns|;
    KeyRowRead(t.columns, t.rows, index, LayoutOf(t, index), Instruments(t), keys[kk], a, fill);
  }

  /** Every index tuple of the frame is a key of the pivot. */
  lemma KeyInPivot(t: Table, index: seq<string>, a: Aggregator, fill: string, i: nat) returns (kk: nat)
    requires WellFormed(t) && InstrumentColumn in t.columns && i < |t.rows|
    ensures kk < |PivotTable(t, index, a, fill).rows|
    ensures PivotKeys(t.rows, Positions(t.columns, index))[kk] == Cells(t.rows[i], Positions(t.columns, index))
  {
    var pos := Positions(t.columns, index);
    var ks := KeyTuples(t.rows, pos);
    assert ks[i] in ks && ks[i] in Unique(ks);
    SortMembers(Unique(ks), Itself, TupleLess, ks[i]);
    var keys := PivotKeys(t.rows, pos);
    kk :| 0 <= kk < |keys| && keys[kk] == ks[i];
  }

  /** In the join of the frame with its pivot every row on either side has a
      partner: the pivot's keys are exactly the frame's index tuples. */
  lemma CollapseAllPartnered(t: Table, index: seq<string>, a: Aggregator, fill: string)
    requires WellFormed(t) && InstrumentColumn in t.columns && forall c | c in index :: c in t.columns
    ensures var pivot := PivotTable(t, index, a, fill);
      var p := MakePlan(t.columns, pivot.columns, index);
      && (forall i | 0 <= i < |t.rows| :: HasPartner(t.rows[i], pivot.rows, p))
      && (forall k | 0 <= k < |pivot.rows| :: IsPartnered(t.rows, pivot.rows[k], p))
  {
    var pivot := PivotTable(t, index, a, fill);
    var p := MakePlan(t.columns, pivot.columns, index);
    var pos := Positions(t.columns, index);
    assert pivot.columns == index + Instruments(t);
    forall i | 0 <= i < |t.rows| ensures HasPartner(t.rows[i], pivot.rows, p) {
      var kk := KeyInPivot(t, index, a, fill, i);
      PivotRowsRead(t, index, a, fill, kk);
      assert SameKey(t.rows[i], pivot.rows[kk], p);
    }
    forall k | 0 <= k < |pivot.rows| ensures IsPartnered(t.rows, pivot.rows[k], p) {
      PivotRowsRead(t, index, a, fill, k);
      var ks := KeyTuples(t.rows, pos);
      var i :| 0 <= i < |t.rows| && ks[i] == PivotKeys(t.rows, pos)[k];
      assert SameKey(t.rows[i], pivot.rows[k], p);
    }
  }

  /** Every row of the collapsed frame combines a row of the frame with
      the pivot row holding its index tuple. */
  lemma CollapseRowMatch(t: Table, index: seq<string>, a: Aggregator, fill: string, x: seq<string>)
    returns (i: nat, k: nat)
    requires WellFormed(t) && InstrumentColumn in t.columns
    requires Collapse(t, index, AggregatorName(a), fill).Success?
    requires x in Collapse(t, index, AggregatorName(a), fill).value.rows
    ensures forall c | c in index :: c in t.columns
    ensures var pivot := PivotTable(t, index, a, fill);
      var p := MakePlan(t.columns, pivot.columns, index);
      && i < |t.rows| && k < |pivot.rows|
      && SameKey(t.rows[i], pivot.rows[k], p) && x == Combine(t.rows[i], pivot.rows[k], p)
  {
    AggregatorNamedRoundTrip(a);
    var pivot := PivotTable(t, index, a, fill);
    assert Pivot(t, index, AggregatorName(a), fill) == Success(pivot);
    var joinedR := Merging.Join(t, pivot, JoinSpec(Outer, Some(index)));
    assert joinedR.Success?;
    var joined := joinedR.value;
    var p := MakePlan(t.columns, pivot.columns, index);
    assert KeyColumns(t.columns, pivot.columns, Some(index)) == Success(index);
    assert joined.rows == JoinRows(t, pivot, p, Outer);
    var key := KeyAt(Positions(joined.columns, index));
    assert Collapse(t, index, AggregatorName(a), fill).value.rows == FirstOccurrences(joined.rows, key);
    FirstOccurrencesMembers(joined.rows, key, x);
    OuterJoinMembers(t, pivot, p, x);
    CollapseAllPartnered(t, index, a, fill);
    assert !PaddedLeft(t.rows, pivot.rows, p, x);
    assert !PaddedRight(t.rows, pivot.rows, p, x);
    var i' :| 0 <= i' < |t.rows| && MatchOf(t.rows[i'], pivot.rows, p, x);
    i := i';
    k :| 0 <= k < |pivot.rows| && SameKey(t.rows[i], pivot.rows[k], p) && x == Combine(t.rows[i], pivot.rows[k], p);
  }

  /** A combined row keeps the left row's key and holds the right row's
      non-key cells after the left row, when those are the cells after the
      right row's keys. */
  lemma CombinedRowRead(lrow: seq<string>, prow: seq<string>, p: Plan, nIndex: nat, nIns: nat)
    requires |prow| == nIndex + nIns && p.rest == seq(nIns, q => nIndex + q)
    requires forall m | 0 <= m < |p.lpos| :: p.lpos[m] < |lrow|
    ensures var x := Combine(lrow, prow, p);
      && |x| == |lrow| + nIns
      && x[|lrow|..] == prow[nIndex..]
      && Cells(x, p.lpos) == Cells(lrow, p.lpos)
  {
    var x := Combine(lrow, prow, p);
    assert x[|lrow|..] == Cells(prow, p.rest);
    forall q | 0 <= q < nIns ensures Cells(prow, p.rest)[q] == prow[nIndex..][q] {
      assert p.rest[q] == nIndex + q;
    }
    forall m | 0 <= m < |p.lpos| ensures Cells(x, p.lpos)[m] == Cells(lrow, p.lpos)[m] {
      assert x[p.lpos[m]] == lrow[p.lpos[m]];
    }
  }

  /** A frame row combined with its partner pivot row: the combined row
      reads the pivot key at the index labels' positions and the pivot row's
      aggregated cells after the frame's own columns. */
  lemma PartneredRowParts(t: Table, index: seq<string>, a: Aggregator, fill: string, i: nat, k: nat)
    requires WellFormed(t) && InstrumentColumn in t.columns
    requires forall v | v in Column(t, InstrumentColumn) :: v !in t.columns
    requires forall c | c in index :: c in t.columns
    requires i < |t.rows| && k < |PivotTable(t, index, a, fill).rows|
    requires var pivot := PivotTable(t, index, a, fill);
      SameKey(t.rows[i], pivot.rows[k], MakePlan(t.columns, pivot.columns, index))
    ensures var pivot := PivotTable(t, index, a, fill);
      var x := Combine(t.rows[i], pivot.rows[k], MakePlan(t.columns, pivot.columns, index));
      var lpos := Positions(t.columns, index);
      && |x| == |t.columns| + |Instruments(t)|
      && |pivot.rows[k]| == |index| + |Instruments(t)|
      && k < |PivotKeys(t.rows, lpos)|
      && Cells(x, lpos) == PivotKeys(t.rows, lpos)[k]
      && x[|t.columns|..] == pivot.rows[k][|index|..]
  {
    var ins := Instruments(t);
    var pivot := PivotTable(t, index, a, fill);
    var p := MakePlan(t.columns, pivot.columns, index);
    var lrow := t.rows[i];
    PivotRowsRead(t, index, a, fill, k);
    InstrumentsMeaning(t);
    assert pivot.columns == index + ins;
    RestPositionsAfterKeys(index, ins);
    assert lrow in t.rows;
    CombinedRowRead(lrow, pivot.rows[k], p, |index|, |ins|);
  }

  /** What the transform promises of each instrument column: in every row
      of the collapsed frame, the cell of instrument `q` is the aggregate of
      the instance numbers of that row's index tuple and that instrument (or
      the fill value when there are none). */
  lemma CollapseCells(t: Table, index: seq<string>, a: Aggregator, fill: string, x: seq<string>)
    requires WellFormed(t) && InstrumentColumn in t.columns
    requires forall v | v in Column(t, InstrumentColumn) :: v !in t.columns
    requires Collapse(t, index, AggregatorName(a), fill).Success?
    requires x in Collapse(t, index, AggregatorName(a), fill).value.rows
    ensures |x| == |t.columns| + |Instruments(t)|
    ensures forall q | 0 <= q < |Instruments(t)| ::
      x[|t.columns| + q] == PivotCell(t.rows, LayoutOf(t, index), Cells(x, Positions(t.columns, index)), Instruments(t)[q], a, fill)
  {
    var i, k := CollapseRowMatch(t, index, a, fill, x);
    PartneredRowParts(t, index, a, fill, i, k);
    PivotRowsRead(t, index, a, fill, k);
    var prow := PivotTable(t, index, a, fill).rows[k];
    forall q | 0 <= q < |Instruments(t)|
      ensures x[|t.columns| + q] == PivotCell(t.rows, LayoutOf(t, index), Cells(x, Positions(t.columns, index)), Instruments(t)[q], a, fill)
    {
      assert x[|t.columns| + q] == x[|t.columns|..][q] == prow[|index|..][q];
    }
  }

  /** A cast that keeps each accepted cell's text leaves the frame as it was. */
  lemma {:induction false} CastColumnsKeepsText(t: Table, cs: seq<string>, cast: string -> Option<string>)
    requires WellFormed(t)
    requires forall s | cast(s).Some? :: cast(s).value == s
    requires CastColumns(t, cs, cast).Success?
    ensures CastColumns(t, cs, cast).value == t
  {
    if |cs| > 0 {
      var n := |cs| - 1;
      CastColumnsKeepsText(t, cs[..n], cast);
      var r := CastColumn(t, cs[n], cast).value;
      assert r.rows == t.rows by {
        forall i | 0 <= i < |t.rows| ensures r.rows[i] == t.rows[i] {
          forall j | 0 <= j < |t.columns| ensures r.rows[i][j] == t.rows[i][j] {
          }
        }
      }
    }
  }

  /** Whether the casts of `cs` touch position `j`: each cast reads and
      writes the first column carrying its label. */
  predicate CastAt(cols: seq<string>, cs: seq<string>, j: nat)
    requires j < |cols|
  {
    cols[j] in cs && IndexOf(cols, cols[j]) == j
  }

  /** Casting distinct columns one after the other casts each cell of those
      columns once and leaves every other cell as it was. */
  lemma {:induction false} CastColumnsCells(t: Table, cs: seq<string>, cast: string -> Option<string>)
    requires WellFormed(t) && Distinct(cs) && CastColumns(t, cs, cast).Success?
    ensures var r := CastColumns(t, cs, cast).value;
      forall i, j | 0 <= i < |t.rows| && 0 <= j < |t.columns| && CastAt(t.columns, cs, j) ::
        cast(t.rows[i][j]).Some? && r.rows[i][j] == cast(t.rows[i][j]).value
    ensures var r := CastColumns(t, cs, cast).value;
      forall i, j | 0 <= i < |t.rows| && 0 <= j < |t.columns| && !CastAt(t.columns, cs, j) ::
        r.rows[i][j] == t.rows[i][j]
  {
    if |cs| > 0 {
      var n := |cs| - 1;
      assert Distinct(cs[..n]) by {
        forall a, b | 0 <= a < b < n ensures cs[..n][a] != cs[..n][b] {
          assert cs[..n][a] == cs[a] && cs[..n][b] == cs[b];
        }
      }
      CastColumnsCells(t, cs[..n], cast);
      CastOneMore(t, CastColumns(t, cs[..n], cast).value, cs, cast);
    }
  }

  /** One more cast on top of the casts of all but the last of `cs`: the
      last column's cells are cast once, and every other cell is as before. */
  lemma CastOneMore(t: Table, prev: Table, cs: seq<string>, cast: string -> Option<string>)
    requires WellFormed(t) && WellFormed(prev) && prev.columns == t.columns && |prev.rows| == |t.rows|
    requires |cs| > 0 && Distinct(cs) && CastColumn(prev, cs[|cs| - 1], cast).Success?
    requires forall i, j | 0 <= i < |t.rows| && 0 <= j < |t.columns| && CastAt(t.columns, cs[..|cs| - 1], j) ::
      cast(t.rows[i][j]).Some? && prev.rows[i][j] == cast(t.rows[i][j]).value
    requires forall i, j | 0 <= i < |t.rows| && 0 <= j < |t.columns| && !CastAt(t.columns, cs[..|cs| - 1], j) ::
      prev.rows[i][j] == t.rows[i][j]
    ensures var r := CastColumn(prev, cs[|cs| - 1], cast).value;
      forall i, j | 0 <= i < |t.rows| && 0 <= j < |t.columns| && CastAt(t.columns, cs, j) ::
        cast(t.rows[i][j]).Some? && r.rows[i][j] == cast(t.rows[i][j]).value
    ensures var r := CastColumn(prev, cs[|cs| - 1], cast).value;
      forall i, j | 0 <= i < |t.rows| && 0 <= j < |t.columns| && !CastAt(t.columns, cs, j) ::
        r.rows[i][j] == t.rows[i][j]
  {
    var n := |cs| - 1;
    var c := cs[n];
    var done := cs[..n];
    var r := CastColumn(prev, c, cast).value;
    var k := IndexOf(t.columns, c);
    assert cs == done + [c];
    assert c !in done by {
      forall m | 0 <= m < n ensures done[m] != c {
        assert done[m] == cs[m];
      }
    }
    forall j | 0 <= j < |t.columns| ensures CastAt(t.columns, cs, j) <==> CastAt(t.columns, done, j) || j == k {
      assert t.columns[j] in cs <==> t.columns[j] in done || t.columns[j] == c;
    }
    forall i, j | 0 <= i < |t.rows| && 0 <= j < |t.columns| && CastAt(t.columns, cs, j)
      ensures cast(t.rows[i][j]).Some? && r.rows[i][j] == cast(t.rows[i][j]).value
    {
      if j == k {
        assert !CastAt(t.columns, done, j);
        assert cast(prev.rows[i][IndexOf(prev.columns, c)]).Some?;
      } else {
        assert CastAt(t.columns, done, j);
      }
    }
  }

  /** Casting the columns appended after `base` in one row: the `base`
      cells stay, each appended cell is cast. */
  lemma CastAppendedRow(c: Table, base: seq<string>, ins: seq<string>, cs: seq<string>, cast: string -> Option<string>, i: nat)
    requires WellFormed(c) && c.columns == base + ins && Distinct(ins) && Distinct(cs)
    requires forall v | v in cs :: v !in base
    requires forall v | v in ins :: v in cs
    requires CastColumns(c, cs, cast).Success? && i < |c.rows|
    ensures var x := CastColumns(c, cs, cast).value.rows[i];
      && |x| == |base| + |ins|
      && x[..|base|] == c.rows[i][..|base|]
      && forall q | 0 <= q < |ins| :: cast(c.rows[i][|base|..][q]).Some? && x[|base|..][q] == cast(c.rows[i][|base|..][q]).value
  {
    var r := CastColumns(c, cs, cast).value;
    CastColumnsCells(c, cs, cast);
    assert c.rows[i] in c.rows;
    assert r.rows[i] in r.rows;
    forall j | 0 <= j < |base| ensures r.rows[i][j] == c.rows[i][j] {
      assert !CastAt(c.columns, cs, j) by { assert c.columns[j] == base[j]; }
    }
    forall q | 0 <= q < |ins| ensures cast(c.rows[i][|base|..][q]).Some? && r.rows[i][|base|..][q] == cast(c.rows[i][|base|..][q]).value {
      var j := |base| + q;
      assert c.columns[j] == ins[q];
      assert CastAt(c.columns, cs, j);
    }
  }

  /** Rows agreeing before `n` read the same cells at positions before `n`. */
  lemma CellsBefore(x: seq<string>, y: seq<string>, n: nat, pos: seq<nat>)
    requires n <= |x| && n <= |y| && x[..n] == y[..n]
    requires forall m | 0 <= m < |pos| :: pos[m] < n
    ensures Cells(x, pos) == Cells(y, pos)
  {
    forall m | 0 <= m < |pos| ensures Cells(x, pos)[m] == Cells(y, pos)[m] {
      assert x[pos[m]] == x[..n][pos[m]];
    }
  }

  /** What the transform promises of each instrument column once cast: in
      every row of the result, the cell of instrument `q` is the cast of the
      aggregate of that row's index tuple and instrument (or of the fill
      value when there are none). */
  lemma AggregateCells(t: Table, index: seq<string>, a: Aggregator, cast: string -> Option<string>, fill: string, x: seq<string>)
    requires WellFormed(t) && InstrumentColumn in t.columns
    requires forall v | v in Column(t, InstrumentColumn) :: v !in t.columns
    requires Aggregate(t, index, AggregatorName(a), cast, fill).Success?
    requires x in Aggregate(t, index, AggregatorName(a), cast, fill).value.rows
    ensures |x| == |t.columns| + |Instruments(t)|
    ensures forall q | 0 <= q < |Instruments(t)| ::
      var cell := PivotCell(t.rows, LayoutOf(t, index), Cells(x, Positions(t.columns, index)), Instruments(t)[q], a, fill);
      cast(cell).Some? && x[|t.columns| + q] == cast(cell).value
  {
    var collapsed := Collapse(t, index, AggregatorName(a), fill).value;
    CollapseWellFormed(t, index, AggregatorName(a), fill);
    CollapseColumns(t, index, AggregatorName(a), fill);
    var cs := Unique(Column(t, InstrumentColumn));
    InstrumentsMeaning(t);
    var r := CastColumns(collapsed, cs, cast).value;
    var i :| 0 <= i < |r.rows| && r.rows[i] == x;
    CastAppendedRow(collapsed, t.columns, Instruments(t), cs, cast, i);
    var y := collapsed.rows[i];
    assert y in collapsed.rows;
    CollapseCells(t, index, a, fill, y);
    var _, _ := CollapseRowMatch(t, index, a, fill, y);
    CellsBefore(x, y, |t.columns|, Positions(t.columns, index));
    forall q | 0 <= q < |Instruments(t)|
      ensures var cell := PivotCell(t.rows, LayoutOf(t, index), Cells(x, Positions(t.columns, index)), Instruments(t)[q], a, fill);
        cast(cell).Some? && x[|t.columns| + q] == cast(cell).value
    {
      assert x[|t.columns| + q] == x[|t.columns|..][q];
      assert y[|t.columns| + q] == y[|t.columns|..][q];
    }
  }

  /** With the float cast, which keeps each cell's text, the transform is
      the collapse itself. */
  lemma AggregateWithFloat(t: Table, index: seq<string>, aggregator: string, fill: string)
    requires WellFormed(t) && InstrumentColumn in t.columns
    ensures Aggregate(t, index, aggregator, FloatCast, fill).Success? ==>
      Aggregate(t, index, aggregator, FloatCast, fill) == Collapse(t, index, aggregator, fill)
  {
    var r := Aggregate(t, index, aggregator, FloatCast, fill);
    if r.Success? {
      var collapsed := Collapse(t, index, aggregator, fill).value;
      CollapseWellFormed(t, index, aggregator, fill);
      CastColumnsKeepsText(collapsed, Unique(Column(t, InstrumentColumn)), FloatCast);
    }
  }
}
