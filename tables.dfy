/** The data frames the engine works on. Every frame is built with
    `dtype = str`, so a frame's value is a list of column labels and a list of
    rows of text cells, each row as long as the label list. A `Frame` is the
    mutable object: transforms that write through `df[...]` or `df.loc[...]`
    change it in place, and everyone holding the same frame sees the change. */
module Tables {
  import opened Seqs
  import opened Results

  datatype Table = Table(columns: seq<string>, rows: seq<seq<string>>)

  ghost predicate WellFormed(t: Table) {
    forall i | 0 <= i < |t.rows| :: |t.rows[i]| == |t.columns|
  }

  /** The text of a cell that a join leaves empty (`str(numpy.nan)`). */
  const NanText: string := "nan"

  /** The cells of column `name` (its first occurrence), top to bottom. */
  function Column(t: Table, name: string): (values: seq<string>)
    requires WellFormed(t) && name in t.columns
    ensures |values| == |t.rows|
    ensures forall i | 0 <= i < |t.rows| :: values[i] == t.rows[i][IndexOf(t.columns, name)]
  {
    var j := IndexOf(t.columns, name);
    seq(|t.rows|, i requires 0 <= i < |t.rows| => t.rows[i][j])
  }

  /** Positions of the columns whose label is in `keep`, in increasing order. */
  function KeptPositions(cols: seq<string>, keep: set<string>): (ps: seq<nat>)
    ensures forall k | 0 <= k < |ps| :: ps[k] < |cols| && cols[ps[k]] in keep
    ensures forall j | 0 <= j < |cols| && cols[j] in keep :: j in ps
    ensures forall k, l | 0 <= k < l < |ps| :: ps[k] < ps[l]
  {
    if |cols| == 0 then []
    else
      var ps := KeptPositions(cols[..|cols| - 1], keep);
      if cols[|cols| - 1] in keep then ps + [|cols| - 1] else ps
  }

  /** Two keep-sets that agree on the labels present select the same positions. */
  lemma {:induction false} KeptPositionsAgree(cols: seq<string>, a: set<string>, b: set<string>)
    requires forall c | c in cols :: (c in a <==> c in b)
    ensures KeptPositions(cols, a) == KeptPositions(cols, b)
  {
    if |cols| > 0 {
      KeptPositionsAgree(cols[..|cols| - 1], a, b);
    }
  }

  /** Keeping every label keeps every position. */
  lemma {:induction false} KeptPositionsAll(cols: seq<string>, keep: set<string>)
    requires forall c | c in cols :: c in keep
    ensures var ps := KeptPositions(cols, keep);
      |ps| == |cols| && forall k | 0 <= k < |ps| :: ps[k] == k
  {
    if |cols| > 0 {
      var n := |cols| - 1;
      assert forall c | c in cols[..n] :: c in cols;
      KeptPositionsAll(cols[..n], keep);
      assert cols[n] in cols;
      var ps := KeptPositions(cols[..n], keep);
      assert KeptPositions(cols, keep) == ps + [n];
    }
  }

  /** No label kept, no position kept. */
  lemma {:induction false} KeptPositionsNone(cols: seq<string>, keep: set<string>)
    requires forall c | c in cols :: c !in keep
    ensures KeptPositions(cols, keep) == []
  {
    if |cols| > 0 {
      var n := |cols| - 1;
      assert forall c | c in cols[..n] :: c in cols;
      KeptPositionsNone(cols[..n], keep);
      assert cols[n] in cols;
    }
  }

  /** When exactly the labels from position `j` on are kept, the kept
      positions are `j`, `j + 1`, ... up to the last. */
  lemma {:induction false} KeptPositionsFrom(cols: seq<string>, j: nat, keep: set<string>)
    requires j <= |cols|
    requires forall i | 0 <= i < j :: cols[i] !in keep
    requires forall i | j <= i < |cols| :: cols[i] in keep
    ensures var ps := KeptPositions(cols, keep);
      |ps| == |cols| - j && forall k | 0 <= k < |ps| :: ps[k] == j + k
  {
    if |cols| > 0 {
      var n := |cols| - 1;
      var init := cols[..n];
      assert forall i | 0 <= i < n :: init[i] == cols[i];
      if j == |cols| {
        KeptPositionsFrom(init, n, keep);
      } else {
        KeptPositionsFrom(init, j, keep);
      }
    }
  }

  /** The frame cut down to the columns whose label is in `keep`, in their
      original order, with every row and every kept cell unchanged. */
  function Restrict(t: Table, keep: set<string>): (r: Table)
    requires WellFormed(t)
    ensures WellFormed(r)
    ensures |r.rows| == |t.rows|
    ensures var ps := KeptPositions(t.columns, keep);
      && |r.columns| == |ps|
      && (forall k | 0 <= k < |ps| :: r.columns[k] == t.columns[ps[k]])
      && (forall i, k | 0 <= i < |t.rows| && 0 <= k < |ps| :: r.rows[i][k] == t.rows[i][ps[k]])
  {
    var ps := KeptPositions(t.columns, keep);
    Table(Pick(t.columns, ps), seq(|t.rows|, i requires 0 <= i < |t.rows| => Pick(t.rows[i], ps)))
  }

  /** The restricted frame's labels are exactly the present labels in `keep`. */
  lemma RestrictMembers(t: Table, keep: set<string>)
    requires WellFormed(t)
    ensures forall c | c in Restrict(t, keep).columns :: c in t.columns && c in keep
    ensures forall c | c in t.columns && c in keep :: c in Restrict(t, keep).columns
  {
    var ps := KeptPositions(t.columns, keep);
    var r := Restrict(t, keep);
    forall c | c in t.columns && c in keep ensures c in r.columns {
      var j := IndexOf(t.columns, c);
      assert j in ps;
      var k :| 0 <= k < |ps| && ps[k] == j;
      assert r.columns[k] == t.columns[j];
    }
    forall c | c in r.columns ensures c in t.columns && c in keep {
      var k :| 0 <= k < |ps| && r.columns[k] == c;
      assert t.columns[ps[k]] == c;
    }
  }

  /** The elements at the given positions, in the order given. */
  function Pick<T>(xs: seq<T>, ps: seq<nat>): (r: seq<T>)
    requires forall k | 0 <= k < |ps| :: ps[k] < |xs|
    ensures |r| == |ps| && forall k | 0 <= k < |ps| :: r[k] == xs[ps[k]]
  {
    seq(|ps|, k requires 0 <= k < |ps| => xs[ps[k]])
  }

  /** Restricting to a set that holds every label changes nothing. */
  lemma RestrictAll(t: Table, keep: set<string>)
    requires WellFormed(t)
    requires forall c | c in t.columns :: c in keep
    ensures Restrict(t, keep) == t
  {
    KeptPositionsAll(t.columns, keep);
    var r := Restrict(t, keep);
    assert r.columns == t.columns;
    forall i | 0 <= i < |t.rows| ensures r.rows[i] == t.rows[i] {
    }
  }

  /** Restriction depends only on which present labels the keep-set holds. */
  lemma RestrictAgree(t: Table, a: set<string>, b: set<string>)
    requires WellFormed(t)
    requires forall c | c in t.columns :: (c in a <==> c in b)
    ensures Restrict(t, a) == Restrict(t, b)
  {
    KeptPositionsAgree(t.columns, a, b);
  }

  /** `df[name] = values`: overwrite the column when the label exists,
      otherwise append it as the last column. */
  function SetColumn(t: Table, name: string, values: seq<string>): (r: Table)
    requires WellFormed(t) && |values| == |t.rows|
    ensures WellFormed(r) && |r.rows| == |t.rows|
    ensures r.columns == if name in t.columns then t.columns else t.columns + [name]
    ensures forall i | 0 <= i < |r.rows| :: r.rows[i][IndexOf(r.columns, name)] == values[i]
    ensures forall i, j | 0 <= i < |t.rows| && 0 <= j < |t.columns| && j != IndexOf(t.columns, name) ::
      r.rows[i][j] == t.rows[i][j]
  {
    if name in t.columns then
      var j := IndexOf(t.columns, name);
      Table(t.columns, seq(|t.rows|, i requires 0 <= i < |t.rows| => t.rows[i][j := values[i]]))
    else
      assert IndexOf(t.columns + [name], name) == |t.columns|;
      Table(t.columns + [name], seq(|t.rows|, i requires 0 <= i < |t.rows| => t.rows[i] + [values[i]]))
  }

  /** `df[names]`: a new frame holding the named columns in the order given;
      a label that is not present raises KeyError. */
  function SelectColumns(t: Table, names: seq<string>): (r: Result<Table>)
    requires WellFormed(t)
    ensures r.Success? <==> forall c | c in names :: c in t.columns
    ensures r.Failure? ==> r.error.KeyError? && r.error.key in names && r.error.key !in t.columns
    ensures r.Success? ==> WellFormed(r.value) && r.value.columns == names && |r.value.rows| == |t.rows|
    ensures r.Success? ==> forall i, k | 0 <= i < |t.rows| && 0 <= k < |names| ::
      r.value.rows[i][k] == t.rows[i][IndexOf(t.columns, names[k])]
  {
    var absent := c => c !in t.columns;
    var missing := Filter(names, absent);
    assert forall c | c in names && c !in t.columns :: absent(c) && c in missing;
    if |missing| > 0 then
      assert missing[0] in missing && absent(missing[0]);
      Failure(KeyError(missing[0]))
    else
      Success(Table(names, seq(|t.rows|, i requires 0 <= i < |t.rows| =>
        seq(|names|, k requires 0 <= k < |names| => t.rows[i][IndexOf(t.columns, names[k])]))))
  }

  /** The first key whose column is absent, if any. */
  function FirstAbsent(keys: seq<string>, cols: seq<string>): (r: Option<string>)
    ensures r.None? <==> forall c | c in keys :: c in cols
    ensures r.Some? ==> r.value in keys && r.value !in cols
  {
    var absent := Filter(keys, c => c !in cols);
    assert forall c | c in keys && c !in cols :: c in absent;
    if |absent| == 0 then None
    else
      assert absent[0] in absent;
      Some(absent[0])
  }

  /** The column positions of the keys. */
  function Positions(cols: seq<string>, keys: seq<string>): (js: seq<nat>)
    ensures |js| == |keys| && forall k | 0 <= k < |keys| :: js[k] == IndexOf(cols, keys[k])
  {
    seq(|keys|, k requires 0 <= k < |keys| => IndexOf(cols, keys[k]))
  }

  /** A pandas data frame: a mutable object holding a table value. */
  class Frame {
    var columns: seq<string>
    var rows: seq<seq<string>>

    function Value(): Table
      reads this
    {
      Table(columns, rows)
    }

    constructor (t: Table)
      ensures Value() == t
    {
      columns := t.columns;
      rows := t.rows;
    }
  }
}
