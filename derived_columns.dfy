/** Transforms that derive one new column from a map of indicator columns:
    `_new_column_from_binary_columns_positive_class` and
    `_new_column_from_binary_columns_negative_class`. The map is a list of
    (column, label) pairs in the dictionary's order. */
module DerivedColumns {
  import opened Results
  import opened Seqs
  import opened Text
  import opened Tables

  function Keys(pairs: seq<(string, string)>): (ks: seq<string>)
    ensures |ks| == |pairs| && forall k | 0 <= k < |pairs| :: ks[k] == pairs[k].0
  {
    seq(|pairs|, k requires 0 <= k < |pairs| => pairs[k].0)
  }

  /** The name of the derived column: the one given, or the map's keys
      joined by underscores when it is empty. */
  function NewColumnName(newColumnName: string, keys: seq<string>): (name: string)
    ensures |newColumnName| > 0 ==> name == newColumnName
    ensures |newColumnName| == 0 ==> name == Join(keys, "_")
  {
    if |newColumnName| > 0 then newColumnName else Join(keys, "_")
  }

  /** A column of `n` cells all holding `s`. */
  function Constant(n: nat, s: string): (cells: seq<string>)
    ensures |cells| == n && forall i | 0 <= i < n :: cells[i] == s
  {
    seq(n, i => s)
  }

  // ---------------------------------------------------------------------
  // Positive class
  // ---------------------------------------------------------------------

  function Labels(pairs: seq<(string, string)>): (ls: seq<string>)
    ensures |ls| == |pairs| && forall k | 0 <= k < |pairs| :: ls[k] == pairs[k].1
  {
    seq(|pairs|, k requires 0 <= k < |pairs| => pairs[k].1)
  }

  /** The positions a stage reads (`js`) and writes (`jn`) lie inside the row. */
  ghost predicate Fits(width: nat, js: seq<nat>, jn: nat) {
    jn < width && forall k | 0 <= k < |js| :: js[k] < width
  }

  /** Stage one, for the indicators in order: where the indicator at `js[k]`
      holds "Yes", `labels[k]` and the separator are appended to the derived
      cell at `jn`. */
  function YesStage(row: seq<string>, js: seq<nat>, labels: seq<string>, jn: nat, sep: string): (r: seq<string>)
    requires |js| == |labels| && Fits(|row|, js, jn)
    ensures |r| == |row| && forall j | 0 <= j < |row| && j != jn :: r[j] == row[j]
  {
    if |js| == 0 then row
    else
      var n := |js| - 1;
      var prev := YesStage(row, js[..n], labels[..n], jn, sep);
      if prev[js[n]] == "Yes" then prev[jn := prev[jn] + labels[n] + sep] else prev
  }

  /** Stage two, for the indicators in order: where the indicator holds the
      default and the derived cell is still empty, the cell becomes the
      default. With no default nothing matches (a comparison with None). */
  function DefaultStage(row: seq<string>, js: seq<nat>, jn: nat, default: Option<string>): (r: seq<string>)
    requires Fits(|row|, js, jn)
    ensures |r| == |row| && forall j | 0 <= j < |row| && j != jn :: r[j] == row[j]
  {
    if |js| == 0 || default.None? then row
    else
      var n := |js| - 1;
      var prev := DefaultStage(row, js[..n], jn, default);
      if prev[js[n]] == default.value && prev[jn] == "" then prev[jn := default.value] else prev
  }

  /** Stages three and four: an empty derived cell becomes the all-negative
      value, then one trailing separator is removed. */
  function FinalStage(row: seq<string>, jn: nat, allNegative: string, sep: string): (r: seq<string>)
    requires jn < |row|
    ensures |r| == |row| && forall j | 0 <= j < |row| && j != jn :: r[j] == row[j]
    ensures r[jn] == StripSuffix(if row[jn] == "" then allNegative else row[jn], sep)
  {
    row[jn := StripSuffix(if row[jn] == "" then allNegative else row[jn], sep)]
  }

  /** All stages on one row. */
  function PositiveRow(row: seq<string>, js: seq<nat>, labels: seq<string>, jn: nat,
                       allNegative: string, default: Option<string>, sep: string): (r: seq<string>)
    requires |js| == |labels| && Fits(|row|, js, jn)
    ensures |r| == |row| && forall j | 0 <= j < |row| && j != jn :: r[j] == row[j]
  {
    var yes := YesStage(row, js, labels, jn, sep);
    FinalStage(DefaultStage(yes, js, jn, default), jn, allNegative, sep)
  }

  /** The stages applied to every row of a frame whose derived column is at `jn`. */
  function PositiveStages(t0: Table, js: seq<nat>, labels: seq<string>, jn: nat,
                          allNegative: string, default: Option<string>, sep: string): (r: Table)
    requires WellFormed(t0) && |js| == |labels| && Fits(|t0.columns|, js, jn)
    ensures WellFormed(r) && r.columns == t0.columns && |r.rows| == |t0.rows|
    ensures forall i, j | 0 <= i < |t0.rows| && 0 <= j < |t0.columns| && j != jn :: r.rows[i][j] == t0.rows[i][j]
  {
    Table(t0.columns, seq(|t0.rows|, i requires 0 <= i < |t0.rows| =>
      PositiveRow(t0.rows[i], js, labels, jn, allNegative, default, sep)))
  }

  /** `_new_column_from_binary_columns_positive_class` as a value: the derived
      column is first set to empty text everywhere (added when absent), then
      every pair's column must exist (KeyError otherwise), then each row goes
      through the stages. No other cell changes. */
  function PositiveClass(t: Table, pairs: seq<(string, string)>, newColumnName: string,
                         allNegative: string, default: Option<string>, sep: string): (r: Result<Table>)
    requires WellFormed(t)
    ensures var name := NewColumnName(newColumnName, Keys(pairs));
      && (r.Failure? <==> exists c | c in Keys(pairs) :: c !in t.columns && c != name)
      && (r.Failure? ==> r.error.KeyError? && r.error.key in Keys(pairs))
      && (r.Success? ==>
        && WellFormed(r.value) && |r.value.rows| == |t.rows|
        && r.value.columns == (if name in t.columns then t.columns else t.columns + [name])
        && forall i, j | 0 <= i < |t.rows| && 0 <= j < |t.columns| && j != IndexOf(t.columns, name) ::
             r.value.rows[i][j] == t.rows[i][j])
  {
    var name := NewColumnName(newColumnName, Keys(pairs));
    var t0 := SetColumn(t, name, Constant(|t.rows|, ""));
    assert forall c :: c in t0.columns <==> c in t.columns || c == name;
    match FirstAbsent(Keys(pairs), t0.columns)
    case Some(c) => Failure(KeyError(c))
    case None =>
      var jn := IndexOf(t0.columns, name);
      var js := Positions(t0.columns, Keys(pairs));
      assert forall k | 0 <= k < |js| :: Keys(pairs)[k] in Keys(pairs);
      var r := PositiveStages(t0, js, Labels(pairs), jn, allNegative, default, sep);
      assert jn == |t.columns| || jn == IndexOf(t.columns, name);
      Success(r)
  }

  /** The positive-class result in terms of its parts: a KeyError for the
      first absent key, or the stages applied to the frame with the derived
      column emptied. */
  lemma PositiveClassUnfold(t: Table, pairs: seq<(string, string)>, newColumnName: string,
                            allNegative: string, default: Option<string>, sep: string)
    requires WellFormed(t)
    ensures var name := NewColumnName(newColumnName, Keys(pairs));
      var t0 := SetColumn(t, name, Constant(|t.rows|, ""));
      var js := Positions(t0.columns, Keys(pairs));
      var absent := FirstAbsent(Keys(pairs), t0.columns);
      var r := PositiveClass(t, pairs, newColumnName, allNegative, default, sep);
      && (absent.Some? ==> r == Failure(KeyError(absent.value)))
      && (absent.None? ==>
            && Fits(|t0.columns|, js, IndexOf(t0.columns, name))
            && r == Success(PositiveStages(t0, js, Labels(pairs), IndexOf(t0.columns, name), allNegative, default, sep)))
  {
    var name := NewColumnName(newColumnName, Keys(pairs));
    var t0 := SetColumn(t, name, Constant(|t.rows|, ""));
    var js := Positions(t0.columns, Keys(pairs));
    assert forall k | 0 <= k < |js| :: Keys(pairs)[k] in Keys(pairs);
  }

  /** The indicator values of a row. */
  function Values(row: seq<string>, js: seq<nat>): (vs: seq<string>)
    requires forall k | 0 <= k < |js| :: js[k] < |row|
    ensures |vs| == |js| && forall k | 0 <= k < |js| :: vs[k] == row[js[k]]
  {
    seq(|js|, k requires 0 <= k < |js| => row[js[k]])
  }

  /** The labels whose indicator value is "Yes", in order. */
  function YesLabels(values: seq<string>, labels: seq<string>): seq<string>
    requires |values| == |labels|
  {
    if |labels| == 0 then []
    else
      var n := |labels| - 1;
      YesLabels(values[..n], labels[..n]) + if values[n] == "Yes" then [labels[n]] else []
  }

  /** What stage one appends to a cell: each "Yes" label followed by the separator. */
  function YesText(values: seq<string>, labels: seq<string>, sep: string): string
    requires |values| == |labels|
  {
    if |labels| == 0 then ""
    else
      var n := |labels| - 1;
      YesText(values[..n], labels[..n], sep) + if values[n] == "Yes" then labels[n] + sep else ""
  }

  /** The derived cell as the stages compute it from a row's indicator values. */
  function StagedValue(values: seq<string>, labels: seq<string>, allNegative: string, default: Option<string>, sep: string): string
    requires |values| == |labels|
  {
    var acc := YesText(values, labels, sep);
    var withDefault := if acc == "" && default.Some? && default.value in values then default.value else acc;
    StripSuffix(if withDefault == "" then allNegative else withDefault, sep)
  }

  /** Stage one on a row: the derived cell gains the "Yes" text of indicators
      read at positions other than its own. */
  lemma {:induction false} YesStageCell(row: seq<string>, js: seq<nat>, labels: seq<string>, jn: nat, sep: string)
    requires |js| == |labels| && Fits(|row|, js, jn)
    requires forall k | 0 <= k < |js| :: js[k] != jn
    ensures YesStage(row, js, labels, jn, sep)[jn] == row[jn] + YesText(Values(row, js), labels, sep)
  {
    if |js| > 0 {
      var n := |js| - 1;
      YesStageCell(row, js[..n], labels[..n], jn, sep);
      assert Values(row, js)[..n] == Values(row, js[..n]);
    }
  }

  /** Stage two on a row: an empty derived cell becomes the default when some
      indicator holds it; any other cell stays. */
  lemma {:induction false} DefaultStageCell(row: seq<string>, js: seq<nat>, jn: nat, default: Option<string>)
    requires Fits(|row|, js, jn)
    requires forall k | 0 <= k < |js| :: js[k] != jn
    ensures DefaultStage(row, js, jn, default)[jn] ==
      if row[jn] == "" && default.Some? && default.value in Values(row, js) then default.value else row[jn]
  {
    if |js| > 0 && default.Some? {
      var n := |js| - 1;
      DefaultStageCell(row, js[..n], jn, default);
      var vs := Values(row, js);
      assert vs[..n] == Values(row, js[..n]);
      assert vs == vs[..n] + [vs[n]];
    }
  }

  /** All stages on a row whose derived cell is empty: the derived cell is the
      staged value of the row's indicator values. */
  lemma PositiveRowCell(row: seq<string>, js: seq<nat>, labels: seq<string>, jn: nat,
                        allNegative: string, default: Option<string>, sep: string)
    requires |js| == |labels| && Fits(|row|, js, jn) && row[jn] == ""
    requires forall k | 0 <= k < |js| :: js[k] != jn
    ensures PositiveRow(row, js, labels, jn, allNegative, default, sep)[jn] ==
      StagedValue(Values(row, js), labels, allNegative, default, sep)
  {
    var vs := Values(row, js);
    var acc := YesText(vs, labels, sep);
    var yes := YesStage(row, js, labels, jn, sep);
    YesStageCell(row, js, labels, jn, sep);
    assert yes[jn] == acc by {
      assert row[jn] + acc == acc;
    }
    assert Values(yes, js) == vs;
    DefaultStageCell(yes, js, jn, default);
    var withDefault := if acc == "" && default.Some? && default.value in vs then default.value else acc;
    var dflt := DefaultStage(yes, js, jn, default);
    assert dflt[jn] == withDefault;
    assert FinalStage(dflt, jn, allNegative, sep)[jn] == StripSuffix(if withDefault == "" then allNegative else withDefault, sep);
  }

  /** The "Yes" text is the joined labels plus one trailing separator. */
  lemma {:induction false} YesTextJoin(values: seq<string>, labels: seq<string>, sep: string)
    requires |values| == |labels|
    ensures var ls := YesLabels(values, labels);
      YesText(values, labels, sep) == if |ls| == 0 then "" else Join(ls, sep) + sep
  {
    if |labels| > 0 {
      var n := |labels| - 1;
      YesTextJoin(values[..n], labels[..n], sep);
      var prev := YesLabels(values[..n], labels[..n]);
      if values[n] == "Yes" {
        if |prev| > 0 {
          JoinSnoc(prev, labels[n], sep);
        } else {
          assert YesLabels(values, labels) == [labels[n]];
        }
      } else {
        assert YesLabels(values, labels) == prev;
      }
    }
  }

  lemma {:induction false} JoinSnoc(parts: seq<string>, x: string, sep: string)
    requires |parts| > 0
    ensures Join(parts + [x], sep) == Join(parts, sep) + sep + x
  {
    if |parts| > 1 {
      JoinSnoc(parts[1..], x, sep);
      assert (parts + [x])[1..] == parts[1..] + [x];
    }
  }

  /** What the positive-class column holds, for a non-empty separator: the
      labels of the indicators equal to "Yes", in map order, joined by the
      separator; when there is none, the default if it is non-empty and some
      indicator equals it; otherwise the all-negative value. The last two lose
      one trailing separator, as the final substitution removes it. */
  lemma PositiveValueMeaning(values: seq<string>, labels: seq<string>, allNegative: string, default: Option<string>, sep: string)
    requires |values| == |labels| && |sep| > 0
    ensures var ls := YesLabels(values, labels);
      StagedValue(values, labels, allNegative, default, sep) ==
        if |ls| > 0 then Join(ls, sep)
        else if default.Some? && default.value != "" && default.value in values then StripSuffix(default.value, sep)
        else StripSuffix(allNegative, sep)
  {
    YesTextJoin(values, labels, sep);
    var ls := YesLabels(values, labels);
    if |ls| > 0 {
      var acc := Join(ls, sep) + sep;
      assert acc[|acc| - |sep|..] == sep;
      assert acc[..|acc| - |sep|] == Join(ls, sep);
    }
  }

  /** The table-level statement: with the derived column distinct from every
      indicator column, each row's derived cell is the staged value of its
      indicator values. */
  lemma PositiveClassCells(t: Table, pairs: seq<(string, string)>, newColumnName: string,
                           allNegative: string, default: Option<string>, sep: string)
    requires WellFormed(t)
    requires var name := NewColumnName(newColumnName, Keys(pairs));
      name !in Keys(pairs) && forall c | c in Keys(pairs) :: c in t.columns
    ensures var name := NewColumnName(newColumnName, Keys(pairs));
      var r := PositiveClass(t, pairs, newColumnName, allNegative, default, sep);
      var js := Positions(t.columns, Keys(pairs));
      && r.Success?
      && forall i | 0 <= i < |t.rows| ::
           && (forall k | 0 <= k < |js| :: js[k] < |t.rows[i]|)
           && r.value.rows[i][IndexOf(r.value.columns, name)] ==
                StagedValue(Values(t.rows[i], js), Labels(pairs), allNegative, default, sep)
  {
    var keys := Keys(pairs);
    var name := NewColumnName(newColumnName, keys);
    var t0 := SetColumn(t, name, Constant(|t.rows|, ""));
    var jn := IndexOf(t0.columns, name);
    var js := Positions(t.columns, keys);
    assert forall c | c in keys :: c in t0.columns;
    PositiveClassUnfold(t, pairs, newColumnName, allNegative, default, sep);
    EmptiedColumn(t, name, keys);
    PositiveStagesCells(t0, js, Labels(pairs), jn, allNegative, default, sep);
  }

  /** The stages on a frame whose derived column is empty and is not among
      the indicators: each row's derived cell is the staged value. */
  lemma PositiveStagesCells(t0: Table, js: seq<nat>, labels: seq<string>, jn: nat,
                            allNegative: string, default: Option<string>, sep: string)
    requires WellFormed(t0) && |js| == |labels| && Fits(|t0.columns|, js, jn)
    requires forall k | 0 <= k < |js| :: js[k] != jn
    requires forall i | 0 <= i < |t0.rows| :: t0.rows[i][jn] == ""
    ensures forall i | 0 <= i < |t0.rows| ::
      PositiveStages(t0, js, labels, jn, allNegative, default, sep).rows[i][jn] ==
        StagedValue(Values(t0.rows[i], js), labels, allNegative, default, sep)
  {
    forall i | 0 <= i < |t0.rows|
      ensures PositiveStages(t0, js, labels, jn, allNegative, default, sep).rows[i][jn] ==
        StagedValue(Values(t0.rows[i], js), labels, allNegative, default, sep)
    {
      PositiveRowCell(t0.rows[i], js, labels, jn, allNegative, default, sep);
    }
  }

  /** Setting a new or existing column to empty text keeps the indicators'
      positions and values and puts the new column apart from them. */
  lemma EmptiedColumn(t: Table, name: string, keys: seq<string>)
    requires WellFormed(t) && name !in keys && forall c | c in keys :: c in t.columns
    ensures var t0 := SetColumn(t, name, Constant(|t.rows|, ""));
      var js := Positions(t.columns, keys);
      var jn := IndexOf(t0.columns, name);
      && Positions(t0.columns, keys) == js
      && Fits(|t0.columns|, js, jn)
      && (forall k | 0 <= k < |js| :: js[k] != jn)
      && (forall i | 0 <= i < |t.rows| :: t0.rows[i][jn] == "")
      && (forall i | 0 <= i < |t.rows| :: Values(t0.rows[i], js) == Values(t.rows[i], js))
  {
    var t0 := SetColumn(t, name, Constant(|t.rows|, ""));
    var js := Positions(t.columns, keys);
    var jn := IndexOf(t0.columns, name);
    if name !in t.columns {
      PositionsAppend(t.columns, name, keys);
    }
    forall k | 0 <= k < |js| ensures js[k] != jn && js[k] < |t.columns| {
      assert keys[k] in keys;
    }
    forall i | 0 <= i < |t.rows| ensures Values(t0.rows[i], js) == Values(t.rows[i], js) {
    }
  }

  /** Appending a column does not move the columns already present. */
  lemma PositionsAppend(cols: seq<string>, name: string, keys: seq<string>)
    requires forall c | c in keys :: c in cols
    ensures Positions(cols + [name], keys) == Positions(cols, keys)
  {
    forall k | 0 <= k < |keys| ensures IndexOf(cols + [name], keys[k]) == IndexOf(cols, keys[k]) {
      assert keys[k] in keys;
      IndexOfAppend(cols, name, keys[k]);
    }
  }

  /** The public positive-class wrapper as written: it passes every argument
      but the all-negative value, so the default (empty text) applies. */
  function PositiveClassWrapperAsWritten(t: Table, pairs: seq<(string, string)>, newColumnName: string,
                                          allNegative: string, default: Option<string>, sep: string): (r: Result<Table>)
    requires WellFormed(t)
    ensures r == PositiveClass(t, pairs, newColumnName, "", default, sep)
  {
    PositiveClass(t, pairs, newColumnName, "", default, sep)
  }

  /** A row with no "Yes" and no indicator equal to the default: the wrapper
      leaves its derived cell empty, where the transform writes the
      all-negative value asked for. */
  lemma PositiveWrapperDropsAllNegative(values: seq<string>, labels: seq<string>, allNegative: string, default: Option<string>, sep: string)
    requires |values| == |labels| && |sep| > 0
    requires forall v | v in values :: v != "Yes"
    requires default.None? || default.value !in values
    ensures StagedValue(values, labels, "", default, sep) == ""
    ensures StagedValue(values, labels, allNegative, default, sep) == StripSuffix(allNegative, sep)
  {
    NoYesLabels(values, labels);
    PositiveValueMeaning(values, labels, "", default, sep);
    PositiveValueMeaning(values, labels, allNegative, default, sep);
  }

  lemma {:induction false} NoYesLabels(values: seq<string>, labels: seq<string>)
    requires |values| == |labels| && forall v | v in values :: v != "Yes"
    ensures YesLabels(values, labels) == []
  {
    if |labels| > 0 {
      var n := |labels| - 1;
      assert values[n] in values;
      assert forall v | v in values[..n] :: v in values;
      NoYesLabels(values[..n], labels[..n]);
    }
  }

  lemma YesStageSnoc(row: seq<string>, js: seq<nat>, labels: seq<string>, j: nat, l: string, jn: nat, sep: string)
    requires |js| == |labels| && Fits(|row|, js + [j], jn)
    ensures Fits(|row|, js, jn) && j < |row|
    ensures var prev := YesStage(row, js, labels, jn, sep);
      YesStage(row, js + [j], labels + [l], jn, sep) ==
        if prev[j] == "Yes" then prev[jn := prev[jn] + l + sep] else prev
  {
    assert (js + [j])[..|js|] == js && (labels + [l])[..|js|] == labels;
    assert forall k | 0 <= k < |js| :: js[k] == (js + [j])[k];
    assert (js + [j])[|js|] == j;
  }

  lemma DefaultStageSnoc(row: seq<string>, js: seq<nat>, j: nat, jn: nat, default: string)
    requires Fits(|row|, js + [j], jn)
    ensures Fits(|row|, js, jn) && j < |row|
    ensures var prev := DefaultStage(row, js, jn, Some(default));
      DefaultStage(row, js + [j], jn, Some(default)) ==
        if prev[j] == default && prev[jn] == "" then prev[jn := default] else prev
  {
    assert (js + [j])[..|js|] == js;
    assert forall k | 0 <= k < |js| :: js[k] == (js + [j])[k];
    assert (js + [j])[|js|] == j;
  }

  /** One masked append, for every row at once, extends stage one by one indicator. */
  lemma AppendWhereYes(rows0: seq<seq<string>>, rows: seq<seq<string>>, next: seq<seq<string>>, width: nat,
                       js: seq<nat>, labels: seq<string>, j: nat, l: string, jn: nat, sep: string)
    requires |js| == |labels| && |rows| == |rows0| == |next| && Fits(width, js, jn) && j < width
    requires forall i | 0 <= i < |rows0| :: |rows0[i]| == width && |rows[i]| == width
    requires forall i | 0 <= i < |rows0| :: rows[i] == YesStage(rows0[i], js, labels, jn, sep)
    requires forall i | 0 <= i < |rows0| ::
      next[i] == if rows[i][j] == "Yes" then rows[i][jn := rows[i][jn] + l + sep] else rows[i]
    ensures forall i | 0 <= i < |rows0| :: next[i] == YesStage(rows0[i], js + [j], labels + [l], jn, sep)
  {
    assert Fits(width, js + [j], jn);
    forall i | 0 <= i < |rows0| ensures next[i] == YesStage(rows0[i], js + [j], labels + [l], jn, sep) {
      YesStageSnoc(rows0[i], js, labels, j, l, jn, sep);
    }
  }

  /** Stage one in place: one masked append per indicator, checking each
      indicator's column as it comes to it. */
  method AppendYesLabels(df: Frame, keys: seq<string>, labels: seq<string>, jn: nat, sep: string) returns (absent: Option<string>)
    requires WellFormed(df.Value()) && jn < |df.columns| && |keys| == |labels|
    modifies df
    ensures absent == FirstAbsent(keys, old(df.columns))
    ensures absent.None? ==> var js := Positions(old(df.columns), keys);
      && df.columns == old(df.columns) && |df.rows| == |old(df.rows)|
      && Fits(|old(df.columns)|, js, jn)
      && forall i | 0 <= i < |df.rows| :: |old(df.rows)[i]| == |df.columns| &&
           df.rows[i] == YesStage(old(df.rows)[i], js, labels, jn, sep)
  {
    ghost var rows0 := df.rows;
    var cols := df.columns;
    var js := Positions(cols, keys);
    for k := 0 to |keys|
      invariant df.columns == cols && |df.rows| == |rows0|
      invariant forall c | c in keys[..k] :: c in cols
      invariant Fits(|cols|, js[..k], jn)
      invariant forall i | 0 <= i < |rows0| :: |rows0[i]| == |cols| && |df.rows[i]| == |cols|
      invariant forall i | 0 <= i < |rows0| :: df.rows[i] == YesStage(rows0[i], js[..k], labels[..k], jn, sep)
    {
      if keys[k] !in cols {
        FirstAbsentPrefix(keys, cols, k);
        return Some(keys[k]);
      }
      var jc := js[k];
      var l := labels[k];
      ghost var prev := df.rows;
      var rows := df.rows;
      df.rows := seq(|rows|, i requires 0 <= i < |rows| =>
        if rows[i][jc] == "Yes" then rows[i][jn := rows[i][jn] + l + sep] else rows[i]);
      assert keys[..k + 1] == keys[..k] + [keys[k]];
      assert js[..k + 1] == js[..k] + [jc] && labels[..k + 1] == labels[..k] + [labels[k]];
      AppendWhereYes(rows0, rows, df.rows, |cols|, js[..k], labels[..k], jc, labels[k], jn, sep);
    }
    assert keys[..|keys|] == keys && js[..|keys|] == js && labels[..|keys|] == labels;
    return None;
  }

  /** Stage two in place: one masked assignment of the default per indicator. */
  method FillDefault(df: Frame, js: seq<nat>, jn: nat, default: Option<string>)
    requires WellFormed(df.Value()) && Fits(|df.columns|, js, jn)
    modifies df
    ensures df.columns == old(df.columns) && |df.rows| == |old(df.rows)|
    ensures forall i | 0 <= i < |df.rows| :: df.rows[i] == DefaultStage(old(df.rows)[i], js, jn, default)
  {
    if default.None? {
      return;
    }
    ghost var rows0 := df.rows;
    var cols := df.columns;
    var d := default.value;
    for k := 0 to |js|
      invariant df.columns == cols && |df.rows| == |rows0|
      invariant forall i | 0 <= i < |rows0| :: |rows0[i]| == |cols| && |df.rows[i]| == |cols|
      invariant forall i | 0 <= i < |rows0| :: df.rows[i] == DefaultStage(rows0[i], js[..k], jn, default)
    {
      var jc := js[k];
      var rows := df.rows;
      df.rows := seq(|rows|, i requires 0 <= i < |rows| =>
        if rows[i][jc] == d && rows[i][jn] == "" then rows[i][jn := d] else rows[i]);
      assert js[..k + 1] == js[..k] + [jc];
      forall i | 0 <= i < |rows0| ensures df.rows[i] == DefaultStage(rows0[i], js[..k] + [jc], jn, default) {
        DefaultStageSnoc(rows0[i], js[..k], jc, jn, d);
      }
    }
    assert js[..|js|] == js;
  }

  /** The positive-class transform in place: the derived column emptied, the
      masked appends, the masked default assignments, then the all-negative
      fill and the separator removal. */
  method PositiveClassInPlace(df: Frame, pairs: seq<(string, string)>, newColumnName: string,
                              allNegative: string, default: Option<string>, sep: string) returns (r: Result<Frame>)
    requires WellFormed(df.Value())
    modifies df
    ensures var spec := PositiveClass(old(df.Value()), pairs, newColumnName, allNegative, default, sep);
      && (r.Success? <==> spec.Success?)
      && (r.Failure? ==> r.error == spec.error)
      && (r.Success? ==> r.value == df && df.Value() == spec.value)
  {
    PositiveClassUnfold(df.Value(), pairs, newColumnName, allNegative, default, sep);
    var name := NewColumnName(newColumnName, Keys(pairs));
    var t0 := SetColumn(df.Value(), name, Constant(|df.rows|, ""));
    df.columns, df.rows := t0.columns, t0.rows;
    var jn := IndexOf(df.columns, name);
    var absent := AppendYesLabels(df, Keys(pairs), Labels(pairs), jn, sep);
    if absent.Some? {
      return Failure(KeyError(absent.value));
    }
    var js := Positions(t0.columns, Keys(pairs));
    FillDefault(df, js, jn, default);
    var rows := df.rows;
    df.rows := seq(|rows|, i requires 0 <= i < |rows| => FinalStage(rows[i], jn, allNegative, sep));
    assert df.Value() == PositiveStages(t0, js, Labels(pairs), jn, allNegative, default, sep);
    return Success(df);
  }

  /** A key absent after the first `k` keys were all present is absent, and
      the first absent key is among those after `k`. */
  lemma FirstAbsentPrefix(keys: seq<string>, cols: seq<string>, k: nat)
    requires k < |keys| && keys[k] !in cols && forall c | c in keys[..k] :: c in cols
    ensures FirstAbsent(keys, cols) == Some(keys[k])
  {
    var absent := c => c !in cols;
    assert keys == keys[..k] + keys[k..];
    FilterConcat(keys[..k], keys[k..], absent);
    FilterNone(keys[..k], absent);
    assert keys[k..] == [keys[k]] + keys[k + 1..];
  }

  lemma {:induction false} FilterNone<T>(xs: seq<T>, p: T -> bool)
    requires forall x | x in xs :: !p(x)
    ensures Filter(xs, p) == []
  {
    if |xs| > 0 {
      assert xs[0] in xs;
      FilterNone(xs[1..], p);
    }
  }

  // ---------------------------------------------------------------------
  // Negative class
  // ---------------------------------------------------------------------

  /** `m` holds a value nothing is below, and every value before it is greater. */
  predicate IsFirstMin(values: seq<string>, m: nat) {
    && m < |values|
    && (forall k | 0 <= k < |values| :: !Less(values[k], values[m]))
    && (forall k | 0 <= k < m :: Less(values[m], values[k]))
  }

  /** The position of the first smallest value (`idxmin` along a row). */
  function ArgMin(values: seq<string>): (m: nat)
    requires |values| > 0
    ensures IsFirstMin(values, m)
  {
    if |values| == 1 then
      LessIrreflexive(values[0]);
      0
    else
      var n := |values| - 1;
      var m := ArgMin(values[..n]);
      assert forall k | 0 <= k < n :: values[..n][k] == values[k];
      if Less(values[n], values[m]) then
        forall k | 0 <= k < n ensures !Less(values[k], values[n]) && Less(values[n], values[k]) {
          if Less(values[k], values[n]) {
            LessTransitive(values[k], values[n], values[m]);
          }
          NotLessThenLess(values[n], values[m], values[k]);
        }
        LessIrreflexive(values[n]);
        n
      else
        m
  }

  /** `a < b` and `not (c < b)` give `a < c`. */
  lemma NotLessThenLess(a: string, b: string, c: string)
    requires Less(a, b) && !Less(c, b)
    ensures Less(a, c)
  {
    if b == c {
    } else {
      LessTotal(b, c);
      LessTransitive(a, b, c);
    }
  }

  /** `_new_column_from_binary_columns_negative_class` as a value: the derived
      column holds, for each row, the key of the row's smallest indicator
      value (`idxmin` along the row). A key without a column raises KeyError;
      an empty map over a frame with rows raises ValueError. */
  function NegativeClass(t: Table, pairs: seq<(string, string)>, newColumnName: string): (r: Result<Table>)
    requires WellFormed(t)
    ensures r.Failure? <==> (exists c | c in Keys(pairs) :: c !in t.columns) || (|pairs| == 0 && |t.rows| > 0)
    ensures r.Failure? ==> r.error.ValueError? || (r.error.KeyError? && r.error.key in Keys(pairs) && r.error.key !in t.columns)
    ensures r.Success? ==> var name := NewColumnName(newColumnName, Keys(pairs));
      && WellFormed(r.value) && |r.value.rows| == |t.rows|
      && r.value.columns == (if name in t.columns then t.columns else t.columns + [name])
      && forall i, j | 0 <= i < |t.rows| && 0 <= j < |t.columns| && j != IndexOf(t.columns, name) ::
           r.value.rows[i][j] == t.rows[i][j]
  {
    match FirstAbsent(Keys(pairs), t.columns)
    case Some(c) => Failure(KeyError(c))
    case None =>
      if |pairs| == 0 && |t.rows| > 0 then Failure(ValueError("attempt to get argmin of an empty sequence"))
      else
        var js := Positions(t.columns, Keys(pairs));
        assert forall k | 0 <= k < |js| :: Keys(pairs)[k] in Keys(pairs);
        var name := NewColumnName(newColumnName, Keys(pairs));
        Success(SetColumn(t, name, MinKeys(t, js, pairs)))
  }

  /** The negative-class transform in place: `df[new] = ...idxmin(axis=1)`
      writes the derived column into the frame it was given, which is
      returned; a failed lookup leaves the frame as it was. */
  method NegativeClassInPlace(df: Frame, pairs: seq<(string, string)>, newColumnName: string) returns (r: Result<Frame>)
    requires WellFormed(df.Value())
    modifies df
    ensures var spec := NegativeClass(old(df.Value()), pairs, newColumnName);
      && (r.Success? <==> spec.Success?)
      && (r.Failure? ==> r.error == spec.error && unchanged(df))
      && (r.Success? ==> r.value == df && df.Value() == spec.value)
  {
    var spec := NegativeClass(df.Value(), pairs, newColumnName);
    if spec.Failure? {
      return Failure(spec.error);
    }
    df.columns, df.rows := spec.value.columns, spec.value.rows;
    return Success(df);
  }

  /** Each row's key of the first smallest indicator value. */
  function MinKeys(t: Table, js: seq<nat>, pairs: seq<(string, string)>): (cells: seq<string>)
    requires WellFormed(t) && |js| == |pairs| && (|pairs| > 0 || |t.rows| == 0)
    requires forall k | 0 <= k < |js| :: js[k] < |t.columns|
    ensures |cells| == |t.rows|
  {
    seq(|t.rows|, i requires 0 <= i < |t.rows| => pairs[ArgMin(Values(t.rows[i], js))].0)
  }

  /** A row's derived cell is the key of an indicator whose value no other
      indicator's value is below, and every indicator before it holds a
      strictly greater value (ties go to the first key). */
  lemma NegativeClassMinimal(t: Table, pairs: seq<(string, string)>, newColumnName: string, i: nat)
    requires WellFormed(t) && NegativeClass(t, pairs, newColumnName).Success? && i < |t.rows|
    ensures var r := NegativeClass(t, pairs, newColumnName).value;
      var name := NewColumnName(newColumnName, Keys(pairs));
      var js := Positions(t.columns, Keys(pairs));
      && (forall k | 0 <= k < |js| :: js[k] < |t.rows[i]|)
      && exists m | 0 <= m < |pairs| ::
           r.rows[i][IndexOf(r.columns, name)] == pairs[m].0 && IsFirstMin(Values(t.rows[i], js), m)
  {
    var name := NewColumnName(newColumnName, Keys(pairs));
    var js := Positions(t.columns, Keys(pairs));
    assert forall k | 0 <= k < |js| :: Keys(pairs)[k] in Keys(pairs);
    var cells := MinKeys(t, js, pairs);
    var r := SetColumn(t, name, cells);
    assert NegativeClass(t, pairs, newColumnName).value == r;
    var m := ArgMin(Values(t.rows[i], js));
    assert r.rows[i][IndexOf(r.columns, name)] == cells[i] == pairs[m].0;
  }
}
