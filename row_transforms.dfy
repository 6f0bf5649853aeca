/** The row transform `_drop_rows`. */
module RowTransforms {
  import opened Seqs
  import opened Tables
  import opened ColumnResolution

  /** The default condition: the cell is empty. */
  predicate IsEmptyCell(cell: string) {
    cell == ""
  }

  /** Whether `condition` holds for the cell of some column named in `names`
      and present in the frame. */
  predicate Flagged(cols: seq<string>, names: seq<string>, condition: string -> bool, row: seq<string>) {
    exists c | c in names && c in cols :: IndexOf(cols, c) < |row| && condition(row[IndexOf(cols, c)])
  }

  /** `_drop_rows`: a new frame with, in order, exactly the rows for which the
      condition holds on no requested column present; a request naming none
      of them drops nothing (the default is the empty list). */
  function DropRows(t: Table, columns: seq<string>, condition: string -> bool): (r: Table)
    ensures r.columns == t.columns
    ensures r.rows == Filter(t.rows, row => !Flagged(t.columns, columns, condition, row))
  {
    var resolved := Resolve(t.columns, columns, []);
    var keep := row => !Flagged(t.columns, resolved, condition, row);
    if exists c | c in columns :: c in t.columns then
      assert forall c | c in t.columns :: (c in resolved <==> c in columns);
      FilterCongruent(t.rows, keep, row => !Flagged(t.columns, columns, condition, row));
      Table(t.columns, Filter(t.rows, keep))
    else
      FilterCongruent(t.rows, keep, row => !Flagged(t.columns, columns, condition, row));
      Table(t.columns, Filter(t.rows, keep))
  }

  /** A request naming no column of the frame drops no row. */
  lemma DropRowsNothingResolved(t: Table, columns: seq<string>, condition: string -> bool)
    requires forall c | c in columns :: c !in t.columns
    ensures DropRows(t, columns, condition) == t
  {
    FilterAll(t.rows, row => !Flagged(t.columns, columns, condition, row));
  }

  /** Dropping with the same columns and condition twice is dropping once. */
  lemma DropRowsIdempotent(t: Table, columns: seq<string>, condition: string -> bool)
    ensures DropRows(DropRows(t, columns, condition), columns, condition) == DropRows(t, columns, condition)
  {
    FilterTwice(t.rows, row => !Flagged(t.columns, columns, condition, row));
  }

  /** The public `drop_rows` as written: it accepts a condition but calls the
      transform without it, so the default condition applies. */
  function DropRowsWrapperAsWritten(t: Table, columns: seq<string>, condition: string -> bool): (r: Table)
    ensures r == DropRows(t, columns, IsEmptyCell)
  {
    DropRows(t, columns, IsEmptyCell)
  }

  /** A row whose cell is "x", under the condition "cell is x": the wrapper
      keeps it, the transform given the condition drops it. */
  lemma DropRowsWrapperIgnoresCondition()
    ensures DropRowsWrapperAsWritten(Table(["a"], [["x"]]), ["a"], c => c == "x") == Table(["a"], [["x"]])
    ensures DropRows(Table(["a"], [["x"]]), ["a"], c => c == "x") == Table(["a"], [])
  {
    var t := Table(["a"], [["x"]]);
    assert !Flagged(t.columns, ["a"], IsEmptyCell, ["x"]) by {
      assert IndexOf(t.columns, "a") == 0;
    }
    assert Flagged(t.columns, ["a"], c => c == "x", ["x"]) by {
      assert IndexOf(t.columns, "a") == 0;
    }
    assert t.rows == [] + [t.rows[0]];
  }
}
