/** Transforms that act on whole columns: `_drop_columns`, `_keep_columns`,
    `_append_column_suffix` and `_prepend_column_prefix`. */
module ColumnTransforms {
  import opened Seqs
  import opened Tables
  import opened ColumnResolution

  /** Every present label the request names is resolved, and no other present
      label is: the resolution and the request agree on the frame's labels,
      except that a request naming nothing present resolves to the default. */
  lemma ResolvedAgrees(t: Table, columns: seq<string>, default: seq<string>)
    requires exists c | c in columns :: c in t.columns
    ensures forall c | c in t.columns :: (c in Resolve(t.columns, columns, default) <==> c in columns)
  {
  }

  /** `_drop_columns`: a new frame without the requested columns present in
      the frame; a request naming none of them drops nothing (the default is
      the empty list). */
  function DropColumns(t: Table, columns: seq<string>): (r: Table)
    requires WellFormed(t)
    ensures r == Restrict(t, set c | c in t.columns && c !in columns)
  {
    var resolved := Resolve(t.columns, columns, []);
    var keep := (set c | c in t.columns) - (set c | c in resolved);
    if exists c | c in columns :: c in t.columns then
      ResolvedAgrees(t, columns, []);
      RestrictAgree(t, keep, set c | c in t.columns && c !in columns);
      Restrict(t, keep)
    else
      RestrictAgree(t, keep, set c | c in t.columns && c !in columns);
      Restrict(t, keep)
  }

  /** Dropping the same columns a second time changes nothing: none of them is
      left, so the second resolution falls back to the empty default. */
  lemma DropColumnsIdempotent(t: Table, columns: seq<string>)
    requires WellFormed(t)
    ensures DropColumns(DropColumns(t, columns), columns) == DropColumns(t, columns)
  {
    var r := DropColumns(t, columns);
    RestrictMembers(t, set c | c in t.columns && c !in columns);
    RestrictAll(r, set c | c in r.columns && c !in columns);
  }

  /** `_keep_columns`: a new frame holding only the requested columns present,
      in frame order; a request naming none of them keeps the whole frame
      (the default is every column). */
  function KeepColumns(t: Table, columns: seq<string>): (r: Table)
    requires WellFormed(t)
    ensures (exists c | c in columns :: c in t.columns) ==> r == Restrict(t, set c | c in columns)
    ensures (forall c | c in columns :: c !in t.columns) ==> r == t
  {
    var resolved := Resolve(t.columns, columns, t.columns);
    var dropped := (set c | c in t.columns) - (set c | c in resolved);
    var keep := (set c | c in t.columns) - dropped;
    if exists c | c in columns :: c in t.columns then
      ResolvedAgrees(t, columns, t.columns);
      RestrictAgree(t, keep, set c | c in columns);
      Restrict(t, keep)
    else
      RestrictAll(t, keep);
      Restrict(t, keep)
  }

  /** Keeping the same columns a second time changes nothing. */
  lemma KeepColumnsIdempotent(t: Table, columns: seq<string>)
    requires WellFormed(t)
    ensures KeepColumns(KeepColumns(t, columns), columns) == KeepColumns(t, columns)
  {
    var r := KeepColumns(t, columns);
    if c :| c in columns && c in t.columns {
      RestrictMembers(t, set c | c in columns);
      assert c in r.columns;
      RestrictAll(r, set c | c in columns);
    }
  }

  /** The labels with those named in `targets` renamed by `rename`. */
  function RenameLabels(cols: seq<string>, targets: seq<string>, rename: string -> string): (r: seq<string>)
    ensures |r| == |cols|
    ensures forall j | 0 <= j < |cols| && cols[j] !in targets :: r[j] == cols[j]
    ensures forall j | 0 <= j < |cols| && cols[j] in targets :: r[j] == rename(cols[j])
  {
    seq(|cols|, j requires 0 <= j < |cols| => if cols[j] in targets then rename(cols[j]) else cols[j])
  }

  function SuffixWith(suffix: string, separator: string): string -> string {
    name => name + separator + suffix
  }

  function PrefixWith(prefix: string, separator: string): string -> string {
    name => prefix + separator + name
  }

  /** `_append_column_suffix` as documented: every requested column present is
      relabelled `name + separator + suffix`; rows and cells stay as they are. */
  function AppendColumnSuffix(t: Table, columns: seq<string>, suffix: string, separator: string): (r: Table)
    ensures r.rows == t.rows && |r.columns| == |t.columns|
    ensures forall j | 0 <= j < |t.columns| && t.columns[j] !in columns :: r.columns[j] == t.columns[j]
    ensures forall j | 0 <= j < |t.columns| && t.columns[j] in columns ::
      |r.columns[j]| == |t.columns[j]| + |separator| + |suffix|
      && r.columns[j][..|t.columns[j]|] == t.columns[j]
      && r.columns[j][|t.columns[j]|..] == separator + suffix
  {
    var resolved := Resolve(t.columns, columns, []);
    var r := Table(RenameLabels(t.columns, resolved, SuffixWith(suffix, separator)), t.rows);
    assert forall j | 0 <= j < |t.columns| && t.columns[j] in columns ::
      |r.columns[j]| == |t.columns[j]| + |separator| + |suffix|
      && r.columns[j][..|t.columns[j]|] == t.columns[j]
      && r.columns[j][|t.columns[j]|..] == separator + suffix
    by {
      forall j | 0 <= j < |t.columns| && t.columns[j] in columns
        ensures r.columns[j] == t.columns[j] + (separator + suffix)
      {
        assert t.columns[j] + separator + suffix == t.columns[j] + (separator + suffix);
      }
    }
    r
  }

  /** With neither a suffix nor a separator the labels stay as they are. */
  lemma {:induction false} AppendNoSuffix(t: Table, columns: seq<string>)
    ensures AppendColumnSuffix(t, columns, "", "") == t
  {
    var r := AppendColumnSuffix(t, columns, "", "");
    forall j | 0 <= j < |t.columns| ensures r.columns[j] == t.columns[j] {
      if t.columns[j] in columns {
        assert r.columns[j] == r.columns[j][..|t.columns[j]|];
      }
    }
  }

  /** `_prepend_column_prefix` as documented: every requested column present
      is relabelled `prefix + separator + name`. */
  function PrependColumnPrefix(t: Table, columns: seq<string>, prefix: string, separator: string): (r: Table)
    ensures r.rows == t.rows && |r.columns| == |t.columns|
    ensures forall j | 0 <= j < |t.columns| && t.columns[j] !in columns :: r.columns[j] == t.columns[j]
    ensures forall j | 0 <= j < |t.columns| && t.columns[j] in columns ::
      |r.columns[j]| == |prefix| + |separator| + |t.columns[j]|
      && r.columns[j][..|prefix| + |separator|] == prefix + separator
      && r.columns[j][|prefix| + |separator|..] == t.columns[j]
  {
    var resolved := Resolve(t.columns, columns, []);
    var r := Table(RenameLabels(t.columns, resolved, PrefixWith(prefix, separator)), t.rows);
    assert forall j | 0 <= j < |t.columns| && t.columns[j] in columns ::
      r.columns[j] == prefix + separator + t.columns[j];
    r
  }

  /** With neither a prefix nor a separator the labels stay as they are. */
  lemma {:induction false} PrependNoPrefix(t: Table, columns: seq<string>)
    ensures PrependColumnPrefix(t, columns, "", "") == t
  {
    var r := PrependColumnPrefix(t, columns, "", "");
    forall j | 0 <= j < |t.columns| ensures r.columns[j] == t.columns[j] {
      if t.columns[j] in columns {
        assert r.columns[j] == r.columns[j][0..];
      }
    }
  }

  /** The suffix transform assigns into the frame it is given (`df[columns] =
      ...`) and returns that frame, so it relabels in place. */
  method AppendColumnSuffixInPlace(df: Frame, columns: seq<string>, suffix: string, separator: string) returns (r: Frame)
    modifies df
    ensures r == df && df.Value() == AppendColumnSuffix(old(df.Value()), columns, suffix, separator)
  {
    df.columns := AppendColumnSuffix(df.Value(), columns, suffix, separator).columns;
    r := df;
  }

  /** The prefix transform, in place like the suffix transform. */
  method PrependColumnPrefixInPlace(df: Frame, columns: seq<string>, prefix: string, separator: string) returns (r: Frame)
    modifies df
    ensures r == df && df.Value() == PrependColumnPrefix(old(df.Value()), columns, prefix, separator)
  {
    df.columns := PrependColumnPrefix(df.Value(), columns, prefix, separator).columns;
    r := df;
  }

  /** What the rename statement does as written: `rename` without an axis
      relabels the rows, so the right-hand frame's row labels no longer match
      and the assignment `df[columns] = ...` aligns every cell of the resolved
      columns to a missing value; no column is relabelled. */
  function RenameAsWritten(t: Table, columns: seq<string>): (r: Table)
    requires WellFormed(t)
    ensures WellFormed(r) && r.columns == t.columns && |r.rows| == |t.rows|
    ensures forall i, j | 0 <= i < |t.rows| && 0 <= j < |t.columns| ::
      r.rows[i][j] == if t.columns[j] in columns then NanText else t.rows[i][j]
  {
    var resolved := Resolve(t.columns, columns, []);
    Table(t.columns, seq(|t.rows|, i requires 0 <= i < |t.rows| =>
      seq(|t.columns|, j requires 0 <= j < |t.columns| =>
        if t.columns[j] in resolved then NanText else t.rows[i][j])))
  }

  /** A one-cell frame shows the difference: as written, asking for suffix "s"
      on column "a" keeps the label "a" and loses the cell, where the
      documented rename gives label "as" and keeps the cell. */
  lemma SuffixAsWrittenLosesCells()
    ensures RenameAsWritten(Table(["a"], [["1"]]), ["a"]) == Table(["a"], [[NanText]])
    ensures AppendColumnSuffix(Table(["a"], [["1"]]), ["a"], "s", "") == Table(["as"], [["1"]])
  {
    var t := Table(["a"], [["1"]]);
    var w := RenameAsWritten(t, ["a"]);
    assert |w.rows| == 1 && |w.rows[0]| == 1 && w.rows[0][0] == NanText;
    assert w.rows[0] == [NanText];
    var r := AppendColumnSuffix(t, ["a"], "s", "");
    assert r.columns[0] == "as";
  }

  /** The same one-cell frame with prefix "p": "pa" documented, a lost cell as written. */
  lemma PrefixAsWrittenLosesCells()
    ensures RenameAsWritten(Table(["a"], [["1"]]), ["a"]) == Table(["a"], [[NanText]])
    ensures PrependColumnPrefix(Table(["a"], [["1"]]), ["a"], "p", "") == Table(["pa"], [["1"]])
  {
    var t := Table(["a"], [["1"]]);
    var w := RenameAsWritten(t, ["a"]);
    assert |w.rows| == 1 && |w.rows[0]| == 1 && w.rows[0][0] == NanText;
    assert w.rows[0] == [NanText];
    var r := PrependColumnPrefix(t, ["a"], "p", "");
    assert r.columns[0] == "pa";
  }
}
