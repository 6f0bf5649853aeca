/** Transforms that rewrite cell values in place: `_remap_values_by_columns`,
    `_map_missing_values_by_columns` and `_transform_values_by_column`. Each
    has a specification on table values and a method that updates a `Frame`
    the way the engine does. Cell writes go by row position. */
module ValueTransforms {
  import opened Results
  import opened Seqs
  import opened Text
  import opened Tables
  import opened ColumnResolution
  import opened Annotations

  // ---------------------------------------------------------------------
  // Remapping coded values to labels
  // ---------------------------------------------------------------------

  predicate NonEmptyText(s: string) {
    |s| > 0
  }

  function StripEach(xs: seq<string>): (r: seq<string>)
    ensures |r| == |xs| && forall k | 0 <= k < |xs| :: r[k] == Strip(xs[k])
  {
    seq(|xs|, k requires 0 <= k < |xs| => Strip(xs[k]))
  }

  /** The codes of a cell: its non-empty comma-separated pieces, each stripped. */
  function Codes(cell: string): seq<string> {
    StripEach(Filter(Split(cell, ','), NonEmptyText))
  }

  /** The labels of the codes the map knows, in code order; other codes are dropped. */
  function MappedLabels(codes: seq<string>, m: map<string, Label>): (ls: seq<Label>)
    ensures |ls| <= |codes|
    ensures forall l | l in ls :: exists c | c in codes && c in m :: m[c] == l
  {
    if |codes| == 0 then []
    else
      var rest := MappedLabels(codes[1..], m);
      assert forall c | c in codes[1..] :: c in codes;
      if codes[0] in m then [m[codes[0]]] + rest else rest
  }

  /** The texts of labels that are all text. */
  function LabelTexts(ls: seq<Label>): (ts: seq<string>)
    requires forall l | l in ls :: l.Str?
    ensures |ts| == |ls| && forall k | 0 <= k < |ls| :: ts[k] == ls[k].text
  {
    seq(|ls|, k requires 0 <= k < |ls| => ls[k].text)
  }

  /** The remapped text of one cell: the labels of its mapped codes joined by
      the separator. Joining an integer label raises TypeError. */
  function RemapCell(cell: string, m: map<string, Label>, sep: string): (r: Result<string>)
    ensures r.Failure? ==> r.error == JoinTypeError
  {
    var ls := MappedLabels(Codes(cell), m);
    if forall l | l in ls :: l.Str? then Success(Join(LabelTexts(ls), sep))
    else Failure(JoinTypeError)
  }

  /** What `sep.join` raises on an item that is not text. */
  const JoinTypeError: Error := TypeError("sequence item: expected str instance, int found")

  /** An empty cell has no codes and becomes the empty text. */
  lemma RemapEmptyCell(m: map<string, Label>, sep: string)
    ensures RemapCell("", m, sep) == Success("")
  {
    assert Split("", ',') == [""];
    assert !NonEmptyText("");
    assert Filter([""], NonEmptyText) == [];
  }

  /** Whether a code can be written between commas without being split or
      stripped. */
  ghost predicate PlainCode(c: string) {
    |c| > 0 && ',' !in c && !IsSpace(c[0]) && !IsSpace(c[|c| - 1])
  }

  lemma {:induction false} FilterPlain(codes: seq<string>)
    requires forall c | c in codes :: PlainCode(c)
    ensures Filter(codes, NonEmptyText) == codes
  {
    FilterAll(codes, NonEmptyText);
  }

  /** A cell holding comma-separated codes reads back as those codes. */
  lemma CodesOfJoin(codes: seq<string>)
    requires |codes| >= 1 && forall c | c in codes :: PlainCode(c)
    ensures Codes(Join(codes, ",")) == codes
  {
    forall k | 0 <= k < |codes| ensures ',' !in codes[k] {
      assert codes[k] in codes;
    }
    SplitJoin(codes, ',');
    FilterPlain(codes);
    forall k | 0 <= k < |codes| ensures Strip(codes[k]) == codes[k] {
      assert codes[k] in codes;
      StripUnpadded(codes[k]);
    }
  }

  /** A cell of plain codes that the map sends to text labels becomes the
      labels in the cell's order, joined by the separator. */
  lemma RemapCodes(codes: seq<string>, m: map<string, Label>, sep: string)
    requires |codes| >= 1 && forall c | c in codes :: PlainCode(c) && c in m && m[c].Str?
    ensures RemapCell(Join(codes, ","), m, sep) ==
      Success(Join(seq(|codes|, k requires 0 <= k < |codes| => m[codes[k]].text), sep))
  {
    CodesOfJoin(codes);
    MappedTexts(codes, m);
  }

  /** Codes that all map to text labels give those labels' texts, in order. */
  lemma MappedTexts(codes: seq<string>, m: map<string, Label>)
    requires forall c | c in codes :: c in m && m[c].Str?
    ensures forall l | l in MappedLabels(codes, m) :: l.Str?
    ensures LabelTexts(MappedLabels(codes, m)) == seq(|codes|, k requires 0 <= k < |codes| => m[codes[k]].text)
  {
    AllMapped(codes, m);
    var ls := MappedLabels(codes, m);
    forall k | 0 <= k < |codes| ensures m[codes[k]].Str? {
      assert codes[k] in codes;
    }
  }

  lemma {:induction false} AllMapped(codes: seq<string>, m: map<string, Label>)
    requires forall c | c in codes :: c in m
    ensures MappedLabels(codes, m) == seq(|codes|, k requires 0 <= k < |codes| => m[codes[k]])
  {
    if |codes| > 0 {
      AllMapped(codes[1..], m);
    }
  }

  /** Codes the map does not know vanish: a cell none of whose codes is known
      becomes the empty text. */
  lemma {:induction false} RemapNothingMapped(cell: string, m: map<string, Label>, sep: string)
    requires forall c | c in Codes(cell) :: c !in m
    ensures RemapCell(cell, m, sep) == Success("")
  {
    NoneMapped(Codes(cell), m);
  }

  lemma {:induction false} NoneMapped(codes: seq<string>, m: map<string, Label>)
    requires forall c | c in codes :: c !in m
    ensures MappedLabels(codes, m) == []
  {
    if |codes| > 0 {
      assert codes[0] in codes;
      NoneMapped(codes[1..], m);
    }
  }

  /** Remapping is not idempotent: the label of a code is generally not a
      code, so a second remap erases it. */
  lemma RemapNotIdempotent()
    ensures RemapCell("1", map["1" := Str("Yes")], "|") == Success("Yes")
    ensures RemapCell("Yes", map["1" := Str("Yes")], "|") == Success("")
  {
    var m := map["1" := Str("Yes")];
    assert PlainCode("1") && PlainCode("Yes");
    RemapCodes(["1"], m, "|");
    assert Join(["1"], ",") == "1";
    CodesOfJoin(["Yes"]);
    assert Join(["Yes"], ",") == "Yes";
    RemapNothingMapped("Yes", m, "|");
  }

  /** A column to remap, with its value map. */
  datatype MappableField = MappableField(name: string, options: map<string, Label>)

  /** The fields to remap: each resolved column with the given value map when
      that map is non-empty; otherwise the annotations with a non-empty value
      map whose column is resolved, in annotation order. */
  function MappableFields(columns: seq<string>, valueMap: map<string, Label>, annotation: seq<Annotation>): (fs: seq<MappableField>)
    ensures |valueMap| > 0 ==> (|fs| == |columns| &&
      forall k | 0 <= k < |columns| :: fs[k] == MappableField(columns[k], valueMap))
    ensures |valueMap| == 0 ==> forall f :: f in fs <==>
      exists a | a in annotation :: |a.options| > 0 && a.name in columns && f == MappableField(a.name, a.options)
  {
    if |valueMap| > 0 then
      seq(|columns|, k requires 0 <= k < |columns| => MappableField(columns[k], valueMap))
    else AnnotatedFields(annotation, columns)
  }

  function AnnotatedFields(annotation: seq<Annotation>, columns: seq<string>): (fs: seq<MappableField>)
    ensures forall f :: f in fs <==>
      exists a | a in annotation :: |a.options| > 0 && a.name in columns && f == MappableField(a.name, a.options)
  {
    if |annotation| == 0 then []
    else
      var a := annotation[0];
      var rest := AnnotatedFields(annotation[1..], columns);
      assert forall b | b in annotation :: b == a || b in annotation[1..];
      assert forall b | b in annotation[1..] :: b in annotation;
      if |a.options| > 0 && a.name in columns then [MappableField(a.name, a.options)] + rest else rest
  }

  /** The rows with the cell at position `j` of each remapped; a cell that
      fails to remap fails the whole column. */
  function RemapRows(rows: seq<seq<string>>, j: nat, m: map<string, Label>, sep: string): (r: Result<seq<seq<string>>>)
    requires forall i | 0 <= i < |rows| :: j < |rows[i]|
    ensures r.Success? <==> forall i | 0 <= i < |rows| :: RemapCell(rows[i][j], m, sep).Success?
    ensures r.Failure? ==> r.error == JoinTypeError
    ensures r.Success? ==> (|r.value| == |rows| &&
      forall i | 0 <= i < |rows| :: r.value[i] == rows[i][j := RemapCell(rows[i][j], m, sep).value])
  {
    if forall i | 0 <= i < |rows| :: RemapCell(rows[i][j], m, sep).Success? then
      Success(seq(|rows|, i requires 0 <= i < |rows| => rows[i][j := RemapCell(rows[i][j], m, sep).value]))
    else Failure(JoinTypeError)
  }

  /** One field remapped: every cell of its column rewritten, nothing else. */
  function RemapField(t: Table, f: MappableField, sep: string): (r: Result<Table>)
    requires WellFormed(t) && f.name in t.columns
    ensures r.Success? <==> forall i | 0 <= i < |t.rows| :: RemapCell(t.rows[i][IndexOf(t.columns, f.name)], f.options, sep).Success?
    ensures r.Success? ==> WellFormed(r.value) && r.value.columns == t.columns && |r.value.rows| == |t.rows|
    ensures r.Success? ==> forall i, j | 0 <= i < |t.rows| && 0 <= j < |t.columns| ::
      r.value.rows[i][j] ==
        if j == IndexOf(t.columns, f.name) then RemapCell(t.rows[i][j], f.options, sep).value else t.rows[i][j]
  {
    var rows :- RemapRows(t.rows, IndexOf(t.columns, f.name), f.options, sep);
    Success(Table(t.columns, rows))
  }

  /** The fields remapped one after the other. */
  function RemapFields(t: Table, fs: seq<MappableField>, sep: string): (r: Result<Table>)
    requires WellFormed(t) && forall f | f in fs :: f.name in t.columns
    ensures r.Success? ==> WellFormed(r.value) && r.value.columns == t.columns && |r.value.rows| == |t.rows|
    ensures r.Success? ==> forall i, j | 0 <= i < |t.rows| && 0 <= j < |t.columns| && t.columns[j] !in Names(fs) ::
      r.value.rows[i][j] == t.rows[i][j]
  {
    if |fs| == 0 then Success(t)
    else
      var n := |fs| - 1;
      assert forall f | f in fs[..n] :: f in fs;
      var prev :- RemapFields(t, fs[..n], sep);
      assert fs[n] in fs;
      var r :- RemapField(prev, fs[n], sep);
      assert forall j | 0 <= j < |t.columns| && t.columns[j] !in Names(fs) :: j != IndexOf(t.columns, fs[n].name);
      Success(r)
  }

  function Names(fs: seq<MappableField>): (ns: set<string>)
    ensures forall f | f in fs :: f.name in ns
    ensures forall c | c in ns :: exists f | f in fs :: f.name == c
  {
    set f | f in fs :: f.name
  }

  lemma RemapFieldsStep(t: Table, fs: seq<MappableField>, sep: string, k: nat)
    requires WellFormed(t) && forall f | f in fs :: f.name in t.columns
    requires k < |fs| && RemapFields(t, fs[..k], sep).Success?
    ensures fs[k].name in RemapFields(t, fs[..k], sep).value.columns
    ensures RemapFields(t, fs[..k + 1], sep) == RemapField(RemapFields(t, fs[..k], sep).value, fs[k], sep)
  {
    assert fs[k] in fs;
    assert fs[..k + 1][..k] == fs[..k];
  }

  lemma {:induction false} RemapFieldsFailurePersists(t: Table, fs: seq<MappableField>, sep: string, k: nat)
    requires WellFormed(t) && forall f | f in fs :: f.name in t.columns
    requires k <= |fs| && RemapFields(t, fs[..k], sep).Failure?
    ensures RemapFields(t, fs, sep) == RemapFields(t, fs[..k], sep)
    decreases |fs| - k
  {
    if k < |fs| {
      assert fs[..k + 1][..k] == fs[..k];
      RemapFieldsFailurePersists(t, fs, sep, k + 1);
    } else {
      assert fs[..k] == fs;
    }
  }

  /** `_remap_values_by_columns` as a value: the resolved columns (default:
      none), then each mappable field remapped in turn. */
  function Remap(t: Table, columns: seq<string>, valueMap: map<string, Label>, annotation: seq<Annotation>, sep: string): (r: Result<Table>)
    requires WellFormed(t)
    ensures r.Success? ==> WellFormed(r.value) && r.value.columns == t.columns && |r.value.rows| == |t.rows|
  {
    var resolved := Resolve(t.columns, columns, []);
    var fs := MappableFields(resolved, valueMap, annotation);
    RemapResolvedFields(t, resolved, valueMap, annotation);
    RemapFields(t, fs, sep)
  }

  lemma RemapResolvedFields(t: Table, resolved: seq<string>, valueMap: map<string, Label>, annotation: seq<Annotation>)
    requires forall c | c in resolved :: c in t.columns
    ensures forall f | f in MappableFields(resolved, valueMap, annotation) :: f.name in resolved && f.name in t.columns
  {
    var fs := MappableFields(resolved, valueMap, annotation);
    if |valueMap| > 0 {
      forall f | f in fs ensures f.name in resolved {
        var k :| 0 <= k < |fs| && fs[k] == f;
      }
    }
  }

  /** Columns not requested keep every cell. */
  lemma RemapKeepsOtherColumns(t: Table, columns: seq<string>, valueMap: map<string, Label>, annotation: seq<Annotation>, sep: string)
    requires WellFormed(t) && Remap(t, columns, valueMap, annotation, sep).Success?
    ensures var r := Remap(t, columns, valueMap, annotation, sep).value;
      forall i, j | 0 <= i < |t.rows| && 0 <= j < |t.columns| && t.columns[j] !in columns :: r.rows[i][j] == t.rows[i][j]
  {
    var resolved := Resolve(t.columns, columns, []);
    var fs := MappableFields(resolved, valueMap, annotation);
    RemapResolvedFields(t, resolved, valueMap, annotation);
    assert forall c | c in resolved :: c in columns;
    assert forall c | c in Names(fs) :: c in resolved;
  }

  lemma RemapSingleField(t: Table, f: MappableField, sep: string)
    requires WellFormed(t) && f.name in t.columns
    ensures RemapFields(t, [f], sep) == RemapField(t, f, sep)
  {
    assert [f][..0] == [];
  }

  /** With a value map given, remapping one present column is remapping that
      field: each of its cells becomes its remapped text and every other cell
      stays (the contract of `RemapField`). */
  lemma RemapWithValueMap(t: Table, valueMap: map<string, Label>, sep: string, c: string)
    requires WellFormed(t) && |valueMap| > 0 && c in t.columns
    ensures Remap(t, [c], valueMap, [], sep) == RemapField(t, MappableField(c, valueMap), sep)
  {
    assert Resolve(t.columns, [c], []) == [c];
    var f := MappableField(c, valueMap);
    assert MappableFields([c], valueMap, []) == [f];
    RemapSingleField(t, f, sep);
  }

  /** The row loop over one field: each cell of its column rewritten in
      place, stopping at the first cell that fails. */
  method RemapFieldInPlace(df: Frame, f: MappableField, sep: string) returns (r: Result<Frame>)
    requires WellFormed(df.Value()) && f.name in df.columns
    modifies df
    ensures r.Success? <==> RemapField(old(df.Value()), f, sep).Success?
    ensures r.Failure? ==> r.error == JoinTypeError
    ensures r.Success? ==> df.Value() == RemapField(old(df.Value()), f, sep).value
  {
    var j := IndexOf(df.columns, f.name);
    var rows := RemapColumnCells(df.rows, j, f.options, sep);
    if rows.Failure? {
      return Failure(rows.error);
    }
    df.rows := rows.value;
    return Success(df);
  }

  /** The row loop: the cell at position `j` of each row rewritten in turn,
      stopping at the first cell that fails. */
  method RemapColumnCells(rows0: seq<seq<string>>, j: nat, m: map<string, Label>, sep: string) returns (r: Result<seq<seq<string>>>)
    requires forall p | 0 <= p < |rows0| :: j < |rows0[p]|
    ensures r == RemapRows(rows0, j, m, sep)
  {
    var rows := rows0;
    var i := 0;
    while i < |rows0|
      invariant 0 <= i <= |rows0| == |rows|
      invariant forall p | 0 <= p < i ::
        RemapCell(rows0[p][j], m, sep).Success? && rows[p] == rows0[p][j := RemapCell(rows0[p][j], m, sep).value]
      invariant forall p | i <= p < |rows0| :: rows[p] == rows0[p]
    {
      var cell := RemapCell(rows0[i][j], m, sep);
      if cell.Failure? {
        RemapRowsFailsAt(rows0, j, m, sep, i);
        return Failure(cell.error);
      }
      ghost var before := rows;
      rows := rows[i := rows0[i][j := cell.value]];
      assert forall p | 0 <= p < |rows0| && p != i :: rows[p] == before[p];
      i := i + 1;
    }
    assert RemapRows(rows0, j, m, sep).Success?;
    assert rows == RemapRows(rows0, j, m, sep).value;
    return Success(rows);
  }

  /** One cell that fails to remap fails the whole column. */
  lemma RemapRowsFailsAt(rows: seq<seq<string>>, j: nat, m: map<string, Label>, sep: string, i: nat)
    requires forall p | 0 <= p < |rows| :: j < |rows[p]|
    requires i < |rows| && RemapCell(rows[i][j], m, sep).Failure?
    ensures RemapRows(rows, j, m, sep) == Failure(JoinTypeError)
  {
  }

  /** The remap loop: for each mappable field, for each row, the cell at the
      field's column rewritten in place. */
  method RemapValuesByColumns(df: Frame, columns: seq<string>, valueMap: map<string, Label>, annotation: seq<Annotation>, sep: string)
    returns (r: Result<Frame>)
    requires WellFormed(df.Value())
    modifies df
    ensures r.Success? <==> Remap(old(df.Value()), columns, valueMap, annotation, sep).Success?
    ensures r.Failure? ==> r.error == Remap(old(df.Value()), columns, valueMap, annotation, sep).error
    ensures r.Success? ==> (r.value == df && df.Value() == Remap(old(df.Value()), columns, valueMap, annotation, sep).value)
  {
    ghost var t0 := df.Value();
    var resolved := Resolve(df.columns, columns, []);
    var fs := MappableFields(resolved, valueMap, annotation);
    RemapResolvedFields(t0, resolved, valueMap, annotation);
    var k := 0;
    assert fs[..0] == [];
    while k < |fs|
      invariant 0 <= k <= |fs|
      invariant RemapFields(t0, fs[..k], sep) == Success(df.Value())
    {
      RemapFieldsStep(t0, fs, sep, k);
      var step := RemapFieldInPlace(df, fs[k], sep);
      if step.Failure? {
        RemapFieldsFailurePersists(t0, fs, sep, k + 1);
        return Failure(step.error);
      }
      k := k + 1;
    }
    assert fs[..k] == fs;
    return Success(df);
  }

  // ---------------------------------------------------------------------
  // Mapping missing values
  // ---------------------------------------------------------------------

  /** Whether a cell counts as missing: empty, or one of the sentinel texts. */
  predicate IsMissing(cell: string, generic: string) {
    |cell| == 0 || cell in SentinelTexts(generic)
  }

  /** The replacement given, or the missing-value label when none is. */
  function MissingValue(missingValue: Option<string>, generic: string): (r: string)
    ensures missingValue.None? ==> r == generic
    ensures missingValue.Some? ==> r == missingValue.value
  {
    missingValue.GetOr(generic)
  }

  /** Whether position `j` is where a write to one of `targets` lands: the
      first column carrying a target label. */
  predicate IsTarget(cols: seq<string>, targets: seq<string>, j: nat) {
    j < |cols| && cols[j] in targets && IndexOf(cols, cols[j]) == j
  }

  /** One column's missing cells replaced. */
  function MapMissingAt(t: Table, j: nat, replacement: string, generic: string): (r: Table)
    requires WellFormed(t) && j < |t.columns|
    ensures WellFormed(r) && r.columns == t.columns && |r.rows| == |t.rows|
    ensures forall i, k | 0 <= i < |t.rows| && 0 <= k < |t.columns| ::
      r.rows[i][k] == if k == j && IsMissing(t.rows[i][k], generic) then replacement else t.rows[i][k]
  {
    Table(t.columns, seq(|t.rows|, i requires 0 <= i < |t.rows| =>
      if IsMissing(t.rows[i][j], generic) then t.rows[i][j := replacement] else t.rows[i]))
  }

  /** The columns `targets` (all present) have their missing cells replaced,
      one column after another. */
  function MapMissingColumns(t: Table, targets: seq<string>, replacement: string, generic: string): (r: Table)
    requires WellFormed(t) && forall c | c in targets :: c in t.columns
    ensures WellFormed(r) && r.columns == t.columns && |r.rows| == |t.rows|
  {
    if |targets| == 0 then t
    else
      var n := |targets| - 1;
      assert forall c | c in targets[..n] :: c in targets;
      var prev := MapMissingColumns(t, targets[..n], replacement, generic);
      assert targets[n] in targets;
      MapMissingAt(prev, IndexOf(t.columns, targets[n]), replacement, generic)
  }

  /** Each cell at a target position that is missing holds the replacement;
      every other cell is unchanged. */
  lemma {:induction false} MapMissingColumnsCells(t: Table, targets: seq<string>, replacement: string, generic: string)
    requires WellFormed(t) && forall c | c in targets :: c in t.columns
    ensures var r := MapMissingColumns(t, targets, replacement, generic);
      forall i, k | 0 <= i < |t.rows| && 0 <= k < |t.columns| ::
        r.rows[i][k] == if IsTarget(t.columns, targets, k) && IsMissing(t.rows[i][k], generic) then replacement else t.rows[i][k]
  {
    if |targets| > 0 {
      var n := |targets| - 1;
      assert forall c | c in targets[..n] :: c in targets;
      assert targets[n] in targets;
      var prev := MapMissingColumns(t, targets[..n], replacement, generic);
      MapMissingColumnsCells(t, targets[..n], replacement, generic);
      var j := IndexOf(t.columns, targets[n]);
      MapMissingTargetsStep(t.columns, targets, j);
      var r := MapMissingColumns(t, targets, replacement, generic);
      assert r == MapMissingAt(prev, j, replacement, generic);
      forall i, k | 0 <= i < |t.rows| && 0 <= k < |t.columns|
        ensures r.rows[i][k] == if IsTarget(t.columns, targets, k) && IsMissing(t.rows[i][k], generic) then replacement else t.rows[i][k]
      {
        var x := t.rows[i][k];
        assert prev.rows[i][k] == if IsTarget(t.columns, targets[..n], k) && IsMissing(x, generic) then replacement else x;
        if k == j {
          assert IsTarget(t.columns, targets, k);
          assert r.rows[i][k] == if IsMissing(prev.rows[i][k], generic) then replacement else prev.rows[i][k];
        } else {
          assert r.rows[i][k] == prev.rows[i][k];
          assert IsTarget(t.columns, targets, k) <==> IsTarget(t.columns, targets[..n], k);
        }
      }
    }
  }

  /** The targets of a list are those of its prefix and the position of its
      last label. */
  lemma MapMissingTargetsStep(cols: seq<string>, targets: seq<string>, j: nat)
    requires |targets| > 0 && targets[|targets| - 1] in cols && j == IndexOf(cols, targets[|targets| - 1])
    ensures forall k | 0 <= k < |cols| ::
      IsTarget(cols, targets, k) <==> IsTarget(cols, targets[..|targets| - 1], k) || k == j
  {
    var n := |targets| - 1;
    assert forall c | c in targets :: c in targets[..n] || c == targets[n];
    assert forall c | c in targets[..n] :: c in targets;
  }

  /** `_map_missing_values_by_columns` as a value: in each resolved column
      (default: none) every missing cell becomes the replacement, and no other
      cell changes. */
  function MapMissing(t: Table, columns: seq<string>, missingValue: Option<string>, generic: string): (r: Table)
    requires WellFormed(t)
    ensures WellFormed(r) && r.columns == t.columns && |r.rows| == |t.rows|
  {
    MapMissingColumns(t, Resolve(t.columns, columns, []), MissingValue(missingValue, generic), generic)
  }

  /** In each resolved column every missing cell becomes the replacement, and
      no other cell changes. */
  lemma MapMissingCells(t: Table, columns: seq<string>, missingValue: Option<string>, generic: string)
    requires WellFormed(t)
    ensures var r := MapMissing(t, columns, missingValue, generic);
      forall i, k | 0 <= i < |t.rows| && 0 <= k < |t.columns| ::
        r.rows[i][k] ==
          if IsTarget(t.columns, Resolve(t.columns, columns, []), k) && IsMissing(t.rows[i][k], generic)
          then MissingValue(missingValue, generic) else t.rows[i][k]
  {
    MapMissingColumnsCells(t, Resolve(t.columns, columns, []), MissingValue(missingValue, generic), generic);
  }

  /** A requested column present in the frame is a target: every missing
      cell of it is replaced, whatever else is requested. */
  lemma MapMissingRequested(t: Table, columns: seq<string>, missingValue: Option<string>, generic: string, c: string, i: nat)
    requires WellFormed(t) && c in columns && c in t.columns && i < |t.rows|
    ensures var j := IndexOf(t.columns, c);
      MapMissing(t, columns, missingValue, generic).rows[i][j] ==
        if IsMissing(t.rows[i][j], generic) then MissingValue(missingValue, generic) else t.rows[i][j]
  {
    var j := IndexOf(t.columns, c);
    MapMissingCells(t, columns, missingValue, generic);
    assert c in Resolve(t.columns, columns, []);
    assert IsTarget(t.columns, Resolve(t.columns, columns, []), j);
  }

  /** Mapping missing values twice is mapping them once: a replaced cell holds
      the replacement, which is replaced by itself if it is missing too. */
  lemma MapMissingIdempotent(t: Table, columns: seq<string>, missingValue: Option<string>, generic: string)
    requires WellFormed(t)
    ensures MapMissing(MapMissing(t, columns, missingValue, generic), columns, missingValue, generic) ==
      MapMissing(t, columns, missingValue, generic)
  {
    var r := MapMissing(t, columns, missingValue, generic);
    var rr := MapMissing(r, columns, missingValue, generic);
    var resolved := Resolve(t.columns, columns, []);
    var rep := MissingValue(missingValue, generic);
    MapMissingCells(t, columns, missingValue, generic);
    MapMissingCells(r, columns, missingValue, generic);
    forall i | 0 <= i < |t.rows| ensures rr.rows[i] == r.rows[i] {
      forall k | 0 <= k < |t.columns| ensures rr.rows[i][k] == r.rows[i][k] {
        if IsTarget(t.columns, resolved, k) && IsMissing(t.rows[i][k], generic) {
          assert r.rows[i][k] == rep;
        } else {
          assert r.rows[i][k] == t.rows[i][k];
        }
      }
    }
  }

  /** One more target column. */
  lemma MapMissingColumnsStep(t: Table, targets: seq<string>, replacement: string, generic: string, k: nat)
    requires WellFormed(t) && forall c | c in targets :: c in t.columns
    requires k < |targets|
    ensures targets[k] in t.columns
    ensures MapMissingColumns(t, targets[..k + 1], replacement, generic) ==
      MapMissingAt(MapMissingColumns(t, targets[..k], replacement, generic), IndexOf(t.columns, targets[k]), replacement, generic)
  {
    assert targets[k] in targets;
    assert targets[..k + 1][..k] == targets[..k];
  }

  /** The row loop over one column: each missing cell overwritten in place. */
  method MapMissingInColumn(df: Frame, j: nat, replacement: string, generic: string)
    requires WellFormed(df.Value()) && j < |df.columns|
    modifies df
    ensures df.Value() == MapMissingAt(old(df.Value()), j, replacement, generic)
  {
    ghost var t1 := df.Value();
    var i := 0;
    while i < |df.rows|
      invariant 0 <= i <= |df.rows| == |t1.rows|
      invariant df.columns == t1.columns
      invariant forall p | 0 <= p < |df.rows| ::
        df.rows[p] == (if p < i then MapMissingAt(t1, j, replacement, generic).rows[p] else t1.rows[p])
    {
      if IsMissing(df.rows[i][j], generic) {
        df.rows := df.rows[i := df.rows[i][j := replacement]];
      }
      i := i + 1;
    }
  }

  /** The missing-value loop: for each resolved column, for each row, a
      missing cell overwritten in place. */
  method MapMissingValuesByColumns(df: Frame, columns: seq<string>, missingValue: Option<string>, generic: string)
    returns (r: Frame)
    requires WellFormed(df.Value())
    modifies df
    ensures r == df && df.Value() == MapMissing(old(df.Value()), columns, missingValue, generic)
  {
    ghost var t0 := df.Value();
    var resolved := Resolve(df.columns, columns, []);
    var replacement := MissingValue(missingValue, generic);
    var k := 0;
    assert resolved[..0] == [];
    while k < |resolved|
      invariant 0 <= k <= |resolved|
      invariant df.Value() == MapMissingColumns(t0, resolved[..k], replacement, generic)
    {
      MapMissingColumnsStep(t0, resolved, replacement, generic, k);
      MapMissingInColumn(df, IndexOf(df.columns, resolved[k]), replacement, generic);
      k := k + 1;
    }
    assert resolved[..k] == resolved;
    return df;
  }

  // ---------------------------------------------------------------------
  // Transforming values into a new column
  // ---------------------------------------------------------------------

  /** The new cell for one source cell: the missing value stays, any other
      value goes through the transform, and a transform giving no value
      (NaN or None) is filled with the missing value. */
  function TransformCell(cell: string, transform: string -> Option<string>, missingValue: string): string {
    if cell != missingValue then transform(cell).GetOr(missingValue) else missingValue
  }

  /** `_transform_values_by_column` as a value: the column `newColumnName`
      (overwritten, or appended when absent) holds the transformed cells of
      `column`; a missing source column raises KeyError. */
  function TransformValues(t: Table, column: string, newColumnName: string, transform: string -> Option<string>, missingValue: string): (r: Result<Table>)
    requires WellFormed(t)
    ensures r.Failure? <==> column !in t.columns
    ensures r.Failure? ==> r.error == KeyError(column)
    ensures r.Success? ==> WellFormed(r.value) && |r.value.rows| == |t.rows|
    ensures r.Success? ==> r.value.columns == if newColumnName in t.columns then t.columns else t.columns + [newColumnName]
    ensures r.Success? ==> forall i | 0 <= i < |t.rows| ::
      r.value.rows[i][IndexOf(r.value.columns, newColumnName)] ==
        TransformCell(t.rows[i][IndexOf(t.columns, column)], transform, missingValue)
    ensures r.Success? ==> forall i, j | 0 <= i < |t.rows| && 0 <= j < |t.columns| && t.columns[j] != newColumnName ::
      r.value.rows[i][j] == t.rows[i][j]
  {
    if column !in t.columns then Failure(KeyError(column))
    else
      var source := Column(t, column);
      Success(SetColumn(t, newColumnName, seq(|t.rows|, i requires 0 <= i < |t.rows| =>
        TransformCell(source[i], transform, missingValue))))
  }

  function Identity(s: string): Option<string> {
    Some(s)
  }

  /** Transforming with the identity copies the column. */
  lemma TransformValuesIdentity(t: Table, column: string, newColumnName: string, missingValue: string)
    requires WellFormed(t) && column in t.columns
    ensures var r := TransformValues(t, column, newColumnName, Identity, missingValue).value;
      forall i | 0 <= i < |t.rows| :: r.rows[i][IndexOf(r.columns, newColumnName)] == t.rows[i][IndexOf(t.columns, column)]
  {
  }

  /** Transforming a column into itself twice with a transform that keeps the
      missing value (or gives no value) and is idempotent on the rest is
      transforming once. */
  lemma TransformValuesIdempotent(t: Table, column: string, transform: string -> Option<string>, missingValue: string)
    requires WellFormed(t) && column in t.columns
    requires forall s | s != missingValue && transform(s).Some? ::
      transform(s).value == missingValue || transform(transform(s).value) == transform(s)
    ensures var once := TransformValues(t, column, column, transform, missingValue).value;
      TransformValues(once, column, column, transform, missingValue) == Success(once)
  {
    var once := TransformValues(t, column, column, transform, missingValue).value;
    var twice := TransformValues(once, column, column, transform, missingValue).value;
    var j := IndexOf(t.columns, column);
    assert once.columns == t.columns && twice.columns == t.columns;
    forall i | 0 <= i < |t.rows| ensures twice.rows[i] == once.rows[i] {
      forall k | 0 <= k < |t.columns| ensures twice.rows[i][k] == once.rows[i][k] {
        if k == j {
          var x := t.rows[i][j];
          assert once.rows[i][j] == TransformCell(x, transform, missingValue);
          assert twice.rows[i][j] == TransformCell(once.rows[i][j], transform, missingValue);
          TransformCellIdempotent(x, transform, missingValue);
        }
      }
    }
    assert twice.rows == once.rows;
  }

  lemma TransformCellIdempotent(x: string, transform: string -> Option<string>, missingValue: string)
    requires forall s | s != missingValue && transform(s).Some? ::
      transform(s).value == missingValue || transform(transform(s).value) == transform(s)
    ensures TransformCell(TransformCell(x, transform, missingValue), transform, missingValue) ==
      TransformCell(x, transform, missingValue)
  {
  }

  /** The in-place assignment of the new column. */
  method TransformValuesByColumn(df: Frame, column: string, newColumnName: string, transform: string -> Option<string>, missingValue: string)
    returns (r: Result<Frame>)
    requires WellFormed(df.Value())
    modifies df
    ensures r.Success? <==> column in old(df.columns)
    ensures r.Failure? ==> r.error == KeyError(column) && unchanged(df)
    ensures r.Success? ==> (r.value == df &&
      df.Value() == TransformValues(old(df.Value()), column, newColumnName, transform, missingValue).value)
  {
    var t := TransformValues(df.Value(), column, newColumnName, transform, missingValue);
    if t.Failure? {
      return Failure(t.error);
    }
    df.columns, df.rows := t.value.columns, t.value.rows;
    return Success(df);
  }
}
