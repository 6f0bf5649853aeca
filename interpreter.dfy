/** `apply_transform`: a transform is named in the configuration by the name
    of its method without the leading underscore and called with keyword
    arguments. Binding the keywords to a method's parameters is modelled as
    building a `Transform` value; running it is a match over that value. */
module Interpreter {
  import opened Results
  import opened Tables
  import opened Annotations
  import CT = ColumnTransforms
  import RT = RowTransforms
  import VT = ValueTransforms
  import DC = DerivedColumns
  import RI = RepeatInstruments

  /** A keyword argument's value, by the kinds the transforms take. */
  datatype Value =
    | Text(text: string)
    | Texts(items: seq<string>)
    | Flag(flag: bool)
    | Nothing                                   // Python's None
    | ValueMap(labels: map<string, Label>)      // a code -> label dictionary
    | ColumnNameMap(pairs: seq<(string, string)>) // an ordered column -> label dictionary
    | AnnotationList(annotations: seq<Annotation>)
    | Callable(apply: string -> Option<string>) // a per-cell function or a dtype
    | Condition(test: string -> bool)           // a per-cell predicate

  /** One configured call: a transform name and its keyword arguments. */
  datatype Call = Call(name: string, kwargs: map<string, Value>)

  /** The engine settings the transforms read besides their arguments. */
  datatype Settings = Settings(index: seq<string>, separator: string, generic: string)

  /** A transform with every argument bound. The annotation is kept only where
      the transform reads it; `dtype` is kept only where it is applied. */
  datatype Transform =
    | DropColumns(columns: seq<string>)
    | KeepColumns(columns: seq<string>)
    | AppendColumnSuffix(columns: seq<string>, suffix: string, separator: string)
    | PrependColumnPrefix(columns: seq<string>, prefix: string, separator: string)
    | RemapValuesByColumns(columns: seq<string>, valueMap: map<string, Label>, annotation: seq<Annotation>)
    | TransformValuesByColumn(column: string, newColumnName: string, transform: string -> Option<string>, missingValue: string)
    | MapMissingValuesByColumns(columns: seq<string>, replacement: Option<string>)
    | DropRows(columns: seq<string>, condition: string -> bool)
    | AggregateRepeatInstrumentByIndex(aggregator: string, dtype: string -> Option<string>)
    | PositiveClass(pairs: seq<(string, string)>, newColumnName: string, allNegative: string, default: Option<string>)
    | NegativeClass(pairs: seq<(string, string)>, newColumnName: string)

  /** The transforms `apply_transform` can reach. */
  datatype Op =
    | DropColumnsOp | KeepColumnsOp | SuffixOp | PrefixOp | RemapOp | TransformValuesOp
    | MapMissingOp | DropRowsOp | AggregateOp | PositiveOp | NegativeOp

  /** The configured name of each transform: its method's name without the
      leading underscore. */
  function OpName(op: Op): string {
    match op
    case DropColumnsOp => "drop_columns"
    case KeepColumnsOp => "keep_columns"
    case SuffixOp => "append_column_suffix"
    case PrefixOp => "prepend_column_prefix"
    case RemapOp => "remap_values_by_columns"
    case TransformValuesOp => "transform_values_by_column"
    case MapMissingOp => "map_missing_values_by_columns"
    case DropRowsOp => "drop_rows"
    case AggregateOp => "aggregate_repeat_instrument_by_index"
    case PositiveOp => "new_column_from_binary_columns_positive_class"
    case NegativeOp => "new_column_from_binary_columns_negative_class"
  }

  /** The transform a configured name selects, if any. */
  function OpNamed(name: string): (r: Option<Op>)
    ensures r.Some? ==> OpName(r.value) == name
  {
    if name == "drop_columns" then Some(DropColumnsOp)
    else if name == "keep_columns" then Some(KeepColumnsOp)
    else if name == "append_column_suffix" then Some(SuffixOp)
    else if name == "prepend_column_prefix" then Some(PrefixOp)
    else if name == "remap_values_by_columns" then Some(RemapOp)
    else if name == "transform_values_by_column" then Some(TransformValuesOp)
    else if name == "map_missing_values_by_columns" then Some(MapMissingOp)
    else if name == "drop_rows" then Some(DropRowsOp)
    else if name == "aggregate_repeat_instrument_by_index" then Some(AggregateOp)
    else if name == "new_column_from_binary_columns_positive_class" then Some(PositiveOp)
    else if name == "new_column_from_binary_columns_negative_class" then Some(NegativeOp)
    else None
  }

  /** A method's keyword parameters (after the frame) and those without a
      default. */
  datatype Signature = Signature(params: seq<string>, required: seq<string>)

  /** The keyword parameters of each transform method. */
  function SignatureOf(op: Op): Signature {
    match op
    case DropColumnsOp => Signature(["columns", "annotation"], [])
    case KeepColumnsOp => Signature(["columns", "annotation"], [])
    case SuffixOp => Signature(["columns", "suffix", "separator", "annotation"], [])
    case PrefixOp => Signature(["columns", "prefix", "separator", "annotation"], [])
    case RemapOp => Signature(["columns", "value_map", "annotation"], ["columns"])
    case TransformValuesOp =>
      Signature(["column", "new_column_name", "transform", "missing_value", "annotation"],
                ["column", "new_column_name", "transform", "missing_value"])
    case MapMissingOp => Signature(["columns", "missing_value", "annotation"], ["columns"])
    case DropRowsOp => Signature(["columns", "condition", "annotation"], [])
    case AggregateOp => Signature(["aggregator", "dtype", "annotation"], [])
    case PositiveOp =>
      Signature(["column_name_map", "new_column_name", "all_negative_value", "default_value", "dtype", "annotation"],
                ["column_name_map"])
    case NegativeOp => Signature(["column_name_map", "new_column_name", "dtype"], ["column_name_map"])
  }

  /** The transform a bound call runs. */
  function OpOf(step: Transform): Op {
    match step
    case DropColumns(_) => DropColumnsOp
    case KeepColumns(_) => KeepColumnsOp
    case AppendColumnSuffix(_, _, _) => SuffixOp
    case PrependColumnPrefix(_, _, _) => PrefixOp
    case RemapValuesByColumns(_, _, _) => RemapOp
    case TransformValuesByColumn(_, _, _, _) => TransformValuesOp
    case MapMissingValuesByColumns(_, _) => MapMissingOp
    case DropRows(_, _) => DropRowsOp
    case AggregateRepeatInstrumentByIndex(_, _) => AggregateOp
    case PositiveClass(_, _, _, _) => PositiveOp
    case NegativeClass(_, _) => NegativeOp
  }

  // ---------------------------------------------------------------------
  // Reading one argument
  // ---------------------------------------------------------------------

  /** A value of the wrong kind for its parameter. */
  function KindError(key: string): Error {
    TypeError("argument " + key + " has the wrong kind")
  }

  function TextsArg(kw: map<string, Value>, key: string, default: seq<string>): Result<seq<string>> {
    if key !in kw then Success(default)
    else match kw[key]
      case Texts(xs) => Success(xs)
      case _ => Failure(KindError(key))
  }

  function TextArg(kw: map<string, Value>, key: string, default: string): Result<string> {
    if key !in kw then Success(default)
    else match kw[key]
      case Text(s) => Success(s)
      case _ => Failure(KindError(key))
  }

  /** A text that may be None. */
  function OptionalTextArg(kw: map<string, Value>, key: string, default: Option<string>): Result<Option<string>> {
    if key !in kw then Success(default)
    else match kw[key]
      case Text(s) => Success(Some(s))
      case Nothing => Success(None)
      case _ => Failure(KindError(key))
  }

  function ValueMapArg(kw: map<string, Value>, key: string): Result<map<string, Label>> {
    if key !in kw then Success(map[])
    else match kw[key]
      case ValueMap(m) => Success(m)
      case _ => Failure(KindError(key))
  }

  function PairsArg(kw: map<string, Value>, key: string): Result<seq<(string, string)>> {
    if key !in kw then Success([])
    else match kw[key]
      case ColumnNameMap(ps) => Success(ps)
      case _ => Failure(KindError(key))
  }

  function AnnotationArg(kw: map<string, Value>, key: string): Result<seq<Annotation>> {
    if key !in kw then Success([])
    else match kw[key]
      case AnnotationList(a) => Success(a)
      case _ => Failure(KindError(key))
  }

  function CallableArg(kw: map<string, Value>, key: string, default: string -> Option<string>): Result<string -> Option<string>> {
    if key !in kw then Success(default)
    else match kw[key]
      case Callable(f) => Success(f)
      case _ => Failure(KindError(key))
  }

  function ConditionArg(kw: map<string, Value>, key: string, default: string -> bool): Result<string -> bool> {
    if key !in kw then Success(default)
    else match kw[key]
      case Condition(p) => Success(p)
      case _ => Failure(KindError(key))
  }

  /** The callable a required parameter is never read without. */
  function NoCell(s: string): Option<string> {
    None
  }

  // ---------------------------------------------------------------------
  // Binding
  // ---------------------------------------------------------------------

  /** The arguments read for a transform, with each parameter's default; a
      value of the wrong kind raises TypeError. */
  function Build(op: Op, kw: map<string, Value>): (r: Result<Transform>)
    ensures r.Success? ==> OpOf(r.value) == op
    ensures r.Failure? ==> r.error.TypeError?
  {
    match op
    case DropColumnsOp =>
      var cs :- TextsArg(kw, "columns", []);
      Success(DropColumns(cs))
    case KeepColumnsOp =>
      var cs :- TextsArg(kw, "columns", []);
      Success(KeepColumns(cs))
    case SuffixOp =>
      var cs :- TextsArg(kw, "columns", []);
      var suffix :- TextArg(kw, "suffix", "");
      var sep :- TextArg(kw, "separator", "");
      Success(AppendColumnSuffix(cs, suffix, sep))
    case PrefixOp =>
      var cs :- TextsArg(kw, "columns", []);
      var prefix :- TextArg(kw, "prefix", "");
      var sep :- TextArg(kw, "separator", "");
      Success(PrependColumnPrefix(cs, prefix, sep))
    case RemapOp =>
      var cs :- TextsArg(kw, "columns", []);
      var m :- ValueMapArg(kw, "value_map");
      var a :- AnnotationArg(kw, "annotation");
      Success(RemapValuesByColumns(cs, m, a))
    case TransformValuesOp =>
      var c :- TextArg(kw, "column", "");
      var n :- TextArg(kw, "new_column_name", "");
      var f :- CallableArg(kw, "transform", NoCell);
      var mv :- TextArg(kw, "missing_value", "");
      Success(TransformValuesByColumn(c, n, f, mv))
    case MapMissingOp =>
      var cs :- TextsArg(kw, "columns", []);
      var mv :- OptionalTextArg(kw, "missing_value", None);
      Success(MapMissingValuesByColumns(cs, mv))
    case DropRowsOp =>
      var cs :- TextsArg(kw, "columns", []);
      var p :- ConditionArg(kw, "condition", RT.IsEmptyCell);
      Success(DropRows(cs, p))
    case AggregateOp =>
      var a :- TextArg(kw, "aggregator", "max");
      var cast :- CallableArg(kw, "dtype", RI.FloatCast);
      Success(AggregateRepeatInstrumentByIndex(a, cast))
    case PositiveOp =>
      var ps :- PairsArg(kw, "column_name_map");
      var n :- TextArg(kw, "new_column_name", "");
      var neg :- TextArg(kw, "all_negative_value", "");
      var d :- OptionalTextArg(kw, "default_value", Some("Value Unavailable"));
      Success(PositiveClass(ps, n, neg, d))
    case NegativeOp =>
      var ps :- PairsArg(kw, "column_name_map");
      var n :- TextArg(kw, "new_column_name", "");
      Success(NegativeClass(ps, n))
  }

  /** `getattr(self, "_" + name)(df, **kwargs)` up to the call: an unknown
      name raises AttributeError; then a keyword the method does not take,
      and then a required parameter without a keyword, raise TypeError. */
  function Bind(name: string, kw: map<string, Value>): (r: Result<Transform>)
    ensures OpNamed(name).None? <==> r == Failure(AttributeError("_" + name))
    ensures OpNamed(name).Some? && (exists k | k in kw :: k !in SignatureOf(OpNamed(name).value).params) ==>
      r.Failure? && r.error.TypeError?
    ensures OpNamed(name).Some? && (exists p | p in SignatureOf(OpNamed(name).value).required :: p !in kw) ==>
      r.Failure? && r.error.TypeError?
    ensures r.Success? ==> OpName(OpOf(r.value)) == name
  {
    match OpNamed(name)
    case None => Failure(AttributeError("_" + name))
    case Some(op) =>
      var sig := SignatureOf(op);
      if exists k | k in kw :: k !in sig.params then Failure(TypeError("unexpected keyword argument"))
      else if exists p | p in sig.required :: p !in kw then Failure(TypeError("missing required argument"))
      else Build(op, kw)
  }

  /** The keyword arguments that name every parameter a transform keeps. */
  function Encode(step: Transform): map<string, Value> {
    match step
    case DropColumns(cs) => map["columns" := Texts(cs)]
    case KeepColumns(cs) => map["columns" := Texts(cs)]
    case AppendColumnSuffix(cs, suffix, sep) =>
      map["columns" := Texts(cs), "suffix" := Text(suffix), "separator" := Text(sep)]
    case PrependColumnPrefix(cs, prefix, sep) =>
      map["columns" := Texts(cs), "prefix" := Text(prefix), "separator" := Text(sep)]
    case RemapValuesByColumns(cs, m, a) =>
      map["columns" := Texts(cs), "value_map" := ValueMap(m), "annotation" := AnnotationList(a)]
    case TransformValuesByColumn(c, n, f, mv) =>
      map["column" := Text(c), "new_column_name" := Text(n), "transform" := Callable(f), "missing_value" := Text(mv)]
    case MapMissingValuesByColumns(cs, mv) =>
      map["columns" := Texts(cs), "missing_value" := if mv.Some? then Text(mv.value) else Nothing]
    case DropRows(cs, p) => map["columns" := Texts(cs), "condition" := Condition(p)]
    case AggregateRepeatInstrumentByIndex(a, cast) => map["aggregator" := Text(a), "dtype" := Callable(cast)]
    case PositiveClass(ps, n, neg, d) =>
      map["column_name_map" := ColumnNameMap(ps), "new_column_name" := Text(n), "all_negative_value" := Text(neg),
          "default_value" := if d.Some? then Text(d.value) else Nothing]
    case NegativeClass(ps, n) => map["column_name_map" := ColumnNameMap(ps), "new_column_name" := Text(n)]
  }

  // ---------------------------------------------------------------------
  // Running a bound transform
  // ---------------------------------------------------------------------

  /** Whether the transform writes into the frame it is given and returns
      that frame, rather than returning a new one. */
  predicate InPlace(step: Transform) {
    step.RemapValuesByColumns? || step.TransformValuesByColumn? || step.MapMissingValuesByColumns?
      || step.PositiveClass? || step.NegativeClass? || step.AppendColumnSuffix? || step.PrependColumnPrefix?
  }

  /** The transforms that reshape the frame: they never fail. The suffix and
      prefix transforms relabel the frame they are given; the others return a
      new frame. */
  predicate Reshapes(step: Transform) {
    step.DropColumns? || step.KeepColumns? || step.AppendColumnSuffix? || step.PrependColumnPrefix? || step.DropRows?
  }

  function ReshapeSpec(t: Table, step: Transform): (r: Table)
    requires WellFormed(t) && Reshapes(step)
    ensures WellFormed(r)
  {
    match step
    case DropColumns(cs) => CT.DropColumns(t, cs)
    case KeepColumns(cs) => CT.KeepColumns(t, cs)
    case AppendColumnSuffix(cs, suffix, sep) => CT.AppendColumnSuffix(t, cs, suffix, sep)
    case PrependColumnPrefix(cs, prefix, sep) => CT.PrependColumnPrefix(t, cs, prefix, sep)
    case DropRows(cs, p) =>
      var r := RT.DropRows(t, cs, p);
      forall i | 0 <= i < |r.rows| ensures |r.rows[i]| == |r.columns| {
        assert r.rows[i] in r.rows;
      }
      r
  }

  /** The transforms that rewrite cells of existing or derived columns. */
  function RewriteSpec(t: Table, step: Transform, s: Settings): (r: Result<Table>)
    requires WellFormed(t) && !Reshapes(step) && !step.AggregateRepeatInstrumentByIndex?
    ensures r.Success? ==> WellFormed(r.value)
  {
    match step
    case RemapValuesByColumns(cs, m, a) => VT.Remap(t, cs, m, a, s.separator)
    case TransformValuesByColumn(c, n, f, mv) => VT.TransformValues(t, c, n, f, mv)
    case MapMissingValuesByColumns(cs, mv) => Success(VT.MapMissing(t, cs, mv, s.generic))
    case PositiveClass(ps, n, neg, d) => DC.PositiveClass(t, ps, n, neg, d, s.separator)
    case NegativeClass(ps, n) => DC.NegativeClass(t, ps, n)
  }

  /** The frame a bound transform returns, as a value. */
  function ApplySpec(t: Table, step: Transform, s: Settings): (r: Result<Table>)
    requires WellFormed(t)
    ensures r.Success? ==> WellFormed(r.value)
  {
    if Reshapes(step) then Success(ReshapeSpec(t, step))
    else if step.AggregateRepeatInstrumentByIndex? then RI.Aggregate(t, s.index, step.aggregator, step.dtype, s.generic)
    else RewriteSpec(t, step, s)
  }

  /** `apply_transform` as a value. */
  function ApplyTransformSpec(t: Table, c: Call, s: Settings): (r: Result<Table>)
    requires WellFormed(t)
    ensures r.Success? ==> WellFormed(r.value)
  {
    var step :- Bind(c.name, c.kwargs);
    ApplySpec(t, step, s)
  }

  /** A bound transform run on a frame: in-place transforms return the frame
      they were given, now changed; the others leave it alone and return a
      new frame. */
  method Apply(df: Frame, step: Transform, s: Settings) returns (r: Result<Frame>)
    requires WellFormed(df.Value())
    modifies df
    ensures var spec := ApplySpec(old(df.Value()), step, s);
      && (r.Success? <==> spec.Success?)
      && (r.Failure? ==> r.error == spec.error)
      && (r.Success? ==> r.value.Value() == spec.value)
      && (r.Success? && InPlace(step) ==> r.value == df)
      && (r.Success? && !InPlace(step) ==> fresh(r.value) && unchanged(df))
  {
    ghost var t := df.Value();
    if step.AppendColumnSuffix? {
      assert ApplySpec(t, step, s) == Success(CT.AppendColumnSuffix(t, step.columns, step.suffix, step.separator));
      var f := CT.AppendColumnSuffixInPlace(df, step.columns, step.suffix, step.separator);
      r := Success(f);
    } else if step.PrependColumnPrefix? {
      assert ApplySpec(t, step, s) == Success(CT.PrependColumnPrefix(t, step.columns, step.prefix, step.separator));
      var f := CT.PrependColumnPrefixInPlace(df, step.columns, step.prefix, step.separator);
      r := Success(f);
    } else if Reshapes(step) {
      assert !InPlace(step);
      assert ApplySpec(t, step, s) == Success(ReshapeSpec(t, step));
      r := Reshape(df, step);
    } else if step.AggregateRepeatInstrumentByIndex? {
      assert !InPlace(step);
      assert ApplySpec(t, step, s) == RI.Aggregate(t, s.index, step.aggregator, step.dtype, s.generic);
      r := RI.AggregateRepeatInstrumentByIndex(df, s.index, step.aggregator, step.dtype, s.generic);
    } else {
      assert InPlace(step);
      assert ApplySpec(t, step, s) == RewriteSpec(t, step, s);
      r := Rewrite(df, step, s);
    }
  }

  /** The copying reshapes (drop or keep columns, drop rows), each returning
      a new frame. */
  method Reshape(df: Frame, step: Transform) returns (r: Result<Frame>)
    requires WellFormed(df.Value()) && Reshapes(step) && !InPlace(step)
    ensures r.Success? && fresh(r.value) && r.value.Value() == ReshapeSpec(df.Value(), step)
  {
    var f := new Frame(ReshapeSpec(df.Value(), step));
    r := Success(f);
  }

  /** The in-place transforms, each writing into the frame it is given. */
  method Rewrite(df: Frame, step: Transform, s: Settings) returns (r: Result<Frame>)
    requires WellFormed(df.Value()) && !Reshapes(step) && !step.AggregateRepeatInstrumentByIndex?
    modifies df
    ensures var spec := RewriteSpec(old(df.Value()), step, s);
      && (r.Success? <==> spec.Success?)
      && (r.Failure? ==> r.error == spec.error)
      && (r.Success? ==> r.value == df && df.Value() == spec.value)
  {
    match step
    case RemapValuesByColumns(cs, m, a) =>
      r := VT.RemapValuesByColumns(df, cs, m, a, s.separator);
    case TransformValuesByColumn(c, n, fn, mv) =>
      r := VT.TransformValuesByColumn(df, c, n, fn, mv);
    case MapMissingValuesByColumns(cs, mv) =>
      var f := VT.MapMissingValuesByColumns(df, cs, mv, s.generic);
      r := Success(f);
    case PositiveClass(ps, n, neg, d) =>
      r := DC.PositiveClassInPlace(df, ps, n, neg, d, s.separator);
    case NegativeClass(ps, n) =>
      r := DC.NegativeClassInPlace(df, ps, n);
  }

  /** `apply_transform(df, name, kwargs)`: a call that does not bind leaves
      the frame alone. */
  method ApplyTransform(df: Frame, c: Call, s: Settings) returns (r: Result<Frame>)
    requires WellFormed(df.Value())
    modifies df
    ensures var spec := ApplyTransformSpec(old(df.Value()), c, s);
      && (r.Success? <==> spec.Success?)
      && (r.Failure? ==> r.error == spec.error)
      && (r.Success? ==> r.value.Value() == spec.value)
      && (r.Success? && InPlace(Bind(c.name, c.kwargs).value) ==> r.value == df)
      && (r.Success? && !InPlace(Bind(c.name, c.kwargs).value) ==> fresh(r.value) && unchanged(df))
  {
    var step := Bind(c.name, c.kwargs);
    if step.Failure? {
      return Failure(step.error);
    }
    r := Apply(df, step.value, s);
  }

  // ---------------------------------------------------------------------
  // What binding guarantees
  // ---------------------------------------------------------------------

  /** Every transform is found under its own name, and no two transforms
      share one. */
  lemma OpNamedRoundTrip(op: Op)
    ensures OpNamed(OpName(op)) == Some(op)
  {
    match op
    case DropColumnsOp =>
    case KeepColumnsOp =>
    case SuffixOp =>
    case PrefixOp =>
    case RemapOp =>
    case TransformValuesOp =>
    case MapMissingOp =>
    case DropRowsOp =>
    case AggregateOp =>
    case PositiveOp =>
    case NegativeOp =>
      // The two class names differ first at position 31.
      assert OpName(op)[31] == 'n' && OpName(PositiveOp)[31] == 'p';
  }

  /** A name selects a transform exactly when it is some transform's name. */
  lemma OpNamedExactly(name: string)
    ensures OpNamed(name).None? <==> forall op: Op :: OpName(op) != name
  {
    if OpNamed(name).None? {
      forall op: Op ensures OpName(op) != name {
        OpNamedRoundTrip(op);
      }
    }
  }

  /** Keywords that are all parameters and name every required one bind as
      the method reads them. */
  lemma BindAccepted(op: Op, kw: map<string, Value>)
    requires forall k | k in kw :: k in SignatureOf(op).params
    requires forall p | p in SignatureOf(op).required :: p in kw
    ensures Bind(OpName(op), kw) == Build(op, kw)
  {
    OpNamedRoundTrip(op);
  }

  /** Calling a bound transform's name with the keywords that name its
      arguments binds that same transform. */
  lemma BindEncode(step: Transform)
    ensures Bind(OpName(OpOf(step)), Encode(step)) == Success(step)
  {
    if Reshapes(step) {
      EncodeReshape(step);
    } else {
      match step
      case RemapValuesByColumns(_, _, _) => EncodeRemap(step);
      case TransformValuesByColumn(_, _, _, _) => EncodeTransformValues(step);
      case MapMissingValuesByColumns(_, _) => EncodeMapMissing(step);
      case AggregateRepeatInstrumentByIndex(_, _) => EncodeAggregate(step);
      case PositiveClass(_, _, _, _) => EncodePositive(step);
      case NegativeClass(_, _) => EncodeNegative(step);
    }
    BindAccepted(OpOf(step), Encode(step));
  }

  lemma EncodeReshape(step: Transform)
    requires Reshapes(step)
    ensures var kw := Encode(step);
      && (forall k | k in kw :: k in SignatureOf(OpOf(step)).params)
      && (forall p | p in SignatureOf(OpOf(step)).required :: p in kw)
      && Build(OpOf(step), kw) == Success(step)
  {
    var kw := Encode(step);
    match step
    case DropColumns(cs) =>
      assert kw.Keys == {"columns"};
      assert TextsArg(kw, "columns", []) == Success(cs);
    case KeepColumns(cs) =>
      assert kw.Keys == {"columns"};
      assert TextsArg(kw, "columns", []) == Success(cs);
    case AppendColumnSuffix(cs, suffix, sep) =>
      assert kw.Keys == {"columns", "suffix", "separator"};
      assert TextsArg(kw, "columns", []) == Success(cs);
      assert TextArg(kw, "suffix", "") == Success(suffix);
      assert TextArg(kw, "separator", "") == Success(sep);
    case PrependColumnPrefix(cs, prefix, sep) =>
      assert kw.Keys == {"columns", "prefix", "separator"};
      assert TextsArg(kw, "columns", []) == Success(cs);
      assert TextArg(kw, "prefix", "") == Success(prefix);
      assert TextArg(kw, "separator", "") == Success(sep);
    case DropRows(cs, p) =>
      assert kw.Keys == {"columns", "condition"};
      assert TextsArg(kw, "columns", []) == Success(cs);
      assert ConditionArg(kw, "condition", RT.IsEmptyCell) == Success(p);
  }

  lemma EncodeRemap(step: Transform)
    requires step.RemapValuesByColumns?
    ensures var kw := Encode(step);
      && (forall k | k in kw :: k in SignatureOf(OpOf(step)).params)
      && (forall p | p in SignatureOf(OpOf(step)).required :: p in kw)
      && Build(OpOf(step), kw) == Success(step)
  {
    var kw := Encode(step);
    assert kw.Keys == {"columns", "value_map", "annotation"};
    assert TextsArg(kw, "columns", []) == Success(step.columns);
    assert ValueMapArg(kw, "value_map") == Success(step.valueMap);
    assert AnnotationArg(kw, "annotation") == Success(step.annotation);
  }

  lemma EncodeTransformValues(step: Transform)
    requires step.TransformValuesByColumn?
    ensures var kw := Encode(step);
      && (forall k | k in kw :: k in SignatureOf(OpOf(step)).params)
      && (forall p | p in SignatureOf(OpOf(step)).required :: p in kw)
      && Build(OpOf(step), kw) == Success(step)
  {
    var kw := Encode(step);
    assert kw.Keys == {"column", "new_column_name", "transform", "missing_value"};
    assert TextArg(kw, "column", "") == Success(step.column);
    assert TextArg(kw, "new_column_name", "") == Success(step.newColumnName);
    assert CallableArg(kw, "transform", NoCell) == Success(step.transform);
    assert TextArg(kw, "missing_value", "") == Success(step.missingValue);
  }

  lemma EncodeMapMissing(step: Transform)
    requires step.MapMissingValuesByColumns?
    ensures var kw := Encode(step);
      && (forall k | k in kw :: k in SignatureOf(OpOf(step)).params)
      && (forall p | p in SignatureOf(OpOf(step)).required :: p in kw)
      && Build(OpOf(step), kw) == Success(step)
  {
    var kw := Encode(step);
    assert kw.Keys == {"columns", "missing_value"};
    assert TextsArg(kw, "columns", []) == Success(step.columns);
    assert OptionalTextArg(kw, "missing_value", None) == Success(step.replacement);
  }

  lemma EncodeAggregate(step: Transform)
    requires step.AggregateRepeatInstrumentByIndex?
    ensures var kw := Encode(step);
      && (forall k | k in kw :: k in SignatureOf(OpOf(step)).params)
      && (forall p | p in SignatureOf(OpOf(step)).required :: p in kw)
      && Build(OpOf(step), kw) == Success(step)
  {
    var kw := Encode(step);
    assert kw.Keys == {"aggregator", "dtype"};
    assert TextArg(kw, "aggregator", "max") == Success(step.aggregator);
    assert CallableArg(kw, "dtype", RI.FloatCast) == Success(step.dtype);
  }

  lemma EncodePositive(step: Transform)
    requires step.PositiveClass?
    ensures var kw := Encode(step);
      && (forall k | k in kw :: k in SignatureOf(OpOf(step)).params)
      && (forall p | p in SignatureOf(OpOf(step)).required :: p in kw)
      && Build(OpOf(step), kw) == Success(step)
  {
    var kw := Encode(step);
    assert kw.Keys == {"column_name_map", "new_column_name", "all_negative_value", "default_value"};
    assert PairsArg(kw, "column_name_map") == Success(step.pairs);
    assert TextArg(kw, "new_column_name", "") == Success(step.newColumnName);
    assert TextArg(kw, "all_negative_value", "") == Success(step.allNegative);
    assert OptionalTextArg(kw, "default_value", Some("Value Unavailable")) == Success(step.default);
  }

  lemma EncodeNegative(step: Transform)
    requires step.NegativeClass?
    ensures var kw := Encode(step);
      && (forall k | k in kw :: k in SignatureOf(OpOf(step)).params)
      && (forall p | p in SignatureOf(OpOf(step)).required :: p in kw)
      && Build(OpOf(step), kw) == Success(step)
  {
    var kw := Encode(step);
    assert kw.Keys == {"column_name_map", "new_column_name"};
    assert PairsArg(kw, "column_name_map") == Success(step.pairs);
    assert TextArg(kw, "new_column_name", "") == Success(step.newColumnName);
  }

  /** The negative-class method has no `annotation` parameter: any call that
      passes one fails with TypeError. */
  lemma NegativeClassRejectsAnnotation(kw: map<string, Value>)
    requires "annotation" in kw
    ensures Bind(OpName(NegativeOp), kw).Failure? && Bind(OpName(NegativeOp), kw).error.TypeError?
  {
    OpNamedRoundTrip(NegativeOp);
    assert "annotation" !in SignatureOf(NegativeOp).params;
  }

  /** Every other transform accepts an `annotation` keyword, and only the
      remap reads it: adding one changes nothing else. */
  lemma AnnotationIgnored(op: Op, kw: map<string, Value>, a: Value)
    requires op != NegativeOp && op != RemapOp
    ensures Bind(OpName(op), kw["annotation" := a]) == Bind(OpName(op), kw)
  {
    var kw' := kw["annotation" := a];
    var sig := SignatureOf(op);
    BindNamed(op, kw);
    BindNamed(op, kw');
    AnnotationParameter(op);
    assert (exists k | k in kw' :: k !in sig.params) <==> (exists k | k in kw :: k !in sig.params) by {
      if k :| k in kw' && k !in sig.params {
        assert k in kw;
      }
    }
    assert (exists p | p in sig.required :: p !in kw') <==> (exists p | p in sig.required :: p !in kw);
    BuildIgnoresAnnotation(op, kw, a);
  }

  /** Binding a transform's own name checks the keywords against its
      signature, then reads them. */
  lemma BindNamed(op: Op, kw: map<string, Value>)
    ensures var sig := SignatureOf(op);
      Bind(OpName(op), kw) ==
        if exists k | k in kw :: k !in sig.params then Failure(TypeError("unexpected keyword argument"))
        else if exists p | p in sig.required :: p !in kw then Failure(TypeError("missing required argument"))
        else Build(op, kw)
  {
    OpNamedRoundTrip(op);
  }

  /** `annotation` is never a required parameter, and every transform but
      the negative class takes it. */
  lemma AnnotationParameter(op: Op)
    ensures "annotation" !in SignatureOf(op).required
    ensures op != NegativeOp ==> "annotation" in SignatureOf(op).params
  {
    match op
    case DropColumnsOp =>
    case KeepColumnsOp =>
    case SuffixOp =>
    case PrefixOp =>
    case RemapOp =>
    case TransformValuesOp =>
    case MapMissingOp =>
    case DropRowsOp =>
    case AggregateOp =>
    case PositiveOp =>
    case NegativeOp =>
      // The two class names differ first at position 31.
      assert OpName(op)[31] == 'n' && OpName(PositiveOp)[31] == 'p';
  }

  /** Two keyword maps that agree on `key` read the same argument there,
      whatever its kind. */
  lemma SameArgument(kw: map<string, Value>, kw': map<string, Value>, key: string)
    requires (key in kw <==> key in kw') && (key in kw ==> kw[key] == kw'[key])
    ensures forall d :: TextsArg(kw, key, d) == TextsArg(kw', key, d)
    ensures forall d :: TextArg(kw, key, d) == TextArg(kw', key, d)
    ensures forall d :: OptionalTextArg(kw, key, d) == OptionalTextArg(kw', key, d)
    ensures PairsArg(kw, key) == PairsArg(kw', key)
    ensures forall d :: CallableArg(kw, key, d) == CallableArg(kw', key, d)
    ensures forall d :: ConditionArg(kw, key, d) == ConditionArg(kw', key, d)
  {
  }

  /** Only the remap reads the `annotation` argument. */
  lemma BuildIgnoresAnnotation(op: Op, kw: map<string, Value>, a: Value)
    requires op != RemapOp
    ensures Build(op, kw["annotation" := a]) == Build(op, kw)
  {
    var kw' := kw["annotation" := a];
    forall key | key != "annotation"
      ensures (key in kw <==> key in kw') && (key in kw ==> kw[key] == kw'[key])
    {
    }
    if op in {DropColumnsOp, KeepColumnsOp, SuffixOp, PrefixOp, DropRowsOp, MapMissingOp} {
      ColumnBuildsIgnoreAnnotation(op, kw, kw');
    } else if op in {TransformValuesOp, AggregateOp} {
      CellBuildsIgnoreAnnotation(op, kw, kw');
    } else {
      ClassBuildsIgnoreAnnotation(op, kw, kw');
    }
  }

  /** The transforms that take a `columns` list. */
  lemma ColumnBuildsIgnoreAnnotation(op: Op, kw: map<string, Value>, kw': map<string, Value>)
    requires op in {DropColumnsOp, KeepColumnsOp, SuffixOp, PrefixOp, DropRowsOp, MapMissingOp}
    requires forall key | key != "annotation" :: (key in kw <==> key in kw') && (key in kw ==> kw[key] == kw'[key])
    ensures Build(op, kw') == Build(op, kw)
  {
    SameArgument(kw, kw', "columns");
    match op
    case DropColumnsOp =>
    case KeepColumnsOp =>
    case SuffixOp =>
      SameArgument(kw, kw', "suffix");
      SameArgument(kw, kw', "separator");
    case PrefixOp =>
      SameArgument(kw, kw', "prefix");
      SameArgument(kw, kw', "separator");
    case DropRowsOp =>
      SameArgument(kw, kw', "condition");
    case MapMissingOp =>
      SameArgument(kw, kw', "missing_value");
  }

  /** The single-column rewrite and the aggregation. */
  lemma CellBuildsIgnoreAnnotation(op: Op, kw: map<string, Value>, kw': map<string, Value>)
    requires op in {TransformValuesOp, AggregateOp}
    requires forall key | key != "annotation" :: (key in kw <==> key in kw') && (key in kw ==> kw[key] == kw'[key])
    ensures Build(op, kw') == Build(op, kw)
  {
    match op
    case TransformValuesOp =>
      SameArgument(kw, kw', "column");
      SameArgument(kw, kw', "new_column_name");
      SameArgument(kw, kw', "transform");
      SameArgument(kw, kw', "missing_value");
    case AggregateOp =>
      SameArgument(kw, kw', "aggregator");
      SameArgument(kw, kw', "dtype");
  }

  /** The two binary-column classifiers. */
  lemma ClassBuildsIgnoreAnnotation(op: Op, kw: map<string, Value>, kw': map<string, Value>)
    requires op in {PositiveOp, NegativeOp}
    requires forall key | key != "annotation" :: (key in kw <==> key in kw') && (key in kw ==> kw[key] == kw'[key])
    ensures Build(op, kw') == Build(op, kw)
  {
    SameArgument(kw, kw', "column_name_map");
    SameArgument(kw, kw', "new_column_name");
    if op == PositiveOp {
      SameArgument(kw, kw', "all_negative_value");
      SameArgument(kw, kw', "default_value");
    }
  }

  /** The transforms whose every parameter has a default. */
  predicate TakesDefaults(op: Op) {
    op in {DropColumnsOp, KeepColumnsOp, SuffixOp, PrefixOp, DropRowsOp}
  }

  /** Called with no arguments, these transforms leave the frame as it is:
      each column list defaults to empty, which selects nothing. */
  lemma DefaultCallIsNoOp(t: Table, op: Op, s: Settings)
    requires WellFormed(t) && TakesDefaults(op)
    ensures ApplyTransformSpec(t, Call(OpName(op), map[]), s) == Success(t)
  {
    var c := Call(OpName(op), map[]);
    match op
    case DropColumnsOp =>
      BindAccepted(op, map[]);
      assert Build(op, map[]) == Success(DropColumns([]));
      assert ApplyTransformSpec(t, c, s) == Success(CT.DropColumns(t, []));
      RestrictAll(t, set c | c in t.columns && c !in []);
    case KeepColumnsOp =>
      BindAccepted(op, map[]);
      assert Build(op, map[]) == Success(KeepColumns([]));
      assert ApplyTransformSpec(t, c, s) == Success(CT.KeepColumns(t, []));
    case SuffixOp =>
      BindAccepted(op, map[]);
      assert Build(op, map[]) == Success(AppendColumnSuffix([], "", ""));
      assert ApplyTransformSpec(t, c, s) == Success(CT.AppendColumnSuffix(t, [], "", ""));
      CT.AppendNoSuffix(t, []);
    case PrefixOp =>
      BindAccepted(op, map[]);
      assert Build(op, map[]) == Success(PrependColumnPrefix([], "", ""));
      assert ApplyTransformSpec(t, c, s) == Success(CT.PrependColumnPrefix(t, [], "", ""));
      CT.PrependNoPrefix(t, []);
    case DropRowsOp =>
      BindAccepted(op, map[]);
      assert Build(op, map[]) == Success(DropRows([], RT.IsEmptyCell));
      assert ApplyTransformSpec(t, c, s) == Success(RT.DropRows(t, [], RT.IsEmptyCell));
      RT.DropRowsNothingResolved(t, [], RT.IsEmptyCell);
  }

}
