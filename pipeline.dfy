/** The engine's constructor and getters: reading the configuration, fetching
    and annotating every report, running each report's transform list,
    merging the transformed reports and running the post-merge transforms. */
module Pipeline {
  import opened Results
  import opened Seqs
  import opened Tables
  import opened Annotations
  import opened Interpreter
  import Merging

  // ---------------------------------------------------------------------
  // Configuration
  // ---------------------------------------------------------------------

  /** One entry of `reports`: the report key, the export arguments and the
      transforms to run on the exported table. */
  datatype ReportConfig = ReportConfig(key: string, kwdargs: map<string, Value>, transforms: seq<Call>)

  /** One merge step: the report to join and the join arguments. */
  datatype MergeStep = MergeStep(key: string, spec: Merging.JoinSpec)

  /** `post_transform_merge`: the receiving report's index columns and the steps. */
  datatype MergePlan = MergePlan(index: seq<string>, steps: seq<MergeStep>)

  /** The configuration dictionary; an absent key is `None`. */
  datatype Config = Config(
    apiUrl: Option<string>,
    apiKey: Option<string>,
    indexColumns: Option<seq<string>>,
    reports: Option<seq<ReportConfig>>,
    postTransformMerge: Option<MergePlan>,
    postMergeTransforms: Option<seq<Call>>,
    multivalueSeparator: Option<string>,
    csvFloatFormat: Option<string>,
    missingValueGeneric: Option<string>)

  /** The configuration with every default filled in. */
  datatype Options = Options(
    apiUrl: string,
    apiKey: string,
    indexColumns: seq<string>,
    reports: seq<ReportConfig>,
    merge: MergePlan,
    postMerge: seq<Call>,
    separator: string,
    floatFormat: string,
    generic: string)

  const DefaultIndexColumns: seq<string> := ["record_id"]
  const DefaultSeparator: string := "|"
  const DefaultFloatFormat: string := "%.2f"
  const DefaultGeneric: string := "Value Unavailable"

  /** Reading the configuration: the two API settings are required, every
      other key falls back to its default. */
  function ReadConfig(c: Config): (r: Result<Options>)
    ensures r.Failure? <==> c.apiUrl.None? || c.apiKey.None?
    ensures c.apiUrl.None? ==> r == Failure(KeyError("redcap_api_url"))
    ensures c.apiUrl.Some? && c.apiKey.None? ==> r == Failure(KeyError("redcap_api_key"))
  {
    if c.apiUrl.None? then Failure(KeyError("redcap_api_url"))
    else if c.apiKey.None? then Failure(KeyError("redcap_api_key"))
    else
      Success(Options(
        c.apiUrl.value,
        c.apiKey.value,
        c.indexColumns.GetOr(DefaultIndexColumns),
        c.reports.GetOr([]),
        c.postTransformMerge.GetOr(MergePlan([], [])),
        c.postMergeTransforms.GetOr([]),
        c.multivalueSeparator.GetOr(DefaultSeparator),
        c.csvFloatFormat.GetOr(DefaultFloatFormat),
        c.missingValueGeneric.GetOr(DefaultGeneric)))
  }

  /** A configuration naming only the API gets the documented defaults. */
  lemma ReadConfigDefaults(url: string, key: string)
    ensures ReadConfig(Config(Some(url), Some(key), None, None, None, None, None, None, None))
      == Success(Options(url, key, ["record_id"], [], MergePlan([], []), [], "|", "%.2f", "Value Unavailable"))
  {
  }

  /** A key that is present is taken as given. */
  lemma ReadConfigKeepsGiven(c: Config)
    requires c.apiUrl.Some? && c.apiKey.Some?
    ensures var o := ReadConfig(c).value;
      && (c.indexColumns.Some? ==> o.indexColumns == c.indexColumns.value)
      && (c.reports.Some? ==> o.reports == c.reports.value)
      && (c.postTransformMerge.Some? ==> o.merge == c.postTransformMerge.value)
      && (c.postMergeTransforms.Some? ==> o.postMerge == c.postMergeTransforms.value)
      && (c.multivalueSeparator.Some? ==> o.separator == c.multivalueSeparator.value)
      && (c.csvFloatFormat.Some? ==> o.floatFormat == c.csvFloatFormat.value)
      && (c.missingValueGeneric.Some? ==> o.generic == c.missingValueGeneric.value)
  {
  }

  /** The settings the transforms read. */
  function SettingsOf(o: Options): Settings {
    Settings(o.indexColumns, o.separator, o.generic)
  }

  // ---------------------------------------------------------------------
  // Report setup
  // ---------------------------------------------------------------------

  /** The export options the engine always passes. */
  const FixedExportOptions: map<string, Value> := map[
    "raw_or_label" := Text("raw"),
    "raw_or_label_headers" := Text("raw"),
    "export_checkbox_labels" := Flag(false),
    "csv_delimiter" := Text("")]

  /** `kwdargs | defaults`: the fixed options are the right operand, so they
      override a user option of the same name. */
  function ExportOptions(kwdargs: map<string, Value>): (r: map<string, Value>)
    ensures r.Keys == kwdargs.Keys + FixedExportOptions.Keys
    ensures forall k | k in FixedExportOptions :: r[k] == FixedExportOptions[k]
    ensures forall k | k in kwdargs && k !in FixedExportOptions :: r[k] == kwdargs[k]
  {
    kwdargs + FixedExportOptions
  }

  /** One stored report: its id, the exported table, its transform list and
      its annotation. */
  datatype Entry = Entry(id: Value, raw: Table, transforms: seq<Call>, annotation: seq<Annotation>)

  /** Setting up one report: export it with the merged options, read its
      `report_id`, and annotate the exported columns from the schema. */
  function SetupReport(c: ReportConfig, fetch: map<string, Value> -> Table, schema: seq<FieldDef>, generic: string): (r: Result<Entry>)
    ensures var opts := ExportOptions(c.kwdargs);
      && (r.Success? <==> "report_id" in c.kwdargs && TypeMetadata(schema, fetch(opts).columns, generic).Success?)
      && ("report_id" !in c.kwdargs ==> r == Failure(KeyError("report_id")))
      && (r.Success? ==> r.value == Entry(c.kwdargs["report_id"], fetch(opts), c.transforms,
                                          TypeMetadata(schema, fetch(opts).columns, generic).value))
  {
    var opts := ExportOptions(c.kwdargs);
    var raw := fetch(opts);
    if "report_id" !in opts then Failure(KeyError("report_id"))
    else
      var annotation :- TypeMetadata(schema, raw.columns, generic);
      Success(Entry(opts["report_id"], raw, c.transforms, annotation))
  }

  /** The setup loop as a value: the stored reports by key, and the keys in
      first-insertion order (a later report with the same key replaces the
      stored one but keeps its place). */
  function SetupReports(configs: seq<ReportConfig>, fetch: map<string, Value> -> Table, schema: seq<FieldDef>, generic: string): (r: Result<(map<string, Entry>, seq<string>)>)
    requires forall o :: WellFormed(fetch(o))
    ensures r.Success? ==> Distinct(r.value.1)
    ensures r.Success? ==> forall k :: k in r.value.1 <==> k in r.value.0
    ensures r.Success? ==> forall k | k in r.value.0 :: WellFormed(r.value.0[k].raw)
    ensures r.Success? ==> forall i | 0 <= i < |configs| :: configs[i].key in r.value.0
    decreases |configs|
  {
    if |configs| == 0 then Success((map[], []))
    else
      var n := |configs| - 1;
      var prev :- SetupReports(configs[..n], fetch, schema, generic);
      var r := AddReport(prev.0, prev.1, configs[n], fetch, schema, generic);
      if r.Success? then
        AddReportCovers(configs, configs[..n], prev, fetch, schema, generic);
        r
      else r
  }

  /** The configurations stored so far, and the one just added, are all
      stored after adding it. */
  lemma AddReportCovers(configs: seq<ReportConfig>, init: seq<ReportConfig>, prev: (map<string, Entry>, seq<string>),
                        fetch: map<string, Value> -> Table, schema: seq<FieldDef>, generic: string)
    requires forall o :: WellFormed(fetch(o))
    requires |configs| > 0 && Distinct(prev.1) && forall k :: k in prev.1 <==> k in prev.0
    requires forall k | k in prev.0 :: WellFormed(prev.0[k].raw)
    requires init == configs[..|configs| - 1] && forall i | 0 <= i < |init| :: init[i].key in prev.0
    requires AddReport(prev.0, prev.1, configs[|configs| - 1], fetch, schema, generic).Success?
    ensures forall i | 0 <= i < |configs| ::
      configs[i].key in AddReport(prev.0, prev.1, configs[|configs| - 1], fetch, schema, generic).value.0
  {
    var n := |configs| - 1;
    forall i | 0 <= i < n ensures configs[i].key in prev.0 {
      assert init[i] == configs[i];
    }
  }

  /** One pass of the setup loop: the report is stored under its key, and the
      key is appended to the order when it is new. */
  function AddReport(reports: map<string, Entry>, order: seq<string>, c: ReportConfig,
                     fetch: map<string, Value> -> Table, schema: seq<FieldDef>, generic: string): (r: Result<(map<string, Entry>, seq<string>)>)
    requires forall o :: WellFormed(fetch(o))
    requires Distinct(order) && forall k :: k in order <==> k in reports
    requires forall k | k in reports :: WellFormed(reports[k].raw)
    ensures r.Success? <==> SetupReport(c, fetch, schema, generic).Success?
    ensures r.Failure? ==> r.error == SetupReport(c, fetch, schema, generic).error
    ensures r.Success? ==> r.value.0 == reports[c.key := SetupReport(c, fetch, schema, generic).value]
    ensures r.Success? ==> r.value.0.Keys == reports.Keys + {c.key}
    ensures r.Success? ==> Distinct(r.value.1) && forall k :: k in r.value.1 <==> k in r.value.0
    ensures r.Success? ==> forall k | k in r.value.0 :: WellFormed(r.value.0[k].raw)
  {
    var e :- SetupReport(c, fetch, schema, generic);
    Success((reports[c.key := e], if c.key in reports then order else order + [c.key]))
  }

  /** A key's stored report comes from the last configuration with that key. */
  lemma {:induction false} SetupLastWins(configs: seq<ReportConfig>, fetch: map<string, Value> -> Table, schema: seq<FieldDef>, generic: string, j: nat)
    requires forall o :: WellFormed(fetch(o))
    requires SetupReports(configs, fetch, schema, generic).Success?
    requires j < |configs| && forall i | j < i < |configs| :: configs[i].key != configs[j].key
    ensures SetupReport(configs[j], fetch, schema, generic).Success?
    ensures SetupReports(configs, fetch, schema, generic).value.0[configs[j].key]
      == SetupReport(configs[j], fetch, schema, generic).value
    decreases |configs|
  {
    var n := |configs| - 1;
    var prev := SetupReports(configs[..n], fetch, schema, generic);
    assert prev.Success?;
    if j < n {
      var init := configs[..n];
      assert init[j] == configs[j];
      assert forall i | j < i < n :: init[i] == configs[i];
      SetupLastWins(init, fetch, schema, generic, j);
      assert configs[n].key != configs[j].key;
    }
  }

  /** Once a prefix of the configurations fails, every longer prefix fails
      the same way. */
  lemma {:induction false} SetupFailurePersists(configs: seq<ReportConfig>, fetch: map<string, Value> -> Table, schema: seq<FieldDef>, generic: string,
                                                k: nat, i: nat)
    requires forall o :: WellFormed(fetch(o))
    requires k <= i <= |configs| && SetupReports(configs[..k], fetch, schema, generic).Failure?
    ensures SetupReports(configs[..i], fetch, schema, generic) == SetupReports(configs[..k], fetch, schema, generic)
    decreases i
  {
    if k < i {
      SetupFailurePersists(configs, fetch, schema, generic, k, i - 1);
      var prefix := configs[..i];
      assert prefix[..i - 1] == configs[..i - 1];
    }
  }

  // ---------------------------------------------------------------------
  // Running a transform list
  // ---------------------------------------------------------------------

  /** After a transform list: the transformed table, the raw table (which
      in-place steps also change while the two are one object), and whether
      they still are one object. */
  datatype Outcome = Outcome(transformed: Table, raw: Table, shared: bool)

  /** The keyword added to every call of a report's transform list. */
  function AnnotationArgs(a: seq<Annotation>): map<string, Value> {
    map["annotation" := AnnotationList(a)]
  }

  /** `kwargs | extra`. */
  function WithArgs(c: Call, extra: map<string, Value>): Call {
    Call(c.name, c.kwargs + extra)
  }

  /** What the report loop needs to know of one transform call: the table it
      yields from a table, and whether it writes into the frame it is given
      rather than returning a new one. */
  datatype Semantics = Semantics(run: (Table, Call) -> Result<Table>, inPlace: Call -> bool)

  /** The transform interpreter with one engine's settings. A ragged table
      never reaches it: every exported table is well formed and every
      transform keeps it so. */
  ghost function Interp(s: Settings): Semantics {
    Semantics(
      (t: Table, c: Call) => if WellFormed(t) then ApplyTransformSpec(t, c, s) else Failure(ValueError("ragged table")),
      (c: Call) => Bind(c.name, c.kwargs).Success? && InPlace(Bind(c.name, c.kwargs).value))
  }

  /** Calls keep tables well formed. */
  ghost predicate Closed(sem: Semantics) {
    forall t: Table, c: Call | WellFormed(t) && sem.run(t, c).Success? :: WellFormed(sem.run(t, c).value)
  }

  /** The interpreter keeps tables well formed. */
  lemma InterpClosed(s: Settings)
    ensures Closed(Interp(s))
  {
    forall t: Table, c: Call | WellFormed(t) && Interp(s).run(t, c).Success?
      ensures WellFormed(Interp(s).run(t, c).value)
    {
      assert Interp(s).run(t, c) == ApplyTransformSpec(t, c, s);
    }
  }

  /** The call, with the extra keywords, writes into its frame. */
  predicate StepInPlace(sem: Semantics, c: Call, extra: map<string, Value>) {
    sem.inPlace(WithArgs(c, extra))
  }

  /** Every call of the list writes into its frame. */
  predicate AllInPlace(sem: Semantics, calls: seq<Call>, extra: map<string, Value>)
    decreases |calls|
  {
    |calls| == 0 || (AllInPlace(sem, calls[..|calls| - 1], extra) && StepInPlace(sem, calls[|calls| - 1], extra))
  }

  /** One call run on the transformed table: an in-place step also changes
      the raw table while the two are one object; a copying step separates
      them. */
  function Extend(sem: Semantics, prev: Outcome, c: Call, extra: map<string, Value>): (r: Result<Outcome>)
    ensures var spec := sem.run(prev.transformed, WithArgs(c, extra));
      && (r.Success? <==> spec.Success?)
      && (r.Failure? ==> r.error == spec.error)
      && (r.Success? ==> r.value.transformed == spec.value)
    ensures r.Success? ==> r.value.shared == (prev.shared && StepInPlace(sem, c, extra))
    ensures r.Success? ==> r.value.raw == (if r.value.shared then r.value.transformed else prev.raw)
  {
    var t :- sem.run(prev.transformed, WithArgs(c, extra));
    var shared := prev.shared && StepInPlace(sem, c, extra);
    Success(Outcome(t, if shared then t else prev.raw, shared))
  }

  /** The transform list folded over the raw table: the transformed table
      starts as the raw table itself. */
  function Fold(sem: Semantics, raw: Table, calls: seq<Call>, extra: map<string, Value>): (r: Result<Outcome>)
    decreases |calls|
  {
    if |calls| == 0 then Success(Outcome(raw, raw, true))
    else
      var n := |calls| - 1;
      var prev :- Fold(sem, raw, calls[..n], extra);
      Extend(sem, prev, calls[n], extra)
  }

  /** An empty list leaves the transformed table equal to the raw one. */
  lemma FoldEmpty(sem: Semantics, raw: Table, extra: map<string, Value>)
    ensures Fold(sem, raw, [], extra) == Success(Outcome(raw, raw, true))
  {
  }

  /** Calls that keep tables well formed keep both tables of the outcome
      well formed. */
  lemma {:induction false} FoldWellFormed(sem: Semantics, raw: Table, calls: seq<Call>, extra: map<string, Value>)
    requires Closed(sem) && WellFormed(raw) && Fold(sem, raw, calls, extra).Success?
    ensures WellFormed(Fold(sem, raw, calls, extra).value.transformed)
    ensures WellFormed(Fold(sem, raw, calls, extra).value.raw)
    decreases |calls|
  {
    if |calls| > 0 {
      var n := |calls| - 1;
      FoldWellFormed(sem, raw, calls[..n], extra);
    }
  }

  /** The raw and transformed tables stay one object exactly while every step
      has been in place, and while they are one object they are equal. */
  lemma {:induction false} FoldAliasing(sem: Semantics, raw: Table, calls: seq<Call>, extra: map<string, Value>)
    requires Fold(sem, raw, calls, extra).Success?
    ensures var o := Fold(sem, raw, calls, extra).value;
      && (o.shared ==> o.transformed == o.raw)
      && (o.shared <==> AllInPlace(sem, calls, extra))
    decreases |calls|
  {
    if |calls| > 0 {
      var n := |calls| - 1;
      FoldAliasing(sem, raw, calls[..n], extra);
    }
  }

  /** When the first step copies, the exported table is never touched. */
  lemma {:induction false} FoldKeepsRawAfterCopy(sem: Semantics, raw: Table, calls: seq<Call>, extra: map<string, Value>)
    requires Fold(sem, raw, calls, extra).Success? && |calls| > 0
    requires !StepInPlace(sem, calls[0], extra)
    ensures Fold(sem, raw, calls, extra).value.raw == raw
    ensures !Fold(sem, raw, calls, extra).value.shared
    decreases |calls|
  {
    var n := |calls| - 1;
    if n > 0 {
      assert calls[..n][0] == calls[0];
      FoldKeepsRawAfterCopy(sem, raw, calls[..n], extra);
    }
  }

  /** Once a prefix of the list fails, every longer prefix fails the same
      way. */
  lemma {:induction false} FoldFailurePersists(sem: Semantics, raw: Table, calls: seq<Call>, extra: map<string, Value>, k: nat, i: nat)
    requires k <= i <= |calls| && Fold(sem, raw, calls[..k], extra).Failure?
    ensures Fold(sem, raw, calls[..i], extra) == Fold(sem, raw, calls[..k], extra)
    decreases i
  {
    if k < i {
      FoldFailurePersists(sem, raw, calls, extra, k, i - 1);
      var prefix := calls[..i];
      assert prefix[..i - 1] == calls[..i - 1];
    }
  }

  /** A report's transform list that calls the negative-class transform
      always fails: the annotation keyword added to every call is not one of
      its parameters. */
  lemma NegativeClassFailsInReport(raw: Table, calls: seq<Call>, a: seq<Annotation>, s: Settings, j: nat)
    requires j < |calls| && calls[j].name == OpName(NegativeOp)
    ensures Fold(Interp(s), raw, calls, AnnotationArgs(a)).Failure?
  {
    var extra := AnnotationArgs(a);
    var sem := Interp(s);
    var prefix := calls[..j + 1];
    assert prefix[..j] == calls[..j];
    var c := WithArgs(calls[j], extra);
    NegativeClassRejectsAnnotation(c.kwargs);
    var prev := Fold(sem, raw, calls[..j], extra);
    if prev.Success? {
      assert sem.run(prev.value.transformed, c).Failure?;
    }
    assert Fold(sem, raw, prefix, extra).Failure?;
    FoldFailurePersists(sem, raw, calls, extra, j + 1, |calls|);
    assert calls[..|calls|] == calls;
  }

  /** A report's transform list with its annotation keyword. */
  function RunReport(sem: Semantics, e: Entry): Result<Outcome> {
    Fold(sem, e.raw, e.transforms, AnnotationArgs(e.annotation))
  }

  /** Every report's transform list, in report order, stopping at the first
      failure. */
  function TransformReports(sem: Semantics, entries: map<string, Entry>, order: seq<string>): (r: Result<map<string, Outcome>>)
    requires forall k | k in order :: k in entries
    ensures r.Success? ==> r.value.Keys == set k | k in order
    decreases |order|
  {
    if |order| == 0 then Success(map[])
    else
      var n := |order| - 1;
      var prev :- TransformReports(sem, entries, order[..n]);
      var k := order[n];
      var o :- RunReport(sem, entries[k]);
      assert forall key | key in order :: key in order[..n] || key == k by {
        assert order == order[..n] + [k];
      }
      Success(prev[k := o])
  }

  /** Each report's outcome is its own transform list run on its own table. */
  lemma {:induction false} TransformReportsOutcomes(sem: Semantics, entries: map<string, Entry>, order: seq<string>)
    requires forall k | k in order :: k in entries
    requires TransformReports(sem, entries, order).Success?
    ensures forall k | k in order :: RunReport(sem, entries[k]) == Success(TransformReports(sem, entries, order).value[k])
    decreases |order|
  {
    if |order| > 0 {
      var n := |order| - 1;
      TransformReportsOutcomes(sem, entries, order[..n]);
      assert forall key | key in order :: key in order[..n] || key == order[n] by {
        assert order == order[..n] + [order[n]];
      }
    }
  }

  /** With calls that keep tables well formed, every transformed table is
      well formed. */
  lemma TransformReportsWellFormed(sem: Semantics, entries: map<string, Entry>, order: seq<string>)
    requires Closed(sem) && forall k | k in order :: k in entries && WellFormed(entries[k].raw)
    requires TransformReports(sem, entries, order).Success?
    ensures forall k | k in TransformReports(sem, entries, order).value ::
      WellFormed(TransformReports(sem, entries, order).value[k].transformed)
  {
    var done := TransformReports(sem, entries, order).value;
    TransformReportsOutcomes(sem, entries, order);
    forall k | k in done ensures WellFormed(done[k].transformed) {
      var e := entries[k];
      FoldWellFormed(sem, e.raw, e.transforms, AnnotationArgs(e.annotation));
    }
  }

  /** Once a prefix of the reports fails, every longer prefix fails the same
      way. */
  lemma {:induction false} TransformFailurePersists(sem: Semantics, entries: map<string, Entry>, order: seq<string>, k: nat, i: nat)
    requires forall key | key in order :: key in entries
    requires k <= i <= |order| && TransformReports(sem, entries, order[..k]).Failure?
    ensures TransformReports(sem, entries, order[..i]) == TransformReports(sem, entries, order[..k])
    decreases i
  {
    if k < i {
      TransformFailurePersists(sem, entries, order, k, i - 1);
      var prefix := order[..i];
      assert prefix[..i - 1] == order[..i - 1];
    }
  }

  /** One more report: the run so far extended by that report's outcome. */
  lemma TransformReportsStep(sem: Semantics, entries: map<string, Entry>, order: seq<string>, i: nat)
    requires forall key | key in order :: key in entries
    requires i < |order| && TransformReports(sem, entries, order[..i]).Success?
    ensures var prev := TransformReports(sem, entries, order[..i]).value;
      var o := RunReport(sem, entries[order[i]]);
      TransformReports(sem, entries, order[..i + 1])
        == if o.Success? then Success(prev[order[i] := o.value]) else Failure(o.error)
  {
    var prefix := order[..i + 1];
    assert prefix[..i] == order[..i] && prefix[i] == order[i];
  }

  /** The next report of the loop is not done yet, and its outcome either
      extends the run or ends it with the run's own failure. */
  lemma TransformReportsNext(sem: Semantics, entries: map<string, Entry>, order: seq<string>, i: nat, done: map<string, Outcome>)
    requires Distinct(order) && forall key | key in order :: key in entries
    requires i < |order| && TransformReports(sem, entries, order[..i]) == Success(done)
    ensures order[i] !in done
    ensures var o := RunReport(sem, entries[order[i]]);
      && (o.Success? ==> TransformReports(sem, entries, order[..i + 1]) == Success(done[order[i] := o.value]))
      && (o.Failure? ==> TransformReports(sem, entries, order) == Failure(o.error))
  {
    assert forall j | 0 <= j < i :: order[..i][j] == order[j];
    TransformReportsStep(sem, entries, order, i);
    if RunReport(sem, entries[order[i]]).Failure? {
      TransformFailurePersists(sem, entries, order, i + 1, |order|);
      assert order[..|order|] == order;
    }
  }

  /** A negative-class call in any report stops the whole run. */
  lemma NegativeClassStopsReports(entries: map<string, Entry>, order: seq<string>, s: Settings, key: string, j: nat)
    requires forall k | k in order :: k in entries
    requires key in order && j < |entries[key].transforms| && entries[key].transforms[j].name == OpName(NegativeOp)
    ensures TransformReports(Interp(s), entries, order).Failure?
  {
    var e := entries[key];
    NegativeClassFailsInReport(e.raw, e.transforms, e.annotation, s, j);
    TransformReportsFails(Interp(s), entries, order, key);
  }

  /** A report whose transform list fails stops the whole run. */
  lemma {:induction false} TransformReportsFails(sem: Semantics, entries: map<string, Entry>, order: seq<string>, key: string)
    requires forall k | k in order :: k in entries
    requires key in order && RunReport(sem, entries[key]).Failure?
    ensures TransformReports(sem, entries, order).Failure?
    decreases |order|
  {
    var n := |order| - 1;
    assert order == order[..n] + [order[n]];
    if order[n] != key {
      TransformReportsFails(sem, entries, order[..n], key);
    }
  }

  // ---------------------------------------------------------------------
  // Merging
  // ---------------------------------------------------------------------

  /** The transformed table of every report. */
  function TransformedTables(outcomes: map<string, Outcome>): (r: map<string, Table>)
    ensures r.Keys == outcomes.Keys && forall k | k in r :: r[k] == outcomes[k].transformed
  {
    map k | k in outcomes :: outcomes[k].transformed
  }

  /** One join per step, starting from the given table. */
  function JoinAll(acc: Table, done: map<string, Table>, steps: seq<MergeStep>): (r: Result<Table>)
    requires WellFormed(acc) && forall k | k in done :: WellFormed(done[k])
    ensures r.Success? ==> WellFormed(r.value)
    decreases |steps|
  {
    if |steps| == 0 then Success(acc)
    else
      var n := |steps| - 1;
      var prev :- JoinAll(acc, done, steps[..n]);
      var key := steps[n].key;
      if key !in done then Failure(KeyError(key))
      else Merging.Join(prev, done[key], steps[n].spec)
  }

  /** `_merge_reports`: the first step's report, narrowed to the index
      columns, is joined once per step, the first step included. The first
      step is read before the emptiness test, so no steps is an IndexError. */
  function MergeReports(done: map<string, Table>, plan: MergePlan): (r: Result<Table>)
    requires forall k | k in done :: WellFormed(done[k])
    ensures r.Success? ==> WellFormed(r.value)
    ensures |plan.steps| == 0 ==> r == Failure(IndexError("list index out of range"))
    ensures |plan.steps| > 0 && plan.steps[0].key !in done ==> r == Failure(KeyError(plan.steps[0].key))
  {
    if |plan.steps| == 0 then Failure(IndexError("list index out of range"))
    else
      var receiving := plan.steps[0].key;
      if receiving !in done then Failure(KeyError(receiving))
      else
        var seed :- SelectColumns(done[receiving], plan.index);
        JoinAll(seed, done, plan.steps)
  }

  /** A step naming a report that was not set up makes the merge fail. */
  lemma {:induction false} JoinAllMissing(acc: Table, done: map<string, Table>, steps: seq<MergeStep>, j: nat)
    requires WellFormed(acc) && forall k | k in done :: WellFormed(done[k])
    requires j < |steps| && steps[j].key !in done
    ensures JoinAll(acc, done, steps).Failure?
  {
    var prefix := steps[..j + 1];
    assert prefix[..j] == steps[..j] && prefix[j] == steps[j];
    assert |prefix| - 1 == j && prefix[..j] == steps[..j] && prefix[j].key !in done;
    assert JoinAll(acc, done, prefix).Failure?;
    JoinFailurePersists(acc, done, steps, j + 1, |steps|);
    assert steps[..|steps|] == steps;
  }

  /** The merge loop, with the first step read before anything else. */
  method MergeTransformed(done: map<string, Table>, plan: MergePlan) returns (r: Result<Table>)
    requires forall k | k in done :: WellFormed(done[k])
    ensures r == MergeReports(done, plan)
  {
    if |plan.steps| == 0 {
      return Failure(IndexError("list index out of range"));
    }
    var receiving := plan.steps[0].key;
    if receiving !in done {
      return Failure(KeyError(receiving));
    }
    var seed := SelectColumns(done[receiving], plan.index);
    if seed.Failure? {
      return Failure(seed.error);
    }
    assert MergeReports(done, plan) == JoinAll(seed.value, done, plan.steps);
    var acc := seed.value;
    var i := 0;
    while i < |plan.steps|
      invariant 0 <= i <= |plan.steps|
      invariant WellFormed(acc)
      invariant JoinAll(seed.value, done, plan.steps[..i]) == Success(acc)
    {
      var step := plan.steps[i];
      JoinStep(seed.value, done, plan.steps, i, acc);
      if step.key !in done {
        JoinFailurePersists(seed.value, done, plan.steps, i + 1, |plan.steps|);
        assert plan.steps[..|plan.steps|] == plan.steps;
        return Failure(KeyError(step.key));
      }
      var joined := Merging.Join(acc, done[step.key], step.spec);
      if joined.Failure? {
        JoinFailurePersists(seed.value, done, plan.steps, i + 1, |plan.steps|);
        assert plan.steps[..|plan.steps|] == plan.steps;
        return Failure(joined.error);
      }
      acc := joined.value;
      i := i + 1;
    }
    assert plan.steps[..i] == plan.steps;
    r := Success(acc);
  }

  /** One more step joins the next report into what the steps before it
      built. */
  lemma JoinStep(acc: Table, done: map<string, Table>, steps: seq<MergeStep>, i: nat, prev: Table)
    requires WellFormed(acc) && forall key | key in done :: WellFormed(done[key])
    requires i < |steps| && JoinAll(acc, done, steps[..i]) == Success(prev)
    ensures JoinAll(acc, done, steps[..i + 1]) ==
      if steps[i].key !in done then Failure(KeyError(steps[i].key)) else Merging.Join(prev, done[steps[i].key], steps[i].spec)
  {
    var prefix := steps[..i + 1];
    assert prefix[..i] == steps[..i] && prefix[i] == steps[i];
  }

  /** Once a prefix of the steps fails, every longer prefix fails the same
      way. */
  lemma {:induction false} JoinFailurePersists(acc: Table, done: map<string, Table>, steps: seq<MergeStep>, k: nat, i: nat)
    requires WellFormed(acc) && forall key | key in done :: WellFormed(done[key])
    requires k <= i <= |steps| && JoinAll(acc, done, steps[..k]).Failure?
    ensures JoinAll(acc, done, steps[..i]) == JoinAll(acc, done, steps[..k])
    decreases i
  {
    if k < i {
      JoinFailurePersists(acc, done, steps, k, i - 1);
      var prefix := steps[..i];
      assert prefix[..i - 1] == steps[..i - 1];
    }
  }

  // ---------------------------------------------------------------------
  // The whole construction
  // ---------------------------------------------------------------------

  /** What the constructor leaves behind. */
  datatype State = State(options: Options, entries: map<string, Entry>, order: seq<string>,
                         outcomes: map<string, Outcome>, merged: Table)

  /** The report half of the constructor: the setup loop, then each
      report's transforms in insertion order. */
  ghost function Reports(o: Options, fetch: map<string, Value> -> Table, schema: seq<FieldDef>)
    : (r: Result<(map<string, Entry>, seq<string>, map<string, Outcome>)>)
    requires forall x :: WellFormed(fetch(x))
    ensures r.Success? ==> r.value.2.Keys == r.value.0.Keys
    ensures r.Success? ==> forall k | k in r.value.2 :: WellFormed(r.value.2[k].transformed)
  {
    var setup :- SetupReports(o.reports, fetch, schema, o.generic);
    var outcomes :- TransformReports(Interp(SettingsOf(o)), setup.0, setup.1);
    InterpClosed(SettingsOf(o));
    TransformReportsWellFormed(Interp(SettingsOf(o)), setup.0, setup.1);
    Success((setup.0, setup.1, outcomes))
  }

  /** The merge half of the constructor: the merge of the transformed
      tables, then the post-merge transforms, which get no annotation. */
  ghost function Finish(o: Options, tables: map<string, Table>): (r: Result<Table>)
    requires forall k | k in tables :: WellFormed(tables[k])
    ensures r.Success? ==> WellFormed(r.value)
  {
    var merged :- MergeReports(tables, o.merge);
    var post :- Fold(Interp(SettingsOf(o)), merged, o.postMerge, map[]);
    InterpClosed(SettingsOf(o));
    FoldWellFormed(Interp(SettingsOf(o)), merged, o.postMerge, map[]);
    Success(post.transformed)
  }

  /** The constructor as a value. */
  ghost function Init(config: Config, fetch: map<string, Value> -> Table, schema: seq<FieldDef>): (r: Result<State>)
    requires forall o :: WellFormed(fetch(o))
    ensures r.Success? ==> WellFormed(r.value.merged)
    ensures r.Success? ==> r.value.outcomes.Keys == r.value.entries.Keys
  {
    var o :- ReadConfig(config);
    var reports :- Reports(o, fetch, schema);
    var merged :- Finish(o, TransformedTables(reports.2));
    Success(State(o, reports.0, reports.1, reports.2, merged))
  }

  /** Without a `post_transform_merge` entry the constructor always fails:
      the default has no merge steps. */
  lemma DefaultMergeFails(config: Config, fetch: map<string, Value> -> Table, schema: seq<FieldDef>)
    requires forall o :: WellFormed(fetch(o))
    requires config.postTransformMerge.None?
    ensures Init(config, fetch, schema).Failure?
  {
  }

  // ---------------------------------------------------------------------
  // The engine object
  // ---------------------------------------------------------------------

  /** A stored report: `transformed` is `None` until its transforms run. */
  datatype Report = Report(id: Value, df: Frame, transforms: seq<Call>, transformed: Option<Frame>, annotation: seq<Annotation>)

  /** The frames of a set of stored reports are pairwise distinct objects. */
  ghost predicate Separate(reps: map<string, Report>) {
    forall k1, k2 | k1 in reps && k2 in reps && k1 != k2 :: reps[k1].df != reps[k2].df
  }

  /** A stored report holds the frames an outcome describes. */
  ghost predicate Holds(rep: Report, o: Outcome)
    reads rep.df, if rep.transformed.Some? then {rep.transformed.value} else {}
  {
    && rep.transformed.Some?
    && rep.df.Value() == o.raw
    && rep.transformed.value.Value() == o.transformed
    && (rep.transformed.value == rep.df <==> o.shared)
  }

  /** A stored report matches its setup entry. */
  ghost predicate Stored(rep: Report, e: Entry) {
    rep.id == e.id && rep.transforms == e.transforms && rep.annotation == e.annotation
  }

  /** One more call of the report loop under the interpreter: it runs the
      transform on the transformed table so far, and the two tables stay one
      while every step has been in place. */
  lemma InterpFoldStep(s: Settings, t0: Table, calls: seq<Call>, extra: map<string, Value>, i: nat, prev: Outcome)
    requires i < |calls| && Fold(Interp(s), t0, calls[..i], extra) == Success(prev)
    requires WellFormed(prev.transformed)
    ensures var c := WithArgs(calls[i], extra);
      var spec := ApplyTransformSpec(prev.transformed, c, s);
      var next := Fold(Interp(s), t0, calls[..i + 1], extra);
      && (next.Success? <==> spec.Success?)
      && (next.Failure? ==> next.error == spec.error)
      && (next.Success? ==>
            && next.value.transformed == spec.value
            && next.value.shared == (prev.shared && Bind(c.name, c.kwargs).Success? && InPlace(Bind(c.name, c.kwargs).value))
            && next.value.raw == if next.value.shared then spec.value else prev.raw)
  {
    assert calls[..i + 1][..i] == calls[..i];
  }

  /** `_apply_report_transforms` on frames: in-place steps write into the
      frame they are given, which is the exported frame itself until a
      copying step returns a new one. */
  method ApplyReportTransforms(raw: Frame, calls: seq<Call>, extra: map<string, Value>, s: Settings) returns (r: Result<Frame>)
    requires WellFormed(raw.Value())
    modifies raw
    ensures var spec := Fold(Interp(s), old(raw.Value()), calls, extra);
      && (r.Success? <==> spec.Success?)
      && (r.Failure? ==> r.error == spec.error)
      && (r.Success? ==> r.value.Value() == spec.value.transformed && raw.Value() == spec.value.raw)
      && (r.Success? && spec.value.shared ==> r.value == raw)
      && (r.Success? && !spec.value.shared ==> fresh(r.value))
  {
    ghost var t0 := raw.Value();
    ghost var out := Outcome(t0, t0, true);
    assert calls[..0] == [];
    var cur := raw;
    var i := 0;
    while i < |calls|
      invariant 0 <= i <= |calls|
      invariant Fold(Interp(s), t0, calls[..i], extra) == Success(out)
      invariant cur.Value() == out.transformed && raw.Value() == out.raw
      invariant out.shared ==> cur == raw
      invariant !out.shared ==> fresh(cur)
      invariant WellFormed(cur.Value())
    {
      InterpFoldStep(s, t0, calls, extra, i, out);
      var c := WithArgs(calls[i], extra);
      var res := ApplyTransform(cur, c, s);
      if res.Failure? {
        FoldFailurePersists(Interp(s), t0, calls, extra, i + 1, |calls|);
        assert calls[..|calls|] == calls;
        return Failure(res.error);
      }
      ghost var next := Fold(Interp(s), t0, calls[..i + 1], extra).value;
      cur := res.value;
      out := next;
      i := i + 1;
    }
    assert calls[..i] == calls;
    r := Success(cur);
  }

  /** The setup loop on frames: each exported table gets a frame of its own. */
  method SetupLoop(configs: seq<ReportConfig>, fetch: map<string, Value> -> Table, schema: seq<FieldDef>, generic: string)
    returns (r: Result<(map<string, Report>, seq<string>)>)
    requires forall o :: WellFormed(fetch(o))
    ensures var spec := SetupReports(configs, fetch, schema, generic);
      && (r.Success? <==> spec.Success?)
      && (r.Failure? ==> r.error == spec.error)
      && (r.Success? ==> r.value.1 == spec.value.1 && r.value.0.Keys == spec.value.0.Keys && Separate(r.value.0))
      && (r.Success? ==> forall k | k in r.value.0 ::
            && Stored(r.value.0[k], spec.value.0[k])
            && r.value.0[k].transformed.None?
            && fresh(r.value.0[k].df)
            && r.value.0[k].df.Value() == spec.value.0[k].raw)
  {
    var reps: map<string, Report> := map[];
    var order: seq<string> := [];
    ghost var entries: map<string, Entry> := map[];
    var i := 0;
    while i < |configs|
      invariant 0 <= i <= |configs|
      invariant SetupReports(configs[..i], fetch, schema, generic) == Success((entries, order))
      invariant reps.Keys == entries.Keys && Separate(reps)
      invariant forall k | k in reps ::
        && Stored(reps[k], entries[k]) && reps[k].transformed.None? && fresh(reps[k].df)
        && reps[k].df.Value() == entries[k].raw
    {
      var c := configs[i];
      var e := SetupReport(c, fetch, schema, generic);
      SetupStep(configs, fetch, schema, generic, i, entries, order);
      if e.Failure? {
        SetupFailurePersists(configs, fetch, schema, generic, i + 1, |configs|);
        assert configs[..|configs|] == configs;
        return Failure(e.error);
      }
      var df := new Frame(e.value.raw);
      var rep := Report(e.value.id, df, e.value.transforms, None, e.value.annotation);
      StoreSeparate(reps, entries, c.key, rep, e.value);
      if c.key !in reps {
        order := order + [c.key];
      }
      reps := reps[c.key := rep];
      entries := entries[c.key := e.value];
      i := i + 1;
    }
    assert configs[..i] == configs;
    r := Success((reps, order));
  }

  /** One more pass of the setup loop adds the next report to what the
      passes before it built. */
  lemma SetupStep(configs: seq<ReportConfig>, fetch: map<string, Value> -> Table, schema: seq<FieldDef>, generic: string,
                  i: nat, entries: map<string, Entry>, order: seq<string>)
    requires forall o :: WellFormed(fetch(o))
    requires i < |configs| && SetupReports(configs[..i], fetch, schema, generic) == Success((entries, order))
    ensures SetupReports(configs[..i + 1], fetch, schema, generic) == AddReport(entries, order, configs[i], fetch, schema, generic)
  {
    var prefix := configs[..i + 1];
    assert prefix[..i] == configs[..i] && prefix[i] == configs[i];
  }

  /** Storing a report whose frame no stored report holds keeps the stored
      frames apart. */
  lemma StoreSeparate(reps: map<string, Report>, entries: map<string, Entry>, key: string, rep: Report, e: Entry)
    requires reps.Keys == entries.Keys && Separate(reps)
    requires forall k | k in reps :: reps[k].df != rep.df
    ensures reps[key := rep].Keys == entries[key := e].Keys && Separate(reps[key := rep])
  {
  }

  /** The frames a set of stored reports refers to. */
  ghost function ReportFrames(reps: map<string, Report>): set<object> {
    (set k | k in reps :: reps[k].df)
    + (set k | k in reps && reps[k].transformed.Some? :: reps[k].transformed.value)
  }

  /** The shape of the report loop's state: the stored reports are the
      configured ones with their own frames, and every finished report is a
      stored one whose transformed frame is no other report's exported frame. */
  ghost predicate Shape(reps: map<string, Report>, entries: map<string, Entry>, done: map<string, Outcome>) {
    && reps.Keys == entries.Keys && Separate(reps)
    && (forall k | k in done :: k in reps && reps[k].transformed.Some?)
    && (forall k | k in reps :: Stored(reps[k], entries[k]))
    && (forall k1, k2 | k1 in done && k2 in reps && k1 != k2 :: reps[k1].transformed.value != reps[k2].df)
  }

  /** The reports not yet run still hold their exported tables untouched. */
  ghost predicate Untouched(reps: map<string, Report>, entries: map<string, Entry>, done: map<string, Outcome>)
    requires reps.Keys == entries.Keys
    reads ReportFrames(reps)
  {
    forall k | k in reps && k !in done :: reps[k].transformed.None? && reps[k].df.Value() == entries[k].raw
  }

  /** The finished reports hold their outcomes. */
  ghost predicate Finished(reps: map<string, Report>, done: map<string, Outcome>)
    requires forall k | k in done :: k in reps
    reads ReportFrames(reps)
  {
    forall k | k in done :: Holds(reps[k], done[k])
  }

  /** Part way through the report loop: the reports in `done` hold their
      outcomes and the others still hold their exported tables untouched. */
  ghost predicate Progress(reps: map<string, Report>, entries: map<string, Entry>, done: map<string, Outcome>)
    reads ReportFrames(reps)
  {
    Shape(reps, entries, done) && Untouched(reps, entries, done) && Finished(reps, done)
  }

  /** Once every report is done, each holds a transformed frame, and those
      frames hold the transformed tables of the outcomes. */
  lemma DoneTables(reps: map<string, Report>, entries: map<string, Entry>, done: map<string, Outcome>)
    requires Progress(reps, entries, done) && done.Keys == entries.Keys
    ensures forall k | k in reps :: reps[k].transformed.Some?
    ensures (map k | k in reps :: reps[k].transformed.value.Value()) == TransformedTables(done)
  {
  }

  /** Running one report's transforms, which writes only into that report's
      exported frame, keeps the loop's progress, now with that report done. */
  twostate lemma KeepProgress(reps: map<string, Report>, new key: string, new entries: map<string, Entry>, new done: map<string, Outcome>,
                              new nf: Frame, new o: Outcome)
    requires old(Progress(reps, entries, done)) && key in reps && key !in done
    requires unchanged(ReportFrames(reps) - {reps[key].df})
    requires reps[key].df.Value() == o.raw && nf.Value() == o.transformed
    requires nf == reps[key].df <==> o.shared
    requires nf != reps[key].df ==> fresh(nf)
    ensures Progress(reps[key := reps[key].(transformed := Some(nf))], entries, done[key := o])
  {
    assert nf == reps[key].df || nf !in ReportFrames(reps);
    KeepShape(reps, key, entries, done, nf, o);
    KeepUntouched(reps, key, entries, done, nf, o);
    KeepFinished(reps, key, entries, done, nf, o);
  }

  /** The shape survives storing the new transformed frame, which is either
      the report's own exported frame or one no report holds. */
  lemma KeepShape(reps: map<string, Report>, key: string, entries: map<string, Entry>, done: map<string, Outcome>, nf: Frame, o: Outcome)
    requires Shape(reps, entries, done) && key in reps && key !in done
    requires nf == reps[key].df || nf !in ReportFrames(reps)
    ensures Shape(reps[key := reps[key].(transformed := Some(nf))], entries, done[key := o])
  {
    var rep := reps[key];
    var reps' := reps[key := rep.(transformed := Some(nf))];
    var done' := done[key := o];
    assert reps'.Keys == reps.Keys;
    assert forall k | k in reps :: reps'[k].df == reps[k].df && Stored(reps'[k], entries[k]);
    assert Separate(reps');
    assert forall k | k in done' :: k in reps' && reps'[k].transformed.Some?;
    forall k1, k2 | k1 in done' && k2 in reps' && k1 != k2 ensures reps'[k1].transformed.value != reps'[k2].df {
      if k1 == key {
        assert reps[k2].df != rep.df;
        assert reps[k2].df in ReportFrames(reps);
      }
    }
  }

  /** The reports not yet run are left untouched by running another. */
  twostate lemma KeepUntouched(reps: map<string, Report>, new key: string, new entries: map<string, Entry>, new done: map<string, Outcome>,
                               new nf: Frame, new o: Outcome)
    requires reps.Keys == entries.Keys && Separate(reps) && key in reps
    requires old(Untouched(reps, entries, done))
    requires unchanged(ReportFrames(reps) - {reps[key].df})
    ensures Untouched(reps[key := reps[key].(transformed := Some(nf))], entries, done[key := o])
  {
    var rep := reps[key];
    var reps' := reps[key := rep.(transformed := Some(nf))];
    var done' := done[key := o];
    forall k | k in reps' && k !in done' ensures reps'[k].df.Value() == entries[k].raw {
      assert reps[k].df != rep.df;
      assert reps[k].df in ReportFrames(reps);
    }
  }

  /** The finished reports keep their outcomes, and the report just run holds
      its own. */
  twostate lemma KeepFinished(reps: map<string, Report>, new key: string, new entries: map<string, Entry>, new done: map<string, Outcome>,
                              new nf: Frame, new o: Outcome)
    requires Shape(reps, entries, done) && key in reps && key !in done
    requires old(Finished(reps, done))
    requires unchanged(ReportFrames(reps) - {reps[key].df})
    requires reps[key].df.Value() == o.raw && nf.Value() == o.transformed
    requires nf == reps[key].df <==> o.shared
    ensures Finished(reps[key := reps[key].(transformed := Some(nf))], done[key := o])
  {
    var rep := reps[key];
    var reps' := reps[key := rep.(transformed := Some(nf))];
    var done' := done[key := o];
    forall k | k in done' ensures Holds(reps'[k], done'[k]) {
      if k != key {
        assert reps[k].df != rep.df;
        assert reps[k].df in ReportFrames(reps) && reps[k].transformed.value in ReportFrames(reps);
        assert old(Holds(reps[k], done[k]));
      }
    }
  }

  /** One pass of the report loop: the report's transforms run on its own
      exported frame, and no other report's frames change. */
  method TransformOne(reps: map<string, Report>, key: string, ghost entries: map<string, Entry>, ghost done: map<string, Outcome>, s: Settings)
    returns (r: Result<map<string, Report>>)
    requires Progress(reps, entries, done) && key in reps && key !in done
    requires forall k | k in entries :: WellFormed(entries[k].raw)
    modifies reps[key].df
    ensures var spec := Fold(Interp(s), old(reps[key].df.Value()), reps[key].transforms, AnnotationArgs(reps[key].annotation));
      && (r.Success? <==> spec.Success?)
      && (r.Failure? ==> r.error == spec.error)
      && (r.Success? ==> Progress(r.value, entries, done[key := spec.value]))
      && (r.Success? ==> forall k | k in reps :: r.value[k].df == reps[k].df)
  {
    var rep := reps[key];
    var res := ApplyReportTransforms(rep.df, rep.transforms, AnnotationArgs(rep.annotation), s);
    if res.Failure? {
      return Failure(res.error);
    }
    ghost var out := Fold(Interp(s), old(rep.df.Value()), rep.transforms, AnnotationArgs(rep.annotation)).value;
    KeepProgress(reps, key, entries, done, res.value, out);
    r := Success(reps[key := rep.(transformed := Some(res.value))]);
  }

  /** The loop over the stored reports, in insertion order, running each
      report's transforms on its own exported frame. */
  method TransformLoop(reps0: map<string, Report>, order: seq<string>, ghost entries: map<string, Entry>, s: Settings)
    returns (r: Result<map<string, Report>>)
    requires Progress(reps0, entries, map[])
    requires Distinct(order) && forall k :: k in order <==> k in entries
    requires forall k | k in entries :: WellFormed(entries[k].raw)
    modifies set k | k in reps0 :: reps0[k].df
    ensures var spec := TransformReports(Interp(s), entries, order);
      && (r.Success? <==> spec.Success?)
      && (r.Failure? ==> r.error == spec.error)
      && (r.Success? ==> spec.value.Keys == entries.Keys && Progress(r.value, entries, spec.value))
  {
    var reps := reps0;
    ghost var done: map<string, Outcome> := map[];
    var i := 0;
    while i < |order|
      invariant 0 <= i <= |order|
      invariant TransformReports(Interp(s), entries, order[..i]) == Success(done)
      invariant Progress(reps, entries, done)
      invariant forall k | k in reps :: k in reps0 && reps[k].df == reps0[k].df
    {
      var key := order[i];
      TransformReportsNext(Interp(s), entries, order, i, done);
      var res := TransformOne(reps, key, entries, done, s);
      if res.Failure? {
        return Failure(res.error);
      }
      done := done[key := RunReport(Interp(s), entries[key]).value];
      reps := res.value;
      i := i + 1;
    }
    assert order[..i] == order;
    r := Success(reps);
  }

  /** The report half of the constructor on frames. */
  method RunReports(o: Options, fetch: map<string, Value> -> Table, schema: seq<FieldDef>)
    returns (r: Result<(map<string, Report>, seq<string>)>)
    requires forall x :: WellFormed(fetch(x))
    ensures var spec := Reports(o, fetch, schema);
      && (r.Success? <==> spec.Success?)
      && (r.Failure? ==> r.error == spec.error)
      && (r.Success? ==> r.value.1 == spec.value.1 && Progress(r.value.0, spec.value.0, spec.value.2))
  {
    var setup := SetupLoop(o.reports, fetch, schema, o.generic);
    if setup.Failure? {
      return Failure(setup.error);
    }
    ghost var entries := SetupReports(o.reports, fetch, schema, o.generic).value.0;
    var reps := setup.value.0;
    var order := setup.value.1;
    assert Progress(reps, entries, map[]);
    var ran := TransformLoop(reps, order, entries, SettingsOf(o));
    if ran.Failure? {
      return Failure(ran.error);
    }
    r := Success((ran.value, order));
  }

  /** The merge half of the constructor on frames: the merged table gets a
      frame of its own, which the post-merge transforms then run on. */
  method RunFinish(o: Options, tables: map<string, Table>) returns (r: Result<Frame>)
    requires forall k | k in tables :: WellFormed(tables[k])
    ensures var spec := Finish(o, tables);
      && (r.Success? <==> spec.Success?)
      && (r.Failure? ==> r.error == spec.error)
      && (r.Success? ==> fresh(r.value) && r.value.Value() == spec.value)
  {
    var merged := MergeTransformed(tables, o.merge);
    if merged.Failure? {
      return Failure(merged.error);
    }
    var mf := new Frame(merged.value);
    var post := ApplyReportTransforms(mf, o.postMerge, map[], SettingsOf(o));
    if post.Failure? {
      return Failure(post.error);
    }
    r := Success(post.value);
  }

  /** The engine after construction. */
  class Engine {
    var options: Options
    var reports: map<string, Report>
    var order: seq<string>
    var merged: Frame

    /** The engine over reports that have all run holds the state they
        describe. */
    constructor (options: Options, reports: map<string, Report>, order: seq<string>, merged: Frame, ghost st: State)
      requires Progress(reports, st.entries, st.outcomes) && st.outcomes.Keys == st.entries.Keys
      requires options == st.options && order == st.order && merged.Value() == st.merged
      ensures this.options == options && this.reports == reports && this.order == order && this.merged == merged
      ensures Matches(st)
    {
      this.options := options;
      this.reports := reports;
      this.order := order;
      this.merged := merged;
    }

    /** Every frame the engine refers to. */
    ghost function Frames(): set<object>
      reads this
    {
      (set k | k in reports :: reports[k].df)
      + (set k | k in reports && reports[k].transformed.Some? :: reports[k].transformed.value)
      + {merged}
    }

    /** The engine holds what `Init` describes. */
    ghost predicate Matches(st: State)
      reads this, Frames()
    {
      && options == st.options
      && order == st.order
      && reports.Keys == st.entries.Keys
      && st.outcomes.Keys == st.entries.Keys
      && merged.Value() == st.merged
      && forall k | k in reports :: Stored(reports[k], st.entries[k]) && Holds(reports[k], st.outcomes[k])
    }

    /** `get_report_id`. */
    function GetReportId(key: string): (r: Result<Value>)
      reads this
      ensures r.Success? <==> key in reports
      ensures r.Failure? ==> r.error == KeyError(key)
    {
      if key in reports then Success(reports[key].id) else Failure(KeyError(key))
    }

    /** `get_report_df`. */
    function GetReportDf(key: string): (r: Result<Frame>)
      reads this
      ensures r.Success? <==> key in reports
      ensures r.Failure? ==> r.error == KeyError(key)
    {
      if key in reports then Success(reports[key].df) else Failure(KeyError(key))
    }

    /** `get_report_transformed_df`: `None` before the report's transforms ran. */
    function GetReportTransformedDf(key: string): (r: Result<Option<Frame>>)
      reads this
      ensures r.Success? <==> key in reports
      ensures r.Failure? ==> r.error == KeyError(key)
    {
      if key in reports then Success(reports[key].transformed) else Failure(KeyError(key))
    }

    /** `get_report_transforms`. */
    function GetReportTransforms(key: string): (r: Result<seq<Call>>)
      reads this
      ensures r.Success? <==> key in reports
      ensures r.Failure? ==> r.error == KeyError(key)
    {
      if key in reports then Success(reports[key].transforms) else Failure(KeyError(key))
    }

    /** `get_report_annotations` as written: it reads `"annotations"` while
        the report stores `"annotation"`, so it never succeeds. */
    function GetReportAnnotationsAsWritten(key: string): (r: Result<seq<Annotation>>)
      reads this
      ensures r.Failure?
      ensures key in reports ==> r.error == KeyError("annotations")
      ensures key !in reports ==> r.error == KeyError(key)
    {
      if key in reports then Failure(KeyError("annotations")) else Failure(KeyError(key))
    }

    /** `get_report_annotations` reading the key the report is stored under. */
    function GetReportAnnotations(key: string): (r: Result<seq<Annotation>>)
      reads this
      ensures r.Success? <==> key in reports
      ensures r.Failure? ==> r.error == KeyError(key)
    {
      if key in reports then Success(reports[key].annotation) else Failure(KeyError(key))
    }

    /** The constructor: it fails exactly when `Init` does, with the same
        error, and otherwise builds an engine holding what `Init` describes,
        with the exported frames aliased by the transformed ones exactly as
        `Fold` says. */
    static method Run(config: Config, fetch: map<string, Value> -> Table, schema: seq<FieldDef>) returns (r: Result<Engine>)
      requires forall o :: WellFormed(fetch(o))
      ensures var spec := Init(config, fetch, schema);
        && (r.Success? <==> spec.Success?)
        && (r.Failure? ==> r.error == spec.error)
        && (r.Success? ==> fresh(r.value) && r.value.Matches(spec.value))
    {
      var o := ReadConfig(config);
      if o.Failure? {
        return Failure(o.error);
      }
      var opts := o.value;
      var ran := RunReports(opts, fetch, schema);
      if ran.Failure? {
        return Failure(ran.error);
      }
      var reps := ran.value.0;
      var order := ran.value.1;
      ghost var spec := Reports(opts, fetch, schema).value;
      DoneTables(reps, spec.0, spec.2);
      var tables := map k | k in reps :: reps[k].transformed.value.Value();
      var merged := RunFinish(opts, tables);
      if merged.Failure? {
        return Failure(merged.error);
      }
      ghost var st := State(opts, spec.0, spec.1, spec.2, merged.value.Value());
      assert Init(config, fetch, schema) == Success(st);
      var engine := new Engine(opts, reps, order, merged.value, st);
      r := Success(engine);
    }
  }

  /** After construction every getter answers from the stored reports: the
      id, the exported frame, the transformed frame and the transform list of
      each configured report, a KeyError for any other key, and the
      as-written annotation getter fails for every key. */
  lemma GettersAfterRun(e: Engine, st: State, key: string)
    requires e.Matches(st)
    ensures key in st.entries ==>
      && e.GetReportId(key) == Success(st.entries[key].id)
      && e.GetReportDf(key).Success?
      && e.GetReportDf(key).value.Value() == st.outcomes[key].raw
      && e.GetReportTransformedDf(key).Success?
      && e.GetReportTransformedDf(key).value.Some?
      && e.GetReportTransformedDf(key).value.value.Value() == st.outcomes[key].transformed
      && e.GetReportTransforms(key) == Success(st.entries[key].transforms)
      && e.GetReportAnnotations(key) == Success(st.entries[key].annotation)
    ensures key !in st.entries ==> e.GetReportId(key) == Failure(KeyError(key))
    ensures e.GetReportAnnotationsAsWritten(key).Failure?
  {
  }

  // ---------------------------------------------------------------------
  // Export file names
  // ---------------------------------------------------------------------

  /** The file a report's exported table is written to. */
  function RawFileName(key: string, ext: string): string {
    key + "_raw" + ext
  }

  /** The file a report's transformed table is written to. */
  function TransformedFileName(key: string, ext: string): string {
    key + "_transformed" + ext
  }

  /** The file the merged table is written to. */
  function MergedFileName(ext: string): string {
    "transformed-merged_redcap-extract" + ext
  }

  /** Two names with the same extension that differ in the character just
      before it differ. */
  lemma DifferBeforeExt(a: string, b: string, ext: string)
    requires |a| > 0 && |b| > 0 && a[|a| - 1] != b[|b| - 1]
    ensures a + ext != b + ext
  {
    if |a| == |b| {
      assert (a + ext)[|a| - 1] == a[|a| - 1];
      assert (b + ext)[|a| - 1] == b[|b| - 1];
    } else {
      assert |a + ext| != |b + ext|;
    }
  }

  /** Equal names with the same ending come from equal keys. */
  lemma SameEnding(k1: string, k2: string, tail: string)
    requires k1 + tail == k2 + tail
    ensures k1 == k2
  {
    assert |k1| == |k2|;
    assert forall i | 0 <= i < |k1| :: k1[i] == (k1 + tail)[i] == (k2 + tail)[i] == k2[i];
  }

  /** For one extension, distinct reports write distinct files, and no raw,
      transformed or merged file name coincides with another kind. */
  lemma FileNamesDistinct(k1: string, k2: string, ext: string)
    ensures RawFileName(k1, ext) == RawFileName(k2, ext) ==> k1 == k2
    ensures TransformedFileName(k1, ext) == TransformedFileName(k2, ext) ==> k1 == k2
    ensures RawFileName(k1, ext) != TransformedFileName(k2, ext)
    ensures RawFileName(k1, ext) != MergedFileName(ext)
    ensures TransformedFileName(k1, ext) != MergedFileName(ext)
  {
    if RawFileName(k1, ext) == RawFileName(k2, ext) {
      assert k1 + "_raw" + ext == k1 + ("_raw" + ext);
      assert k2 + "_raw" + ext == k2 + ("_raw" + ext);
      SameEnding(k1, k2, "_raw" + ext);
    }
    if TransformedFileName(k1, ext) == TransformedFileName(k2, ext) {
      assert k1 + "_transformed" + ext == k1 + ("_transformed" + ext);
      assert k2 + "_transformed" + ext == k2 + ("_transformed" + ext);
      SameEnding(k1, k2, "_transformed" + ext);
    }
    DifferBeforeExt(k1 + "_raw", k2 + "_transformed", ext);
    DifferBeforeExt(k1 + "_raw", "transformed-merged_redcap-extract", ext);
    DifferBeforeExt(k1 + "_transformed", "transformed-merged_redcap-extract", ext);
  }
}
