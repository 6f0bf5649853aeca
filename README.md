# REDCap live transform engine, modelled in Dafny

This project models the transform engine of the REDCap ETL module
(`RedcapLiveTransform`) and the identifier summary of a study
(`Identifiers.to_dict`). The engine does the following:

- reads its configuration;
- exports every configured REDCap report as a table of text cells;
- annotates each report's columns from the project's field metadata;
- runs each report's list of configured transforms;
- joins the transformed reports into one table;
- runs the post-merge transforms on the joined table.

How the model is built:

- **Tables.** A pandas data frame built with `dtype = str` is a `Table` value:
  column labels plus rows of text cells. The mutable frame object is a `Frame`
  class. A report's "transformed" frame starts as the exported frame itself,
  so the two are one object until a transform returns a new frame. The model
  tracks that aliasing.
- **Transforms.** Each transform has a specification function on `Table`
  values. Where the source loops over cells, or writes into the frame it was
  given, there is also a method on `Frame`. That method is proved to produce
  the specification's result, and proved to return either the same frame or
  a fresh one, as the source does. The suffix and prefix transforms write the
  new labels into the frame they are given and return it.
- **Calls.** A configured call is a transform name with keyword arguments.
  Binding those arguments to a transform method's parameters is a function
  (`Interpreter.Bind`) with Python's failure modes: an unknown name, an
  unexpected keyword, or a missing required argument. Names of the engine's
  other private members count as unknown (see "Left out").
- **The report loop.** It is first proved over any call semantics
  (`Pipeline.Semantics`), then used with the transform interpreter.
- **The constructor.** `Pipeline.Engine.Run` is proved to fail exactly when
  the value-level description `Pipeline.Init` fails, with the same error.
  Otherwise it builds an engine holding what `Init` describes.

## Model

Source paths are relative to the repository root. The engine is
`modules/etl/transforms/redcap_live_transform.py`; the identifier summary is
`model/study_metadata/identifiers.py`.

| member | source | states |
|---|---|---|
| ColumnResolution.Resolve | modules/etl/transforms/redcap_live_transform.py:726-755 | If no requested name is present, the result is the default. Otherwise it holds exactly the requested names that are present. If some requested names are absent, each present one appears once. If all requested names are present, the request comes back unchanged. |
| ColumnResolution.ResolvePresent | modules/etl/transforms/redcap_live_transform.py:734-755 | When some requested name is present, a present label is resolved if and only if it was requested. |
| ColumnTransforms.ResolvedAgrees | modules/etl/transforms/redcap_live_transform.py:742-753 | On the frame's labels, the resolution and the request agree, once some requested label is present. |
| ColumnTransforms.DropColumns | modules/etl/transforms/redcap_live_transform.py:289-297 | The result is the frame restricted to its labels that were not requested, with rows and kept cells unchanged. |
| ColumnTransforms.DropColumnsIdempotent | modules/etl/transforms/redcap_live_transform.py:289-297 | Dropping the same columns twice is the same as dropping them once. |
| ColumnTransforms.KeepColumns | modules/etl/transforms/redcap_live_transform.py:309-320 | If some requested label is present, the result is the frame restricted to the requested labels, in frame order. If none is present, the frame is returned as it was. |
| ColumnTransforms.KeepColumnsIdempotent | modules/etl/transforms/redcap_live_transform.py:309-320 | Keeping the same columns twice is the same as keeping them once. |
| ColumnTransforms.AppendColumnSuffix | modules/etl/transforms/redcap_live_transform.py:353-360 | Each requested label becomes label + separator + suffix. No other label changes, and no row or cell changes. |
| ColumnTransforms.AppendNoSuffix | modules/etl/transforms/redcap_live_transform.py:353-360 | An empty suffix with an empty separator leaves the frame unchanged. |
| ColumnTransforms.PrependColumnPrefix | modules/etl/transforms/redcap_live_transform.py:390-397 | Each requested label becomes prefix + separator + label. No other label changes, and no row or cell changes. |
| ColumnTransforms.AppendColumnSuffixInPlace | modules/etl/transforms/redcap_live_transform.py:332-344 | The given frame now holds the suffix rename of its old table, and that same frame is returned. |
| ColumnTransforms.PrependNoPrefix | modules/etl/transforms/redcap_live_transform.py:390-397 | An empty prefix with an empty separator leaves the frame unchanged. |
| ColumnTransforms.PrependColumnPrefixInPlace | modules/etl/transforms/redcap_live_transform.py:369-381 | The given frame now holds the prefix rename of its old table, and that same frame is returned. |
| ColumnTransforms.RenameAsWritten | modules/etl/transforms/redcap_live_transform.py:340-343 | As written, the rename relabels rows, not columns. Every cell of a requested column becomes "nan", all labels stay, and every other cell stays. |
| ColumnTransforms.SuffixAsWrittenLosesCells | modules/etl/transforms/redcap_live_transform.py:332-344 | For a one-cell frame, the documented suffix gives label "as" and keeps the cell. As written, the label stays "a" and the cell is lost. |
| ColumnTransforms.PrefixAsWrittenLosesCells | modules/etl/transforms/redcap_live_transform.py:369-381 | For a one-cell frame, the documented prefix gives label "pa" and keeps the cell. As written, the label stays and the cell is lost. |
| RowTransforms.DropRows | modules/etl/transforms/redcap_live_transform.py:560-569 | Labels are kept. The rows kept are exactly those where the condition holds on no requested column that is present, in their original order. |
| RowTransforms.DropRowsNothingResolved | modules/etl/transforms/redcap_live_transform.py:567-568 | When no requested column is present, no row is dropped. |
| RowTransforms.DropRowsIdempotent | modules/etl/transforms/redcap_live_transform.py:560-569 | Dropping rows twice with the same columns and condition is the same as dropping them once. |
| RowTransforms.DropRowsWrapperAsWritten | modules/etl/transforms/redcap_live_transform.py:571-580 | The public wrapper drops rows by the empty-cell condition, whatever condition it is given. |
| RowTransforms.DropRowsWrapperIgnoresCondition | modules/etl/transforms/redcap_live_transform.py:571-580 | For one row whose cell is "x", under the condition "cell is x": the wrapper keeps the row, and the transform given the condition drops it. |
| ValueTransforms.RemapCell | modules/etl/transforms/redcap_live_transform.py:431-442 | Remapping one cell fails only with the TypeError `join` raises for a non-text label. |
| ValueTransforms.RemapEmptyCell | modules/etl/transforms/redcap_live_transform.py:431-442 | An empty cell remaps to empty text. |
| ValueTransforms.CodesOfJoin | modules/etl/transforms/redcap_live_transform.py:431-435 | Splitting a cell written as comma-separated codes gives back those codes. |
| Text.JoinSplit | modules/etl/transforms/redcap_live_transform.py:431 | Splitting text at a separator and joining the pieces with it gives back the text. |
| Text.SplitJoin | modules/etl/transforms/redcap_live_transform.py:431 | Joining pieces that do not hold the separator and splitting again gives back the pieces. |
| ValueTransforms.RemapCodes | modules/etl/transforms/redcap_live_transform.py:431-442 | A cell of codes that all map to text labels becomes those labels, in the cell's order, joined by the separator. |
| ValueTransforms.RemapNothingMapped | modules/etl/transforms/redcap_live_transform.py:436-442 | A cell with no code the map knows becomes empty text. |
| ValueTransforms.RemapNotIdempotent | modules/etl/transforms/redcap_live_transform.py:406-444 | Remapping twice differs from remapping once. "1" maps to "Yes", and "Yes" then maps to "". |
| ValueTransforms.MappableFields | modules/etl/transforms/redcap_live_transform.py:416-426 | With a non-empty value map, the fields are the resolved columns, each with that map. Otherwise they are exactly the annotations whose value map is non-empty and whose column is resolved. |
| ValueTransforms.RemapRows | modules/etl/transforms/redcap_live_transform.py:430-442 | Succeeds exactly when every cell at the position remaps. Each row then has that one cell replaced by its remap, and a failure is the join TypeError. |
| ValueTransforms.RemapField | modules/etl/transforms/redcap_live_transform.py:428-442 | Succeeds exactly when every cell of the field's column remaps. Each cell of that column is replaced by its remap, and every other cell stays. |
| ValueTransforms.RemapFields | modules/etl/transforms/redcap_live_transform.py:428-442 | After remapping the fields in turn, labels and row count stay, and cells outside the fields' columns stay. |
| ValueTransforms.Remap | modules/etl/transforms/redcap_live_transform.py:406-444 | A successful remap keeps the labels, the row count and well-formedness. |
| ValueTransforms.RemapKeepsOtherColumns | modules/etl/transforms/redcap_live_transform.py:406-444 | Columns that were not requested keep every cell. |
| ValueTransforms.RemapWithValueMap | modules/etl/transforms/redcap_live_transform.py:417-420 | With a value map given, remapping one present column is remapping that one field. |
| ValueTransforms.RemapColumnCells | modules/etl/transforms/redcap_live_transform.py:430-442 | The row loop over one column computes exactly `RemapRows`, including its failure. |
| ValueTransforms.RemapRowsFailsAt | modules/etl/transforms/redcap_live_transform.py:436-442 | One cell that fails to remap fails the whole column with the join TypeError. |
| ValueTransforms.RemapFieldsFailurePersists | modules/etl/transforms/redcap_live_transform.py:428-442 | Once a field fails to remap, remapping the remaining fields fails with that error. |
| ValueTransforms.RemapFieldInPlace | modules/etl/transforms/redcap_live_transform.py:429-442 | The loop over one field fails exactly when `RemapField` does. Otherwise it leaves the frame holding `RemapField`'s result. |
| ValueTransforms.RemapValuesByColumns | modules/etl/transforms/redcap_live_transform.py:406-444 | The loop fails exactly when `Remap` does, with the same error. Otherwise it returns the frame it was given, now holding `Remap`'s result. |
| ValueTransforms.MissingValue | modules/etl/transforms/redcap_live_transform.py:529-531 | The replacement is the given value, or the missing-value label when none is given. |
| ValueTransforms.MapMissingAt | modules/etl/transforms/redcap_live_transform.py:533-537 | In the one column, each missing cell (empty, or a none-map text) becomes the replacement, and every other cell stays. |
| ValueTransforms.MapMissingColumnsCells | modules/etl/transforms/redcap_live_transform.py:532-537 | A missing cell at a target column's position becomes the replacement, and every other cell stays. |
| ValueTransforms.MapMissingCells | modules/etl/transforms/redcap_live_transform.py:521-539 | In every resolved column (default: none), each missing cell becomes the replacement, and every other cell stays. |
| ValueTransforms.MapMissing | modules/etl/transforms/redcap_live_transform.py:521-539 | Mapping missing values keeps the labels, the row count and well-formedness. |
| ValueTransforms.MapMissingRequested | modules/etl/transforms/redcap_live_transform.py:528-537 | Every missing cell of a requested column that is present is replaced. |
| ValueTransforms.MapMissingIdempotent | modules/etl/transforms/redcap_live_transform.py:521-539 | Mapping missing values twice is the same as mapping them once. |
| ValueTransforms.MapMissingInColumn | modules/etl/transforms/redcap_live_transform.py:533-537 | The row loop leaves the frame holding `MapMissingAt` of the old frame. |
| ValueTransforms.MapMissingValuesByColumns | modules/etl/transforms/redcap_live_transform.py:521-539 | The nested loop returns the frame it was given, now holding `MapMissing` of the old frame. |
| ValueTransforms.TransformValues | modules/etl/transforms/redcap_live_transform.py:482-495 | Fails with KeyError exactly when the source column is absent. Otherwise the new column is overwritten, or appended when absent. Each of its cells is the source cell transformed: the missing value is kept, and a transform giving no value is filled with the missing value. Every other cell stays. |
| ValueTransforms.TransformValuesIdentity | modules/etl/transforms/redcap_live_transform.py:491-494 | The identity transform copies the column. |
| ValueTransforms.TransformValuesIdempotent | modules/etl/transforms/redcap_live_transform.py:482-495 | Transforming a column into itself twice is the same as once, when the transform is idempotent away from the missing value. |
| ValueTransforms.TransformCellIdempotent | modules/etl/transforms/redcap_live_transform.py:491-494 | The same holds for one cell. |
| ValueTransforms.TransformValuesByColumn | modules/etl/transforms/redcap_live_transform.py:482-495 | Fails exactly when the source column is absent, and then leaves the frame unchanged. Otherwise it returns the same frame, holding `TransformValues`' result. |
| Tables.Restrict | modules/etl/transforms/redcap_live_transform.py:296 | Dropping columns keeps the labels in the keep-set, in order, with every row and every kept cell unchanged. |
| Tables.SetColumn | modules/etl/transforms/redcap_live_transform.py:646 | `df[name] = values` overwrites an existing column or appends a new last one. The column then holds the values, and every other cell stays. |
| Tables.SelectColumns | modules/etl/transforms/redcap_live_transform.py:234-236 | `df[names]` fails with KeyError for a name that is not present. Otherwise it holds the named columns, in the order given. |
| Tables.Frame.constructor | modules/etl/transforms/redcap_live_transform.py:154 | A new frame holds the given table. |
| Annotations.NoneMap | modules/etl/transforms/redcap_live_transform.py:97-107 | The none map's keys are exactly the none texts, and each maps to the missing-value label. |
| Annotations.NumericOrText | modules/etl/transforms/redcap_live_transform.py:790-791 | Text that does not start with a digit or a dot stays text. Otherwise `int()` succeeds exactly on a decimal integer and gives that integer. |
| Annotations.ChoiceMapFailurePersists | modules/etl/transforms/redcap_live_transform.py:785-792 | A choice that fails to parse fails the whole choice list. |
| Annotations.ParseChoicesLoop | modules/etl/transforms/redcap_live_transform.py:785-792 | The choice loop computes exactly `ParseChoices`. |
| Annotations.ParseOptionLayout | modules/etl/transforms/redcap_live_transform.py:786-791 | A REDCap-laid-out choice parses to its integer code and its label. When nothing precedes the code, this also holds without stripping. Otherwise the unstripped code keeps its whitespace and stays text. |
| Annotations.CodeParse | modules/etl/transforms/redcap_live_transform.py:790 | The code, stripped or with nothing before it, parses as an integer. Otherwise it stays text with its whitespace. |
| Annotations.ChoicesRoundTrip | modules/etl/transforms/redcap_live_transform.py:785-792 | Rendering choices as `code, label | ...` and parsing back (code stripped) gives the value map they stand for. |
| Annotations.YesNoChoicesLayout | modules/etl/transforms/redcap_live_transform.py:785 | REDCap's `1, Yes | 2, No` is two well laid-out choices, and splitting it at the bar gives their pieces. |
| Annotations.LaterCodesKeepSpace | modules/etl/transforms/redcap_live_transform.py:785-792 | As written, a later choice's code keeps its leading space. That key differs from the bare code, so a cell holding the code finds no label. |
| Annotations.LaterCodesStripped | modules/etl/transforms/redcap_live_transform.py:785-792 | With the code stripped, both codes map to their labels. |
| Annotations.FieldAnnotation | modules/etl/transforms/redcap_live_transform.py:780-825 | Fails exactly for an enumerated field whose choices do not parse. There is an annotation exactly for an annotated type, carrying the field's name and type. |
| Annotations.FieldAnnotationOptions | modules/etl/transforms/redcap_live_transform.py:783-823 | Text and skipped types get an empty value map. Enumerated and yes/no fields get their choices united with the none map, and the none map's entries win. |
| Annotations.AnnotateFieldsFailurePersists | modules/etl/transforms/redcap_live_transform.py:779-825 | Once a field's choices fail, the extraction fails with that error. |
| Annotations.AnnotateFieldsFails | modules/etl/transforms/redcap_live_transform.py:779-825 | The field loop fails exactly when some present enumerated field has choices that do not parse. |
| Annotations.AnnotateFieldsExactly | modules/etl/transforms/redcap_live_transform.py:779-825 | Every annotation belongs to a present field, and every present field of an annotated type has its annotation. |
| Annotations.AnnotateFieldsSorted | modules/etl/transforms/redcap_live_transform.py:779 | Fields visited in name order give annotations in name order. |
| Annotations.TypeMetadataShape | modules/etl/transforms/redcap_live_transform.py:758-827 | Fails exactly on unparseable choices of a present field. Otherwise the three internal entries come first, then exactly one annotation per present field of an annotated type, sorted by field name. |
| Annotations.AnnotateField | modules/etl/transforms/redcap_live_transform.py:780-825 | The per-field branch computes exactly `FieldAnnotation`. |
| Annotations.ExtractTypeMetadata | modules/etl/transforms/redcap_live_transform.py:758-827 | The extraction loop computes exactly `TypeMetadata`. |
| DerivedColumns.NewColumnName | modules/etl/transforms/redcap_live_transform.py:641-645 | The derived column's name is the one given, or the keys joined by "_" when it is empty. |
| DerivedColumns.PositiveClass | modules/etl/transforms/redcap_live_transform.py:631-661 | Fails with KeyError (on a key) exactly when some key other than the new name has no column. Otherwise the derived column is overwritten or appended, and every other cell stays. |
| DerivedColumns.PositiveClassUnfold | modules/etl/transforms/redcap_live_transform.py:641-659 | The result is a KeyError for the first absent key. Otherwise it is the staged rewrite of the frame with the derived column emptied. |
| DerivedColumns.FinalStage | modules/etl/transforms/redcap_live_transform.py:656-659 | An empty derived cell becomes the all-negative value, then one trailing separator is removed. No other cell changes. |
| DerivedColumns.YesStageCell | modules/etl/transforms/redcap_live_transform.py:647-650 | The derived cell gains "label + separator" for each indicator holding "Yes", in map order. |
| DerivedColumns.DefaultStageCell | modules/etl/transforms/redcap_live_transform.py:651-655 | An empty derived cell becomes the default when some indicator holds the default. Any other cell stays. |
| DerivedColumns.PositiveValueMeaning | modules/etl/transforms/redcap_live_transform.py:647-659 | The derived cell holds the "Yes" labels joined by the separator. If there are none, it holds the default when some indicator holds it, and otherwise the all-negative value. Either of the last two loses one trailing separator. |
| DerivedColumns.PositiveClassCells | modules/etl/transforms/redcap_live_transform.py:631-661 | When every key is present and the new name is not a key, each row's derived cell is the value `PositiveValueMeaning` describes. |
| DerivedColumns.AppendYesLabels | modules/etl/transforms/redcap_live_transform.py:647-650 | The masked appends report the first absent key. Otherwise they leave every row at stage one. |
| DerivedColumns.FillDefault | modules/etl/transforms/redcap_live_transform.py:651-655 | The masked default assignments leave every row at stage two. |
| DerivedColumns.PositiveClassInPlace | modules/etl/transforms/redcap_live_transform.py:631-661 | Fails exactly when `PositiveClass` does, with its error. Otherwise it returns the same frame, holding `PositiveClass`' result. |
| DerivedColumns.PositiveClassWrapperAsWritten | modules/etl/transforms/redcap_live_transform.py:663-684 | The public wrapper is the transform with the all-negative value replaced by "". |
| DerivedColumns.PositiveWrapperDropsAllNegative | modules/etl/transforms/redcap_live_transform.py:663-684 | For a row with no "Yes" and no default, the wrapper leaves the derived cell empty, where the transform writes the all-negative value. |
| DerivedColumns.ArgMin | modules/etl/transforms/redcap_live_transform.py:698 | Picks a value nothing is below in Python's string order, and every value before it is greater (the order `idxmin` uses is under "Left out"). |
| DerivedColumns.NegativeClass | modules/etl/transforms/redcap_live_transform.py:686-699 | Fails exactly when a key has no column (KeyError), or when the map is empty and the frame has rows (ValueError). Otherwise the derived column is overwritten or appended, and every other cell stays. |
| DerivedColumns.NegativeClassMinimal | modules/etl/transforms/redcap_live_transform.py:698 | Each row's derived cell is the key of the first indicator with the smallest value in Python's string order. |
| DerivedColumns.NegativeClassInPlace | modules/etl/transforms/redcap_live_transform.py:686-699 | Fails exactly when `NegativeClass` does, with the frame unchanged. Otherwise it returns the same frame, holding `NegativeClass`' result. |
| Merging.KeyColumns | modules/etl/transforms/redcap_live_transform.py:241-243 | With `on`, the keys are `on` exactly when every key is on both sides. Otherwise the result is a KeyError on a missing key, and an empty `on` is a MergeError. Without `on`, the keys are the shared labels, and sharing none is a MergeError. |
| Merging.Join | modules/etl/transforms/redcap_live_transform.py:241-243 | Fails exactly when the keys do, with their error. Otherwise the result is well formed, with the joined labels and the rows for `how`. |
| Merging.JoinedColumnsUnsuffixed | modules/etl/transforms/redcap_live_transform.py:241-243 | With no shared non-key label, the joined labels are the left labels then the right non-key labels. |
| Merging.JoinedLabels | modules/etl/transforms/redcap_live_transform.py:241-243 | Key labels and labels only one side has keep their names, and left labels keep their positions. |
| Merging.JoinRowsWidth | modules/etl/transforms/redcap_live_transform.py:241-243 | Every joined row has one cell per joined label. |
| Merging.InnerJoinMembers | modules/etl/transforms/redcap_live_transform.py:241-243 | An inner join's rows are exactly the combinations of a left row and a right row holding the same key. |
| Merging.LeftJoinMembers | modules/etl/transforms/redcap_live_transform.py:241-243 | A left join's rows are exactly the matched pairs plus each partnerless left row padded with "nan". |
| Merging.LeftJoinKeepsLeftRows | modules/etl/transforms/redcap_live_transform.py:241-243 | Every left row begins some left-join row. |
| Merging.RightJoinMembers | modules/etl/transforms/redcap_live_transform.py:241-243 | A right join's rows are exactly the matched pairs plus each partnerless right row, padded. |
| Merging.OuterJoinMembers | modules/etl/transforms/redcap_live_transform.py:608 | An outer join's rows are exactly the matched pairs plus the partnerless rows of both sides. |
| Merging.OuterJoinSorted | modules/etl/transforms/redcap_live_transform.py:608 | An outer join's rows are sorted by key tuple. |
| Merging.TupleLessOrder | modules/etl/transforms/redcap_live_transform.py:608 | Python's tuple order on keys is a strict total order. |
| RepeatInstruments.AggregatorNamed | modules/etl/transforms/redcap_live_transform.py:605 | A known name selects its reduction, and any other name is an AttributeError. |
| RepeatInstruments.AggregatorNamedRoundTrip | modules/etl/transforms/redcap_live_transform.py:605 | Every reduction is found under its own name. |
| RepeatInstruments.Greatest | modules/etl/transforms/redcap_live_transform.py:605 | The result is one of the values, and no value is greater in Python string order. |
| RepeatInstruments.Least | modules/etl/transforms/redcap_live_transform.py:605 | The result is one of the values, and no value is smaller in Python string order. |
| RepeatInstruments.Reduce | modules/etl/transforms/redcap_live_transform.py:605 | The result is one of the group's instance values: for max, one no value exceeds; for min, one that exceeds no value; for first and last, the first and the last value. |
| RepeatInstruments.Pivot | modules/etl/transforms/redcap_live_transform.py:600-607 | A missing instance column is a KeyError, reported first; then the first missing index column. An unknown aggregator fails too. Otherwise the result is `PivotTable`, whose rows `PivotRowsRead` describes. |
| RepeatInstruments.PivotRowsRead | modules/etl/transforms/redcap_live_transform.py:600-607 | Each pivot row is an index tuple of the frame followed, per instrument, by the reduction of the instance values of that tuple and instrument, or by the fill value when there are none. |
| RepeatInstruments.KeyInPivot | modules/etl/transforms/redcap_live_transform.py:600-607 | The index tuple of every frame row is a key of the pivot. |
| RepeatInstruments.PivotKeysWidth | modules/etl/transforms/redcap_live_transform.py:600-607 | Every pivot row key is an index tuple of the frame, as wide as the index. |
| RepeatInstruments.InstrumentsMeaning | modules/etl/transforms/redcap_live_transform.py:599-603 | The new columns are the frame's instruments, each once, in Python string order. |
| RepeatInstruments.DropDuplicates | modules/etl/transforms/redcap_live_transform.py:609 | A subset label that is not present is a KeyError. Otherwise labels stay, and the kept rows are the first with each key. |
| RepeatInstruments.FirstOccurrencesDistinctKeys | modules/etl/transforms/redcap_live_transform.py:609 | No two kept rows share a key. |
| RepeatInstruments.FirstOccurrencesKeeps | modules/etl/transforms/redcap_live_transform.py:609 | Every row that no earlier row shares a key with is kept. |
| RepeatInstruments.FirstOccurrencesOnlyFirsts | modules/etl/transforms/redcap_live_transform.py:609 | Every kept row is the first row with its key. |
| RepeatInstruments.FirstOccurrencesCovers | modules/etl/transforms/redcap_live_transform.py:609 | Every key of the input is the key of a kept row. |
| RepeatInstruments.CollapseColumns | modules/etl/transforms/redcap_live_transform.py:608 | When no instrument is already a label, the collapsed frame has the frame's labels followed by one column per instrument. |
| RepeatInstruments.CollapseAllPartnered | modules/etl/transforms/redcap_live_transform.py:608 | Every frame row has a pivot row with its index tuple, and every pivot row a frame row, so the outer join adds no unmatched rows. |
| RepeatInstruments.CollapseRowMatch | modules/etl/transforms/redcap_live_transform.py:608-609 | Every collapsed row is a frame row followed by the aggregated cells of the pivot row with the same index tuple. |
| RepeatInstruments.CollapseCells | modules/etl/transforms/redcap_live_transform.py:599-609 | In every collapsed row, the cell of each instrument is the aggregate of the instance values of that row's index tuple and that instrument, or the fill value when there are none. |
| RepeatInstruments.CollapseUniqueIndex | modules/etl/transforms/redcap_live_transform.py:608-609 | No two rows of the collapsed frame share an index tuple. |
| RepeatInstruments.CollapseKeepsFirst | modules/etl/transforms/redcap_live_transform.py:608-609 | The collapsed rows are exactly the first joined row of each index tuple. |
| RepeatInstruments.CastColumn | modules/etl/transforms/redcap_live_transform.py:611 | Fails with KeyError or ValueError. Succeeds exactly when the column exists and the cast accepts every cell, and then only that column's cells become their casts. |
| RepeatInstruments.CastColumns | modules/etl/transforms/redcap_live_transform.py:610-611 | Fails only with KeyError or ValueError. Success keeps the labels and the row count. |
| RepeatInstruments.CastColumnsFailurePersists | modules/etl/transforms/redcap_live_transform.py:610-611 | Once a column fails to cast, casting the remaining columns fails with that error. |
| RepeatInstruments.CastColumnsCells | modules/etl/transforms/redcap_live_transform.py:610-611 | Casting distinct columns casts every cell of those columns once and leaves every other cell as it was. |
| RepeatInstruments.CastColumnsKeepsText | modules/etl/transforms/redcap_live_transform.py:610-611 | A cast that keeps each accepted cell's text leaves the frame unchanged. |
| RepeatInstruments.CastNewColumns | modules/etl/transforms/redcap_live_transform.py:610-611 | The cast loop fails exactly when `CastColumns` does. Otherwise it returns the same frame, holding `CastColumns`' result. |
| RepeatInstruments.FloatCast | modules/etl/transforms/redcap_live_transform.py:596 | An accepted cell keeps its text. |
| RepeatInstruments.AggregateWithFloat | modules/etl/transforms/redcap_live_transform.py:596-611 | With the default float cast, the transform equals the pivot, join and first-row collapse. |
| RepeatInstruments.Aggregate | modules/etl/transforms/redcap_live_transform.py:592-612 | A successful aggregation gives a well-formed table. |
| RepeatInstruments.AggregateCells | modules/etl/transforms/redcap_live_transform.py:592-612 | In every row of the result, the cell of each instrument is the cast of the aggregate of that row's index tuple and that instrument, or of the fill value when there are none. |
| RepeatInstruments.AggregateRepeatInstrumentByIndex | modules/etl/transforms/redcap_live_transform.py:592-612 | Fails exactly when `Aggregate` does. Otherwise it returns a fresh frame holding `Aggregate`'s result. |
| Interpreter.OpNamed | modules/etl/transforms/redcap_live_transform.py:279 | A name selects only a transform that carries that name. |
| Interpreter.OpNamedRoundTrip | modules/etl/transforms/redcap_live_transform.py:279 | Every transform is found under its own name, and no two transforms share one. |
| Interpreter.OpNamedExactly | modules/etl/transforms/redcap_live_transform.py:279 | A name selects a transform exactly when it is some transform's name. |
| Interpreter.Build | modules/etl/transforms/redcap_live_transform.py:289-698 | Reading the arguments builds the named transform, or fails only with TypeError. |
| Interpreter.Bind | modules/etl/transforms/redcap_live_transform.py:279 | An unknown name is an AttributeError on "_" + name. An unexpected keyword or a missing required argument is a TypeError. A binding succeeds only for the transform with that name. |
| Interpreter.BindNamed | modules/etl/transforms/redcap_live_transform.py:279 | Binding checks unexpected keywords, then missing required arguments, then reads the arguments. |
| Interpreter.BindAccepted | modules/etl/transforms/redcap_live_transform.py:279 | Keywords that are all parameters and name every required one bind exactly as the method reads them. |
| Interpreter.BindEncode | modules/etl/transforms/redcap_live_transform.py:279 | A transform's keyword encoding binds back to that same transform. |
| Interpreter.NegativeClassRejectsAnnotation | modules/etl/transforms/redcap_live_transform.py:686-692 | The negative-class method has no `annotation` parameter, so a call passing one is a TypeError. |
| Interpreter.AnnotationParameter | modules/etl/transforms/redcap_live_transform.py:289-640 | `annotation` is never required, and every transform except the negative class takes it. |
| Interpreter.AnnotationIgnored | modules/etl/transforms/redcap_live_transform.py:266 | For transforms other than the remap and the negative class, adding an `annotation` keyword changes nothing. |
| Interpreter.BuildIgnoresAnnotation | modules/etl/transforms/redcap_live_transform.py:289-698 | Only the remap reads the `annotation` argument. |
| Interpreter.DefaultCallIsNoOp | modules/etl/transforms/redcap_live_transform.py:289-569 | Called with no arguments, drop/keep columns, suffix, prefix and drop rows leave the frame as it is. |
| Interpreter.Apply | modules/etl/transforms/redcap_live_transform.py:279 | Agrees with `ApplySpec`, including its errors. In-place transforms, among them suffix and prefix, return the frame they were given; the others return a fresh frame and leave that one unchanged. |
| Interpreter.ApplySpec | modules/etl/transforms/redcap_live_transform.py:279 | A transform that succeeds gives a well-formed table. |
| Interpreter.ApplyTransformSpec | modules/etl/transforms/redcap_live_transform.py:273-279 | A call that binds and succeeds gives a well-formed table. |
| Interpreter.Reshape | modules/etl/transforms/redcap_live_transform.py:289-569 | Drop columns, keep columns and drop rows never fail and return a fresh frame holding their specification. |
| Interpreter.Rewrite | modules/etl/transforms/redcap_live_transform.py:406-699 | The cell-rewriting transforms agree with their specification and return the frame they were given. |
| Interpreter.ApplyTransform | modules/etl/transforms/redcap_live_transform.py:273-279 | Agrees with `ApplyTransformSpec`, including its errors. It returns the same frame exactly for in-place transforms, and otherwise a fresh one with the argument unchanged. |
| Pipeline.ReadConfig | modules/etl/transforms/redcap_live_transform.py:22-61 | Fails exactly when an API setting is absent: a KeyError on the URL first, then on the key. |
| Pipeline.ReadConfigDefaults | modules/etl/transforms/redcap_live_transform.py:28-61 | A configuration naming only the API gets the documented defaults. |
| Pipeline.ReadConfigKeepsGiven | modules/etl/transforms/redcap_live_transform.py:28-61 | Every key that is present is taken as given. |
| Pipeline.ExportOptions | modules/etl/transforms/redcap_live_transform.py:135-147 | The export options are the user options and the fixed ones, and the fixed ones win on a clash. |
| Pipeline.SetupReport | modules/etl/transforms/redcap_live_transform.py:146-158 | A missing `report_id` is a KeyError. Otherwise it succeeds exactly when annotation does, storing the id, the exported table, the transforms and the annotation. |
| Pipeline.SetupReports | modules/etl/transforms/redcap_live_transform.py:143-158 | Every configured key is stored, and the key order lists each stored key once. |
| Pipeline.AddReport | modules/etl/transforms/redcap_live_transform.py:152-158 | One pass stores the report under its key, or fails with the report's error. |
| Pipeline.SetupLastWins | modules/etl/transforms/redcap_live_transform.py:152 | A key's stored report comes from the last configuration with that key. |
| Pipeline.SetupFailurePersists | modules/etl/transforms/redcap_live_transform.py:143-158 | Once a report fails to set up, the setup fails with that error. |
| Pipeline.SetupLoop | modules/etl/transforms/redcap_live_transform.py:143-158 | Agrees with `SetupReports`. Each stored report gets a fresh frame of its own holding its exported table, with nothing transformed yet. |
| Pipeline.InterpClosed | modules/etl/transforms/redcap_live_transform.py:273-279 | Every transform keeps tables well formed. |
| Pipeline.Extend | modules/etl/transforms/redcap_live_transform.py:264-269 | One call: the transformed table is the call's result. The raw table follows it while both are one object and every step has been in place. |
| Pipeline.FoldEmpty | modules/etl/transforms/redcap_live_transform.py:263 | An empty transform list leaves the transformed table as the raw one. |
| Pipeline.FoldWellFormed | modules/etl/transforms/redcap_live_transform.py:263-269 | Both tables of a report stay well formed. |
| Pipeline.FoldAliasing | modules/etl/transforms/redcap_live_transform.py:263-269 | Raw and transformed stay one object exactly while every step has been in place, and then they are equal. |
| Pipeline.FoldKeepsRawAfterCopy | modules/etl/transforms/redcap_live_transform.py:263-269 | When the first step copies, the exported table is never touched. |
| Pipeline.FoldFailurePersists | modules/etl/transforms/redcap_live_transform.py:264-269 | Once a transform fails, the report's list fails with that error. |
| Pipeline.NegativeClassFailsInReport | modules/etl/transforms/redcap_live_transform.py:266 | A report's list calling the negative class always fails. |
| Pipeline.TransformReports | modules/etl/transforms/redcap_live_transform.py:160-163 | A successful run has an outcome for exactly the reports in order. |
| Pipeline.TransformReportsOutcomes | modules/etl/transforms/redcap_live_transform.py:160-163 | Each report's outcome is its own transform list run on its own table. |
| Pipeline.TransformReportsWellFormed | modules/etl/transforms/redcap_live_transform.py:160-163 | Every transformed table is well formed. |
| Pipeline.TransformReportsFails | modules/etl/transforms/redcap_live_transform.py:160-163 | A report whose list fails stops the whole run. |
| Pipeline.TransformFailurePersists | modules/etl/transforms/redcap_live_transform.py:160-163 | Once a report's transforms fail, the later reports do not change the outcome. |
| Pipeline.NegativeClassStopsReports | modules/etl/transforms/redcap_live_transform.py:160-163 | A negative-class call in any report makes the run fail. |
| Pipeline.JoinAllMissing | modules/etl/transforms/redcap_live_transform.py:239-240 | A merge step naming a report that was not set up fails the merge. |
| Pipeline.JoinAll | modules/etl/transforms/redcap_live_transform.py:239-243 | A chain of joins that succeeds gives a well-formed table. |
| Pipeline.MergeReports | modules/etl/transforms/redcap_live_transform.py:224-249 | No steps is an IndexError. A first step naming an unknown report is a KeyError. A result is well formed. |
| Pipeline.MergeTransformed | modules/etl/transforms/redcap_live_transform.py:224-249 | The merge loop computes exactly `MergeReports`. |
| Pipeline.JoinFailurePersists | modules/etl/transforms/redcap_live_transform.py:239-243 | Once a join fails, the merge fails with that error. |
| Pipeline.DefaultMergeFails | modules/etl/transforms/redcap_live_transform.py:36-40 | Without `post_transform_merge`, the constructor always fails: the default has no merge step to read. |
| Pipeline.ApplyReportTransforms | modules/etl/transforms/redcap_live_transform.py:256-271 | Agrees with `Fold`. The exported frame ends up holding `Fold`'s raw table. The result is the exported frame itself exactly while all steps were in place, and otherwise a fresh frame. |
| Pipeline.TransformOne | modules/etl/transforms/redcap_live_transform.py:162-163 | One report's transforms change only that report's frame, and the loop keeps its progress with that report done. |
| Pipeline.TransformLoop | modules/etl/transforms/redcap_live_transform.py:160-163 | Agrees with `TransformReports`. Every finished report holds its outcome. |
| Pipeline.RunReports | modules/etl/transforms/redcap_live_transform.py:143-163 | Setup and report loop together agree with `Reports`. |
| Pipeline.Reports | modules/etl/transforms/redcap_live_transform.py:143-163 | After setup and the report loop, every stored report has an outcome, and every transformed table is well formed. |
| Pipeline.Finish | modules/etl/transforms/redcap_live_transform.py:165-175 | Merging and the post-merge transforms give a well-formed table. |
| Pipeline.Init | modules/etl/transforms/redcap_live_transform.py:12-179 | A constructed engine holds a well-formed merged table and one outcome per stored report. |
| Pipeline.RunFinish | modules/etl/transforms/redcap_live_transform.py:165-175 | Merge and post-merge transforms agree with `Finish`, on a fresh frame. |
| Pipeline.Engine.GetReportId | modules/etl/transforms/redcap_live_transform.py:185-189 | Succeeds exactly for a stored key, and is a KeyError otherwise. |
| Pipeline.Engine.GetReportDf | modules/etl/transforms/redcap_live_transform.py:191-195 | Succeeds exactly for a stored key, and is a KeyError otherwise. |
| Pipeline.Engine.GetReportTransformedDf | modules/etl/transforms/redcap_live_transform.py:197-202 | Succeeds exactly for a stored key, and is a KeyError otherwise. |
| Pipeline.Engine.GetReportTransforms | modules/etl/transforms/redcap_live_transform.py:204-211 | Succeeds exactly for a stored key, and is a KeyError otherwise. |
| Pipeline.Engine.GetReportAnnotationsAsWritten | modules/etl/transforms/redcap_live_transform.py:213-218 | Always fails: a KeyError on "annotations" for a stored key, and on the key otherwise. |
| Pipeline.Engine.GetReportAnnotations | modules/etl/transforms/redcap_live_transform.py:213-218 | Reading the stored key succeeds exactly for a stored report. |
| Pipeline.Engine.Run | modules/etl/transforms/redcap_live_transform.py:12-179 | Fails exactly when `Init` does, with the same error. Otherwise it returns a fresh engine holding what `Init` describes. |
| Pipeline.GettersAfterRun | modules/etl/transforms/redcap_live_transform.py:185-218 | After construction, each getter answers from the stored reports (id, frames, transforms, annotation), and an unknown key is a KeyError. The as-written annotation getter always fails. |
| Pipeline.FileNamesDistinct | modules/etl/transforms/redcap_live_transform.py:834-877 | For one extension, distinct reports write distinct files, and raw, transformed and merged file names never coincide. |
| Identifiers.Primary | model/study_metadata/identifiers.py:16-31 | There is no primary exactly when every identification is secondary. Otherwise the primary is a non-secondary input. |
| Identifiers.Secondary | model/study_metadata/identifiers.py:32-36 | Every listed identification is a secondary input. |
| Identifiers.ToDict | model/study_metadata/identifiers.py:10-37 | The primary is none exactly when all are secondary, and otherwise the dictionary of a non-secondary input. The secondary list is the dictionaries of `Secondary`, in order. |
| Identifiers.ToDictPrimary | model/study_metadata/identifiers.py:10-31 | The primary entry is the dictionary of the non-secondary identification created first, and among those created at that time, the first in input order. |
| Identifiers.SecondaryExactly | model/study_metadata/identifiers.py:11-36 | The secondary list is the secondary inputs stably sorted by creation time. It is a permutation of them, and sorted. |
| Identifiers.SecondaryStable | model/study_metadata/identifiers.py:11-14 | Secondary identifications created at the same time keep their input order. |
| Sorting.SortStable | model/study_metadata/identifiers.py:11-14 | Sorting keeps the input order of items whose keys are equal. |
| Identifiers.PrimaryEarliest | model/study_metadata/identifiers.py:11-31 | The primary was created no later than any candidate, and strictly before every candidate ahead of it in input order. |
| Identifiers.PrimaryIsSortHead | model/study_metadata/identifiers.py:11-31 | The primary is the head of the candidates sorted by creation time. |
| Identifiers.PrimaryApart | model/study_metadata/identifiers.py:15-36 | The primary is never in the secondary list, and no other non-secondary identification is in it either. |

## Left out

- Network access: the REDCap API calls (metadata and report export) become parameters. The metadata is the field list `schema`, and the report export is a function `fetch` from export options to a table.
- Logging, the `print` banner, the working directory and the CSV files written during setup (line 150) are not modelled.
- Exports: only the file names are modelled (`RawFileName`, `TransformedFileName`, `MergedFileName`). Writing CSV, quoting and float formatting are not.
- Cells are text, as in frames built with `dtype = str`. The float cast of the repeat-instrument transform accepts decimal numerals and "nan" and keeps the text. The integer `dtype` arguments of the class transforms are read but never applied, as in the source.
- RepeatInstruments.Reduce: instance numbers are compared as strings, and only the reductions max, min, first and last are modelled. Any other aggregator name is treated as unknown.
- Interpreter.Build: an argument of the wrong kind is a TypeError at binding time. Python would fail later, or not at all.
- Merging.Join: only the `how` and `on` merge keywords are modelled. Other `merge` keywords are left out, and so is pandas' row order beyond its documented rule.
- Pipeline.SetupReport: a missing `report_id` is a KeyError. The fetch is assumed to succeed, and the report configuration is assumed to have `key`, `kwdargs` and `transforms`. Its annotations come from the stripped choice parse, as under Annotations.FieldAnnotation.
- Pipeline.MergeReports: it performs one join per step, the first step included, as the code does. The docstring says N - 1. With no steps, reading the first step raises IndexError, so the warning branch cannot be reached.
- ColumnResolution.Resolve: when some requested names are absent, the source lists the present ones in set order. The model lists them in frame order.
- ValueTransforms.RemapValuesByColumns and ValueTransforms.MapMissingValuesByColumns: `df.loc[i, column]` writes by row label. The model writes by row position, which is the same for the exported frames' row labels 0..n-1 but not after rows were dropped.
- Pipeline.Interp: a table whose rows differ in length is never passed to a transform. This case is unreachable for exported tables, so it is not modelled.
- Pipeline.Engine.Run: when construction fails, nothing is stated about partly built state.
- ColumnTransforms.AppendColumnSuffix: follows the code's `default_columns=[]` (line 340), so a request naming no present column renames nothing (`Interpreter.DefaultCallIsNoOp`). The docstring at 353-356 says every column is renamed then. The rename itself is the documented one (label + separator + suffix, cells kept), not the statement at 341-343 as written (see Findings).
- ColumnTransforms.PrependColumnPrefix: the same as for the suffix. With no present column requested nothing is renamed (line 377), against the docstring at 390-393, and the documented rename replaces the statement at 378-380.
- Annotations.FieldAnnotation: the engine parses choices with the code stripped, the corrected half of the Findings row for 786-792 (`ParseChoices`, not `ParseChoicesAsWritten`). Two things change. With `1, Yes | 2, No` the source stores the key " 2" and the model "2", so a later remap of cell "2" gives "" in the source and "No" in the model. With `1, Yes | 1.5, Half` the source keeps " 1.5" as text and succeeds, where the model raises ValueError. The same holds for Annotations.ParseChoicesLoop, Annotations.AnnotateField, Annotations.FieldAnnotationOptions, Annotations.AnnotateFieldsFails, Annotations.TypeMetadataShape, Annotations.ExtractTypeMetadata and Pipeline.SetupReport.
- Annotations.ParseChoicesLoop: runs the stripped parse, as under Annotations.FieldAnnotation.
- Annotations.AnnotateField: builds on the stripped parse, as under Annotations.FieldAnnotation.
- Annotations.FieldAnnotationOptions: the union is over the stripped parse's map, as under Annotations.FieldAnnotation.
- Annotations.AnnotateFieldsFails: "fails exactly when the choices do not parse" is stated for the stripped parse, as under Annotations.FieldAnnotation.
- Annotations.TypeMetadataShape: its failure condition and maps are the stripped parse's, as under Annotations.FieldAnnotation.
- Annotations.ExtractTypeMetadata: equals `TypeMetadata`, which runs the stripped parse, as under Annotations.FieldAnnotation.
- Annotations.NumericOrText: exact for codes whose digits are ASCII and carry no underscores. Python's `int()` also accepts "1_0" and non-ASCII digits after an ASCII first digit; the model raises ValueError for those. Whitespace is handled as in the source: a code with a leading space does not start numeric and stays text, and trailing whitespace is stripped as `int()` strips it.
- DerivedColumns.FinalStage: removes one literal trailing separator. The source builds the regular expression `\{sep}$` from the separator (lines 657-658), which is the same for a single non-alphanumeric character such as the default "|" on a cell without a trailing newline. For " | " that expression deletes every space, for "" every "$", and for "d" a trailing digit; the model does not follow those.
- DerivedColumns.PositiveValueMeaning: "loses one trailing separator" holds under the same conditions as DerivedColumns.FinalStage.
- DerivedColumns.NegativeClass: each row's key is chosen by `ArgMin`, the first smallest indicator cell in Python's string order. The source's `idxmin(axis=1)` at line 698 differs in three ways, and the model follows none of them. On the text columns of frames built with `dtype = str` (line 154) pandas refuses `argmin` on object columns with TypeError, where the model returns a key. On columns already cast to float by the repeat-instrument aggregate (line 611), `idxmin` compares numbers, so cells "9" and "10" pick the "9" column where the model picks the "10" column. And `idxmin` skips NaN cells, where the model compares the text "nan" like any other cell. Reports never reach this transform (Pipeline.NegativeClassFailsInReport); the post-merge transforms (lines 172-175) and the public wrapper (lines 701-719) do. The same holds for DerivedColumns.ArgMin, DerivedColumns.NegativeClassMinimal and DerivedColumns.NegativeClassInPlace.
- DerivedColumns.ArgMin: orders cells as text, as under DerivedColumns.NegativeClass.
- DerivedColumns.NegativeClassMinimal: "smallest" is Python string order over the cells, NaN cells included, not `idxmin`'s numeric, NaN-skipping order or its TypeError on text columns, as under DerivedColumns.NegativeClass.
- DerivedColumns.NegativeClassInPlace: fails exactly when DerivedColumns.NegativeClass does, so it succeeds on text columns where the source raises TypeError and orders cells as text, as under DerivedColumns.NegativeClass.
- Interpreter.Bind: every name that is not a transform is an AttributeError. In the source, `getattr(self, f"_{name}")` at line 279 also finds the engine's other private members: the methods `merge_reports`, `apply_report_transforms`, `resolve_columns_with_dataframe` and `get_redcap_type_metadata`, the dicts `field_rgx` and `default_report_kwdargs`, and dunder methods such as `init__`. Those raise TypeError, or in the case of `resolve_columns_with_dataframe` after the merge may even succeed; the model does not follow them.
- The survey instrument map and the regular expressions for text types are defined but never read by the core, so they are not modelled.

## Findings

| source | as written | input that shows it | evidently intended | confidence | as-written member | corrected member |
|---|---|---|---|---|---|---|
| modules/etl/transforms/redcap_live_transform.py:341-343 | `rename(mapper=...)` without an axis relabels the rows, and the assignment then loses every cell of the resolved columns | frame `a = [1]`, suffix "s" on column `a` | column `a` renamed to `as`, cells kept, as the docstring at 353-360 says | high, not executed | ColumnTransforms.SuffixAsWrittenLosesCells | ColumnTransforms.AppendColumnSuffix |
| modules/etl/transforms/redcap_live_transform.py:378-380 | the same row relabelling for the prefix | frame `a = [1]`, prefix "p" on column `a` | column `a` renamed to `pa`, as the docstring at 390-397 says | high, not executed | ColumnTransforms.PrefixAsWrittenLosesCells | ColumnTransforms.PrependColumnPrefix |
| modules/etl/transforms/redcap_live_transform.py:580 | `drop_rows` takes a condition but does not pass it on | a row with cell "x" and the condition "cell is x" | the row is dropped | high, not executed | RowTransforms.DropRowsWrapperIgnoresCondition | RowTransforms.DropRows |
| modules/etl/transforms/redcap_live_transform.py:678-684 | `new_column_from_binary_columns_positive_class` takes `all_negative_value` but does not pass it on | a row with no "Yes" and no indicator equal to the default | the derived cell holds the all-negative value | high, not executed | DerivedColumns.PositiveWrapperDropsAllNegative | DerivedColumns.PositiveValueMeaning |
| modules/etl/transforms/redcap_live_transform.py:786-792 | the code before the comma is not stripped, so a code after `| ` keeps its space and stays text | choices `1, Yes | 2, No` give key `" 2"`, and a cell `2` finds no label | key `2` maps to `No` | high, not executed | Annotations.LaterCodesKeepSpace | Annotations.LaterCodesStripped |
| modules/etl/transforms/redcap_live_transform.py:218 | `get_report_annotations` reads `"annotations"`, but the report stores `"annotation"` (line 157) | any stored report key | the report's annotation list is returned | high, not executed | Pipeline.Engine.GetReportAnnotationsAsWritten | Pipeline.Engine.GetReportAnnotations |
