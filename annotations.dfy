/** Annotation extraction (`_get_redcap_type_metadata`): for each column of a
    report, the REDCap field's name, type and value map, where a value map
    sends a raw code to its label. */
module Annotations {
  import opened Results
  import opened Seqs
  import opened Text
  import opened Sorting

  /** A value-map label: text, or an integer when the label text starts with a
      digit or a dot (`int(v)`); `digits` is the integer printed by Python. */
  datatype Label = Str(text: string) | Num(digits: string)

  datatype Annotation = Annotation(name: string, fieldType: string, options: map<string, Label>)

  /** One entry of the project metadata: field name, field type and the
      `select_choices_or_calculations` text. */
  datatype FieldDef = FieldDef(fieldName: string, fieldType: string, choices: string)

  /** The texts in the engine's list of values meaning "no value": the
      missing-value label itself among them. */
  function SentinelTexts(generic: string): seq<string> {
    ["nan", "NaN", "-", "", generic]
  }

  /** The none map: every sentinel text maps to the missing-value label. */
  function NoneMap(generic: string): (m: map<string, Label>)
    ensures forall k :: k in m <==> k in SentinelTexts(generic)
    ensures forall k | k in m :: m[k] == Str(generic)
  {
    map k | k in SentinelTexts(generic) :: Str(generic)
  }

  /** A code or label as the parser keeps it: text starting with a digit or a
      dot goes through `int()`, which raises ValueError unless the text is a
      decimal integer; any other text stays text. */
  function NumericOrText(s: string): (r: Result<Label>)
    ensures !StartsNumeric(s) ==> r == Success(Str(s))
    ensures StartsNumeric(s) ==> (r.Success? <==> IntText(s).Some?)
    ensures StartsNumeric(s) && r.Success? ==> r.value == Num(IntText(s).value)
  {
    if StartsNumeric(s) then
      match IntText(s)
      case Some(d) => Success(Num(d))
      case None => Failure(ValueError(s))
    else Success(Str(s))
  }

  /** `str(_k)`: the text of a parsed code. */
  function KeyText(l: Label): string {
    match l
    case Str(s) => s
    case Num(d) => d
  }

  /** One `code, label` choice: the code is the text before the first comma,
      the label everything after it, stripped. The source does not strip the
      code; `stripCode` selects between that and the stripped code. */
  function ParseOption(option: string, stripCode: bool): Result<(string, Label)> {
    var parts := Split(option, ',');
    var code := if stripCode then Strip(parts[0]) else parts[0];
    var name := Strip(Join(parts[1..], ","));
    var k :- NumericOrText(code);
    var v :- NumericOrText(name);
    Success((KeyText(k), v))
  }

  /** The value map of a list of choices, read left to right; a later choice
      with the same code replaces an earlier one. */
  function ChoiceMap(options: seq<string>, stripCode: bool): Result<map<string, Label>> {
    if |options| == 0 then Success(map[])
    else
      var m :- ChoiceMap(options[..|options| - 1], stripCode);
      var kv :- ParseOption(options[|options| - 1], stripCode);
      Success(m[kv.0 := kv.1])
  }

  /** Once a prefix of the choices fails, the whole list fails with that error. */
  lemma {:induction false} ChoiceMapFailurePersists(options: seq<string>, stripCode: bool, k: nat)
    requires k <= |options| && ChoiceMap(options[..k], stripCode).Failure?
    ensures ChoiceMap(options, stripCode) == ChoiceMap(options[..k], stripCode)
    decreases |options| - k
  {
    if k < |options| {
      assert options[..k + 1][..k] == options[..k];
      ChoiceMapFailurePersists(options, stripCode, k + 1);
    } else {
      assert options[..k] == options;
    }
  }

  /** One more choice: its parse result, added to the map so far. */
  lemma ChoiceMapStep(options: seq<string>, stripCode: bool, k: nat)
    requires k < |options| && ChoiceMap(options[..k], stripCode).Success?
    ensures var kv := ParseOption(options[k], stripCode);
      ChoiceMap(options[..k + 1], stripCode) ==
        if kv.Failure? then Failure(kv.error)
        else Success(ChoiceMap(options[..k], stripCode).value[kv.value.0 := kv.value.1])
  {
    assert options[..k + 1][..k] == options[..k];
  }

  /** The value map of a choice string with the code stripped. */
  function ParseChoices(choices: string): Result<map<string, Label>> {
    ChoiceMap(Split(choices, '|'), true)
  }

  /** The value map of a choice string as the source reads it: the code keeps
      the whitespace around it. */
  function ParseChoicesAsWritten(choices: string): Result<map<string, Label>> {
    ChoiceMap(Split(choices, '|'), false)
  }

  /** The choice loop of the extraction: the value map of the `|`-separated
      choices, read left to right, or the first error. */
  method ParseChoicesLoop(choices: string) returns (r: Result<map<string, Label>>)
    ensures r == ParseChoices(choices)
  {
    var options := Split(choices, '|');
    var m: map<string, Label> := map[];
    var k := 0;
    while k < |options|
      invariant 0 <= k <= |options|
      invariant ChoiceMap(options[..k], true) == Success(m)
    {
      var kv := ParseOption(options[k], true);
      ChoiceMapStep(options, true, k);
      if kv.Failure? {
        ChoiceMapFailurePersists(options, true, k + 1);
        return Failure(kv.error);
      }
      m := m[kv.value.0 := kv.value.1];
      k := k + 1;
    }
    assert options[..k] == options;
    return Success(m);
  }

  /** One choice as REDCap lays it out: whitespace, a decimal code, a comma
      and a space, a label, whitespace. */
  datatype Choice = Choice(before: string, code: string, text: string, after: string)

  ghost predicate WellLaidOut(c: Choice) {
    && AllSpace(c.before) && AllSpace(c.after)
    && |c.code| > 0 && AllDigits(c.code)
    && (c.text == [] || (!IsSpace(c.text[0]) && !IsSpace(c.text[|c.text| - 1])))
    && !StartsNumeric(c.text) && '|' !in c.text
  }

  function Piece(c: Choice): string {
    c.before + c.code + ", " + c.text + c.after
  }

  function Pieces(cs: seq<Choice>): (ps: seq<string>)
    ensures |ps| == |cs|
    ensures forall k | 0 <= k < |cs| :: ps[k] == Piece(cs[k])
  {
    seq(|cs|, k requires 0 <= k < |cs| => Piece(cs[k]))
  }

  /** The choice string `code, label | code, label | ...`. */
  function Render(cs: seq<Choice>): string {
    Join(Pieces(cs), "|")
  }

  /** The value map a list of choices stands for: each code, as an integer,
      sends to its label; a later code replaces an earlier equal one. */
  function Intended(cs: seq<Choice>): map<string, Label>
    requires forall c | c in cs :: WellLaidOut(c)
  {
    if |cs| == 0 then map[]
    else
      var c := cs[|cs| - 1];
      assert c in cs && WellLaidOut(c);
      Intended(cs[..|cs| - 1])[DropLeadingZeros(c.code) := Str(c.text)]
  }

  lemma SpaceNotNumeric(c: char)
    requires IsSpace(c)
    ensures !IsDigit(c) && c != '.' && c != ',' && c != '|'
  {
  }

  /** A well laid-out choice splits at its first comma into the padded code
      and the rest, and the rest, rejoined and stripped, is the label. */
  lemma PieceSplit(c: Choice)
    requires WellLaidOut(c)
    ensures var parts := Split(Piece(c), ',');
      parts[0] == c.before + c.code && Strip(Join(parts[1..], ",")) == c.text
  {
    var p := c.before + c.code;
    var rest := " " + c.text + c.after;
    assert Piece(c) == p + [','] + rest;
    forall k | 0 <= k < |p| ensures p[k] != ',' {
      if k < |c.before| {
        SpaceNotNumeric(p[k]);
      } else {
        assert p[k] == c.code[k - |c.before|];
      }
    }
    SplitAtFirst(p, ',', rest);
    JoinSplit(rest, ',');
    assert AllSpace(" ");
    StripPadded(" ", c.text, c.after);
  }

  /** The code of a well laid-out choice: stripped, or with nothing in front
      of it, it is an integer; otherwise its leading whitespace makes it text. */
  lemma CodeParse(c: Choice, stripCode: bool)
    requires WellLaidOut(c)
    ensures var p := c.before + c.code;
      NumericOrText(if stripCode then Strip(p) else p) ==
        if stripCode || c.before == [] then Success(Num(DropLeadingZeros(c.code)))
        else Success(Str(p))
  {
    var p := c.before + c.code;
    CodeAloneParses(c);
    if stripCode {
      CodeStripped(c);
    } else if c.before == [] {
      assert p == c.code;
    } else {
      SpaceNotNumeric(p[0]);
    }
  }

  /** The bare code of a well laid-out choice parses as its integer. */
  lemma CodeAloneParses(c: Choice)
    requires WellLaidOut(c)
    ensures NumericOrText(c.code) == Success(Num(DropLeadingZeros(c.code)))
  {
    assert !IsSpace(c.code[0]) && !IsSpace(c.code[|c.code| - 1]);
    StripUnpadded(c.code);
  }

  /** Stripping the code with its leading whitespace leaves the code. */
  lemma CodeStripped(c: Choice)
    requires WellLaidOut(c)
    ensures Strip(c.before + c.code) == c.code
  {
    assert !IsSpace(c.code[0]) && !IsSpace(c.code[|c.code| - 1]);
    assert AllSpace([]);
    StripPadded(c.before, c.code, []);
    assert c.before + c.code + [] == c.before + c.code;
  }

  /** How one well laid-out choice parses: the stripped code gives the
      integer code; the unstripped code does too when nothing precedes it,
      but keeps its whitespace (and stays text) otherwise. */
  lemma ParseOptionLayout(c: Choice, stripCode: bool)
    requires WellLaidOut(c)
    ensures ParseOption(Piece(c), stripCode) ==
      if stripCode || c.before == [] then Success((DropLeadingZeros(c.code), Str(c.text)))
      else Success((c.before + c.code, Str(c.text)))
  {
    PieceSplit(c);
    CodeParse(c, stripCode);
    assert NumericOrText(c.text) == Success(Str(c.text));
  }

  lemma {:induction false} ChoiceMapLayout(cs: seq<Choice>)
    requires forall c | c in cs :: WellLaidOut(c)
    ensures ChoiceMap(Pieces(cs), true) == Success(Intended(cs))
  {
    if |cs| > 0 {
      var init := cs[..|cs| - 1];
      assert Pieces(cs)[..|cs| - 1] == Pieces(init);
      ChoiceMapLayout(init);
      assert cs[|cs| - 1] in cs;
      ParseOptionLayout(cs[|cs| - 1], true);
    }
  }

  lemma PieceNoBar(c: Choice)
    requires WellLaidOut(c)
    ensures '|' !in Piece(c)
  {
    var p := Piece(c);
    forall j | 0 <= j < |p| ensures p[j] != '|' {
      var b, d := |c.before|, |c.code|;
      if j < b {
        SpaceNotNumeric(c.before[j]);
      } else if j < b + d {
        assert p[j] == c.code[j - b];
      } else if j < b + d + 2 + |c.text| {
      } else {
        SpaceNotNumeric(c.after[j - (b + d + 2 + |c.text|)]);
      }
    }
  }

  /** A choice string in REDCap's layout, with decimal codes and text labels,
      parses (codes stripped) to the value map it stands for. */
  lemma ChoicesRoundTrip(cs: seq<Choice>)
    requires |cs| >= 1 && forall c | c in cs :: WellLaidOut(c)
    ensures ParseChoices(Render(cs)) == Success(Intended(cs))
  {
    var ps := Pieces(cs);
    forall k | 0 <= k < |ps| ensures '|' !in ps[k] {
      assert cs[k] in cs;
      PieceNoBar(cs[k]);
    }
    SplitJoin(ps, '|');
    ChoiceMapLayout(cs);
  }

  /** The two choices of REDCap's `1, Yes | 2, No`. */
  function YesNoChoices(): seq<Choice> {
    [Choice("", "1", "Yes", " "), Choice(" ", "2", "No", "")]
  }

  lemma YesNoChoicesWellLaidOut()
    ensures forall c | c in YesNoChoices() :: WellLaidOut(c)
  {
    assert AllSpace(" ") && AllSpace("");
    assert AllDigits("1") && AllDigits("2");
  }

  lemma YesNoChoicesPieces()
    ensures Pieces(YesNoChoices()) == ["1, Yes ", " 2, No"]
  {
    var cs := YesNoChoices();
    assert Piece(cs[0]) == "1, Yes ";
    assert Piece(cs[1]) == " 2, No";
  }

  lemma YesNoChoicesRender()
    ensures Render(YesNoChoices()) == "1, Yes | 2, No"
  {
    YesNoChoicesPieces();
    var ps := ["1, Yes ", " 2, No"];
    assert Join(ps[1..], "|") == " 2, No";
    assert Join(ps, "|") == "1, Yes " + "|" + " 2, No";
  }

  /** REDCap's `1, Yes | 2, No` is two well laid-out choices, and splitting it
      at the bar gives back their pieces. */
  lemma YesNoChoicesLayout()
    ensures forall c | c in YesNoChoices() :: WellLaidOut(c)
    ensures Pieces(YesNoChoices()) == ["1, Yes ", " 2, No"]
    ensures Render(YesNoChoices()) == "1, Yes | 2, No"
    ensures Split(Render(YesNoChoices()), '|') == Pieces(YesNoChoices())
  {
    YesNoChoicesWellLaidOut();
    YesNoChoicesPieces();
    YesNoChoicesRender();
    var cs := YesNoChoices();
    PieceNoBar(cs[0]);
    PieceNoBar(cs[1]);
    SplitJoin(Pieces(cs), '|');
  }

  /** The value map of two choices that both parse. */
  lemma ChoiceMapTwo(ps: seq<string>, stripCode: bool)
    requires |ps| == 2 && ParseOption(ps[0], stripCode).Success? && ParseOption(ps[1], stripCode).Success?
    ensures var kv0, kv1 := ParseOption(ps[0], stripCode).value, ParseOption(ps[1], stripCode).value;
      ChoiceMap(ps, stripCode) == Success(map[kv0.0 := kv0.1, kv1.0 := kv1.1])
  {
    assert ps[..0] == [];
    ChoiceMapStep(ps, stripCode, 0);
    ChoiceMapStep(ps, stripCode, 1);
    assert ps[..2] == ps;
  }

  /** Two choices in REDCap's layout, the second preceded by whitespace (as
      after the `|` of `1, Yes | 2, No`): read as written, the second code
      keeps that whitespace and stays text, so a cell holding the bare code
      finds no label. */
  lemma LaterCodesKeepSpace(c1: Choice, c2: Choice)
    requires WellLaidOut(c1) && WellLaidOut(c2) && c1.before == [] && c2.before != []
    ensures ParseChoicesAsWritten(Render([c1, c2])) ==
      Success(map[DropLeadingZeros(c1.code) := Str(c1.text), c2.before + c2.code := Str(c2.text)])
    ensures c2.before + c2.code != DropLeadingZeros(c2.code)
  {
    var cs := [c1, c2];
    var ps := Pieces(cs);
    PieceNoBar(c1);
    PieceNoBar(c2);
    SplitJoin(ps, '|');
    ParseOptionLayout(c1, false);
    ParseOptionLayout(c2, false);
    ChoiceMapTwo(ps, false);
    SpaceNotNumeric(c2.before[0]);
    assert (c2.before + c2.code)[0] == c2.before[0];
  }

  /** The same two choices with the code stripped: both codes map to their labels. */
  lemma LaterCodesStripped(c1: Choice, c2: Choice)
    requires WellLaidOut(c1) && WellLaidOut(c2)
    ensures ParseChoices(Render([c1, c2])) ==
      Success(map[DropLeadingZeros(c1.code) := Str(c1.text), DropLeadingZeros(c2.code) := Str(c2.text)])
  {
    var cs := [c1, c2];
    ChoicesRoundTrip(cs);
    assert cs[..1] == [c1] && [c1][..0] == [];
    assert Intended([c1]) == map[DropLeadingZeros(c1.code) := Str(c1.text)];
    assert Intended(cs) == Intended([c1])[DropLeadingZeros(c2.code) := Str(c2.text)];
  }

  predicate IsComplexType(t: string) {
    t == "dropdown" || t == "radio" || t == "checkbox"
  }

  predicate IsBinaryType(t: string) {
    t == "yesno"
  }

  predicate IsTextType(t: string) {
    t == "text"
  }

  predicate IsSkipType(t: string) {
    t == "file" || t == "calc" || t == "descriptive" || t == "notes"
  }

  /** The field types that get an annotation; every other type is left out. */
  predicate IsAnnotatedType(t: string) {
    IsComplexType(t) || IsBinaryType(t) || IsTextType(t) || IsSkipType(t)
  }

  const YesNoOptions: map<string, Label> := map["1" := Str("Yes"), "0" := Str("No")]

  /** The annotation of one field present in the frame: enumerated fields get
      their parsed choices, yes/no fields the yes/no map, each unioned with the
      none map (whose entries win); text and skipped types an empty map; any
      other type none. A choice that does not parse is an error. */
  function FieldAnnotation(f: FieldDef, generic: string): (r: Result<Option<Annotation>>)
    ensures r.Failure? <==> IsComplexType(f.fieldType) && ParseChoices(f.choices).Failure?
    ensures r.Success? ==> (r.value.Some? <==> IsAnnotatedType(f.fieldType))
    ensures r.Success? && r.value.Some? ==> r.value.value.name == f.fieldName && r.value.value.fieldType == f.fieldType
  {
    if IsComplexType(f.fieldType) then
      var options :- ParseChoices(f.choices);
      Success(Some(Annotation(f.fieldName, f.fieldType, options + NoneMap(generic))))
    else if IsBinaryType(f.fieldType) then
      Success(Some(Annotation(f.fieldName, f.fieldType, YesNoOptions + NoneMap(generic))))
    else if IsTextType(f.fieldType) || IsSkipType(f.fieldType) then
      Success(Some(Annotation(f.fieldName, f.fieldType, map[])))
    else
      Success(None)
  }

  /** The value map of an annotation: empty for text and skipped types; for
      enumerated and yes/no fields every given code and every sentinel text,
      the sentinels sending to the missing-value label and the other codes to
      their labels. */
  lemma FieldAnnotationOptions(f: FieldDef, generic: string)
    requires FieldAnnotation(f, generic).Success? && FieldAnnotation(f, generic).value.Some?
    ensures var a := FieldAnnotation(f, generic).value.value;
      && (IsTextType(f.fieldType) || IsSkipType(f.fieldType) ==> a.options == map[])
      && (IsComplexType(f.fieldType) || IsBinaryType(f.fieldType) ==>
            var given := if IsBinaryType(f.fieldType) then YesNoOptions else ParseChoices(f.choices).value;
            && (forall k :: k in a.options <==> k in given || k in SentinelTexts(generic))
            && (forall k | k in SentinelTexts(generic) :: a.options[k] == Str(generic))
            && (forall k | k in given && k !in SentinelTexts(generic) :: a.options[k] == given[k]))
  {
  }

  /** One more field: its annotation appended when it is present in the frame
      and has an annotated type. */
  function AnnotateOne(prev: seq<Annotation>, f: FieldDef, columns: seq<string>, generic: string): Result<seq<Annotation>> {
    if f.fieldName in columns then
      var a :- FieldAnnotation(f, generic);
      Success(if a.Some? then prev + [a.value] else prev)
    else Success(prev)
  }

  /** The annotations of the fields present in the frame, in list order. */
  function AnnotateFields(fields: seq<FieldDef>, columns: seq<string>, generic: string): Result<seq<Annotation>> {
    if |fields| == 0 then Success([])
    else
      var prev :- AnnotateFields(fields[..|fields| - 1], columns, generic);
      AnnotateOne(prev, fields[|fields| - 1], columns, generic)
  }

  lemma AnnotateFieldsStep(fields: seq<FieldDef>, columns: seq<string>, generic: string, k: nat)
    requires k < |fields| && AnnotateFields(fields[..k], columns, generic).Success?
    ensures AnnotateFields(fields[..k + 1], columns, generic) ==
      AnnotateOne(AnnotateFields(fields[..k], columns, generic).value, fields[k], columns, generic)
  {
    assert fields[..k + 1][..k] == fields[..k];
  }

  lemma {:induction false} AnnotateFieldsFailurePersists(fields: seq<FieldDef>, columns: seq<string>, generic: string, k: nat)
    requires k <= |fields| && AnnotateFields(fields[..k], columns, generic).Failure?
    ensures AnnotateFields(fields, columns, generic) == AnnotateFields(fields[..k], columns, generic)
    decreases |fields| - k
  {
    if k < |fields| {
      assert fields[..k + 1][..k] == fields[..k];
      AnnotateFieldsFailurePersists(fields, columns, generic, k + 1);
    } else {
      assert fields[..k] == fields;
    }
  }

  /** Whether `f` is a field present in the frame whose choices do not parse. */
  predicate BadChoices(f: FieldDef, columns: seq<string>) {
    f.fieldName in columns && IsComplexType(f.fieldType) && ParseChoices(f.choices).Failure?
  }

  lemma AnnotateOneFails(prev: seq<Annotation>, f: FieldDef, columns: seq<string>, generic: string)
    ensures AnnotateOne(prev, f, columns, generic).Failure? <==> BadChoices(f, columns)
  {
  }

  /** The extraction fails exactly when a present enumerated field's choices
      do not parse. */
  lemma {:induction false} AnnotateFieldsFails(fields: seq<FieldDef>, columns: seq<string>, generic: string)
    ensures AnnotateFields(fields, columns, generic).Failure? <==> exists f | f in fields :: BadChoices(f, columns)
  {
    if |fields| > 0 {
      var init := fields[..|fields| - 1];
      var f := fields[|fields| - 1];
      assert fields == init + [f];
      AnnotateFieldsFails(init, columns, generic);
      var prev := AnnotateFields(init, columns, generic);
      if prev.Failure? {
        assert AnnotateFields(fields, columns, generic) == prev;
        var g :| g in init && BadChoices(g, columns);
        assert g in fields;
      } else {
        assert AnnotateFields(fields, columns, generic) == AnnotateOne(prev.value, f, columns, generic);
        AnnotateOneFails(prev.value, f, columns, generic);
        assert forall g | g in fields :: g in init || g == f;
      }
    }
  }

  /** Every annotation is that of a present field, and every present field of
      an annotated type has its annotation. */
  lemma {:induction false} AnnotateFieldsExactly(fields: seq<FieldDef>, columns: seq<string>, generic: string)
    requires AnnotateFields(fields, columns, generic).Success?
    ensures var r := AnnotateFields(fields, columns, generic).value;
      && (forall a | a in r :: exists f | f in fields ::
            f.fieldName in columns && FieldAnnotation(f, generic) == Success(Some(a)))
      && (forall f | f in fields && f.fieldName in columns && IsAnnotatedType(f.fieldType) ::
            exists a | a in r :: FieldAnnotation(f, generic) == Success(Some(a)))
  {
    if |fields| > 0 {
      var init := fields[..|fields| - 1];
      var f := fields[|fields| - 1];
      assert fields == init + [f];
      AnnotateFieldsExactly(init, columns, generic);
      var prev := AnnotateFields(init, columns, generic).value;
      var r := AnnotateFields(fields, columns, generic).value;
      forall a | a in r ensures exists g | g in fields ::
        g.fieldName in columns && FieldAnnotation(g, generic) == Success(Some(a))
      {
        if a in prev {
          var g :| g in init && g.fieldName in columns && FieldAnnotation(g, generic) == Success(Some(a));
          assert g in fields;
        } else {
          assert f in fields;
        }
      }
      forall g | g in fields && g.fieldName in columns && IsAnnotatedType(g.fieldType)
        ensures exists a | a in r :: FieldAnnotation(g, generic) == Success(Some(a))
      {
        if g in init {
          var a :| a in prev && FieldAnnotation(g, generic) == Success(Some(a));
          assert a in r;
        } else {
          assert g == f;
          assert FieldAnnotation(f, generic).value.value in r;
        }
      }
    }
  }

  /** A field list sorted by name gives annotations sorted by name. */
  lemma {:induction false} AnnotateFieldsSorted(fields: seq<FieldDef>, columns: seq<string>, generic: string)
    requires AnnotateFields(fields, columns, generic).Success? && SortedBy(fields, FieldName, Less)
    ensures SortedBy(AnnotateFields(fields, columns, generic).value, AnnotationName, Less)
  {
    if |fields| > 0 {
      var init := fields[..|fields| - 1];
      var f := fields[|fields| - 1];
      assert SortedBy(init, FieldName, Less);
      AnnotateFieldsSorted(init, columns, generic);
      var prev := AnnotateFields(init, columns, generic).value;
      var r := AnnotateFields(fields, columns, generic).value;
      if f.fieldName in columns && FieldAnnotation(f, generic).value.Some? {
        var a := FieldAnnotation(f, generic).value.value;
        assert r == prev + [a];
        LastNotBelow(fields, columns, generic);
        forall i, j | 0 <= i < j < |r| ensures !Less(AnnotationName(r[j]), AnnotationName(r[i])) {
          if j < |prev| {
            assert r[i] == prev[i] && r[j] == prev[j];
          } else {
            assert r[i] == prev[i] && prev[i] in prev;
          }
        }
      }
    }
  }

  /** The last field of a sorted list is not below any annotation of the
      fields before it. */
  lemma LastNotBelow(fields: seq<FieldDef>, columns: seq<string>, generic: string)
    requires |fields| > 0 && SortedBy(fields, FieldName, Less)
    requires AnnotateFields(fields[..|fields| - 1], columns, generic).Success?
    ensures forall a | a in AnnotateFields(fields[..|fields| - 1], columns, generic).value ::
      !Less(fields[|fields| - 1].fieldName, a.name)
  {
    var init := fields[..|fields| - 1];
    AnnotateFieldsExactly(init, columns, generic);
    var prev := AnnotateFields(init, columns, generic).value;
    forall a | a in prev ensures !Less(fields[|fields| - 1].fieldName, a.name) {
      var g :| g in init && g.fieldName in columns && FieldAnnotation(g, generic) == Success(Some(a));
      var j :| 0 <= j < |init| && init[j] == g;
      assert fields[j] == g;
      assert !Less(FieldName(fields[|fields| - 1]), FieldName(fields[j]));
    }
  }

  function FieldName(f: FieldDef): string {
    f.fieldName
  }

  function AnnotationName(a: Annotation): string {
    a.name
  }

  /** The internal REDCap columns every annotation list starts with. */
  const FixedAnnotations: seq<Annotation> := [
    Annotation("redcap_data_access_group", "text", map[]),
    Annotation("redcap_repeat_instrument", "text", map[]),
    Annotation("redcap_repeat_instance", "number", map[])
  ]

  /** `_get_redcap_type_metadata` as a value: the fixed entries, then the
      annotations of the schema fields present in the frame, by field name
      (a stable sort, so equal names keep the schema's order). */
  function TypeMetadata(schema: seq<FieldDef>, columns: seq<string>, generic: string): Result<seq<Annotation>> {
    var fields :- AnnotateFields(Sort(schema, FieldName, Less), columns, generic);
    Success(FixedAnnotations + fields)
  }

  /** What the extraction promises: it fails exactly when a present enumerated
      field's choices do not parse; otherwise the three fixed entries come
      first, then one annotation per present field of an annotated type, in
      field-name order, and nothing else. */
  lemma TypeMetadataShape(schema: seq<FieldDef>, columns: seq<string>, generic: string)
    ensures var r := TypeMetadata(schema, columns, generic);
      && (r.Failure? <==> exists f | f in schema :: BadChoices(f, columns))
      && (r.Success? ==>
        && |r.value| >= 3 && r.value[..3] == FixedAnnotations
        && (forall a | a in r.value[3..] :: exists f | f in schema ::
              f.fieldName in columns && FieldAnnotation(f, generic) == Success(Some(a)))
        && (forall f | f in schema && f.fieldName in columns && IsAnnotatedType(f.fieldType) ::
              exists a | a in r.value[3..] :: FieldAnnotation(f, generic) == Success(Some(a)))
        && SortedBy(r.value[3..], AnnotationName, Less))
  {
    var sorted := Sort(schema, FieldName, Less);
    LessOrder();
    SortSorted(schema, FieldName, Less);
    AnnotateFieldsFails(sorted, columns, generic);
    assert forall f :: f in sorted <==> f in schema by {
      forall f ensures f in sorted <==> f in schema {
        assert f in sorted <==> f in multiset(sorted);
        assert f in schema <==> f in multiset(schema);
      }
    }
    var r := TypeMetadata(schema, columns, generic);
    if r.Success? {
      AnnotateFieldsExactly(sorted, columns, generic);
      AnnotateFieldsSorted(sorted, columns, generic);
      var fields := AnnotateFields(sorted, columns, generic).value;
      assert r.value[3..] == fields;
    }
  }

  /** The per-field branch of the extraction loop, for a field present in
      the frame. */
  method AnnotateField(f: FieldDef, generic: string) returns (r: Result<Option<Annotation>>)
    ensures r == FieldAnnotation(f, generic)
  {
    if IsComplexType(f.fieldType) {
      var options := ParseChoicesLoop(f.choices);
      if options.Failure? {
        return Failure(options.error);
      }
      r := Success(Some(Annotation(f.fieldName, f.fieldType, options.value + NoneMap(generic))));
    } else if IsBinaryType(f.fieldType) {
      r := Success(Some(Annotation(f.fieldName, f.fieldType, YesNoOptions + NoneMap(generic))));
    } else if IsTextType(f.fieldType) {
      r := Success(Some(Annotation(f.fieldName, f.fieldType, map[])));
    } else if IsSkipType(f.fieldType) {
      r := Success(Some(Annotation(f.fieldName, f.fieldType, map[])));
    } else {
      r := Success(None);
    }
  }

  /** The extraction loop: fixed entries first, then one append per present
      field of an annotated type, visiting the schema sorted by field name. */
  method ExtractTypeMetadata(schema: seq<FieldDef>, columns: seq<string>, generic: string) returns (r: Result<seq<Annotation>>)
    ensures r == TypeMetadata(schema, columns, generic)
  {
    var metadata := FixedAnnotations;
    var fields := Sort(schema, FieldName, Less);
    var i := 0;
    while i < |fields|
      invariant 0 <= i <= |fields|
      invariant AnnotateFields(fields[..i], columns, generic).Success?
      invariant metadata == FixedAnnotations + AnnotateFields(fields[..i], columns, generic).value
    {
      var f := fields[i];
      AnnotateFieldsStep(fields, columns, generic, i);
      if f.fieldName in columns {
        var a := AnnotateField(f, generic);
        if a.Failure? {
          AnnotateFieldsFailurePersists(fields, columns, generic, i + 1);
          return Failure(a.error);
        }
        if a.value.Some? {
          metadata := metadata + [a.value.value];
        }
      }
      i := i + 1;
    }
    assert fields[..i] == fields;
    return Success(metadata);
  }
}
