/** The client's fail-fast form check, run when the user presses the predict button
    (the submit `onClick` of MainActivity.kt): it walks the twelve fields in column
    order, stops at the first one that is empty, a lone or trailing `.`, or does not
    parse, and otherwise yields the twelve values of the request's `features` array.

    Kotlin's `toDoubleOrNull` is the parameter `parse`; the value type `V` is opaque. */
module FormValidation {
  import opened Wrappers

  /** The order of the features, which the request's `features` array follows. */
  const Columns: seq<string> := ["N", "P", "K", "pH", "EC", "OC", "S", "Zn", "Fe", "Cu", "Mn", "B"]

  /** The display label of each feature. */
  const FeatureHints: map<string, string> := map[
    "N" := "Nitrogen (N) (kg/ha)",
    "P" := "Phosphorus (P) (kg/ha)",
    "K" := "Potassium (K) (kg/ha)",
    "pH" := "Soil pH",
    "EC" := "EC (dS/m)",
    "OC" := "Organic Carbon (%)",
    "S" := "Sulphur (S) (ppm)",
    "Zn" := "Zinc (Zn) (ppm)",
    "Fe" := "Iron (Fe) (ppm)",
    "Cu" := "Copper (Cu) (ppm)",
    "Mn" := "Manganese (Mn) (ppm)",
    "B" := "Boron (B) (ppm)"
  ]

  /** `FEATURE_HINTS[featureName] ?: featureName`. */
  function HintFor(name: string): string
  {
    if name in FeatureHints then FeatureHints[name] else name
  }

  /** `inputStates[featureName]?.value ?: ""`. */
  function FieldText(fields: map<string, string>, name: string): string
  {
    if name in fields then fields[name] else ""
  }

  /** Why a field was refused. */
  datatype FieldError = EmptyOrMalformed | NotANumber

  /** Outcome of the whole-form check: the collected values, or the index of the
      first refused column with the reason and that column's label. */
  datatype Validation<V> = Valid(values: seq<V>) | Invalid(column: nat, error: FieldError, hint: string)

  /** The check of one field's text. */
  function CheckField<V>(parse: string -> Option<V>, text: string): (r: Result<V, FieldError>)
    ensures r.Success? <==> text != [] && text[|text| - 1] != '.' && parse(text).Some?
    ensures r.Success? ==> parse(text) == Some(r.value)
  {
    if text == [] || text == "." || text[|text| - 1] == '.' then Failure(EmptyOrMalformed)
    else match parse(text)
      case Some(v) => Success(v)
      case None => Failure(NotANumber)
  }

  /** The fail-fast walk over the columns `cols[i..]`, after `acc` has been collected
      from the columns before `i`. */
  function ValidateFrom<V>(parse: string -> Option<V>, fields: map<string, string>, cols: seq<string>, i: nat, acc: seq<V>): Validation<V>
    requires i <= |cols|
    decreases |cols| - i
  {
    if i == |cols| then Valid(acc)
    else match CheckField(parse, FieldText(fields, cols[i]))
      case Failure(e) => Invalid(i, e, HintFor(cols[i]))
      case Success(v) => ValidateFrom(parse, fields, cols, i + 1, acc + [v])
  }

  /** The whole-form check. */
  function Validate<V>(parse: string -> Option<V>, fields: map<string, string>): Validation<V>
  {
    ValidateFrom(parse, fields, Columns, 0, [])
  }

  /** The toast shown for a refused field. */
  function ToastMessage(error: FieldError, hint: string): (msg: string)
    ensures |hint| < |msg| && msg[|msg| - |hint|..] == hint
  {
    match error
    case EmptyOrMalformed => "Please enter a valid number for " + hint
    case NotANumber => "Invalid number for " + hint
  }

  /** The loop of the submit handler: collects `featureValues` field by field and
      breaks out at the first refused field. `validInput` is the handler's own flag,
      cleared just before each `break` and tested after the loop. */
  method CollectFeatureValues<V>(parse: string -> Option<V>, fields: map<string, string>) returns (r: Validation<V>)
    ensures r == Validate(parse, fields)
  {
    var featureValues: seq<V> := [];
    var validInput := true;
    for i := 0 to |Columns|
      invariant Validate(parse, fields) == ValidateFrom(parse, fields, Columns, i, featureValues)
    {
      var featureName := Columns[i];
      var valueString := FieldText(fields, featureName);
      if valueString == [] || valueString == "." || valueString[|valueString| - 1] == '.' {
        r := Invalid(i, EmptyOrMalformed, HintFor(featureName));
        validInput := false;
        break;
      }
      var valueDouble := parse(valueString);
      if valueDouble.Some? {
        featureValues := featureValues + [valueDouble.value];
      } else {
        r := Invalid(i, NotANumber, HintFor(featureName));
        validInput := false;
        break;
      }
    }
    if validInput {
      r := Valid(featureValues);
    }
  }

  // ---------------------------------------------------------------------------
  // What the check promises

  /** Columns are distinct, and every one of them has a label. */
  lemma ColumnsDistinctAndLabelled()
    ensures forall i, j :: 0 <= i < j < |Columns| ==> Columns[i] != Columns[j]
    ensures forall i :: 0 <= i < |Columns| ==> Columns[i] in FeatureHints
  {
  }

  /** The walk from `i` succeeds exactly when every column from `i` on passes. */
  lemma {:induction false} ValidateFromValidIff<V>(parse: string -> Option<V>, fields: map<string, string>,
                                                    cols: seq<string>, i: nat, acc: seq<V>)
    requires i <= |cols|
    ensures ValidateFrom(parse, fields, cols, i, acc).Valid? <==>
      forall j :: i <= j < |cols| ==> CheckField(parse, FieldText(fields, cols[j])).Success?
    decreases |cols| - i
  {
    if i < |cols| {
      var c := CheckField(parse, FieldText(fields, cols[i]));
      if c.Success? {
        ValidateFromValidIff(parse, fields, cols, i + 1, acc + [c.value]);
      }
    }
  }

  /** A successful walk from `i` appends the values of columns `i..`, in column order,
      to what was collected before. */
  lemma {:induction false} ValidateFromValues<V>(parse: string -> Option<V>, fields: map<string, string>,
                                                  cols: seq<string>, i: nat, acc: seq<V>)
    requires i <= |cols|
    requires ValidateFrom(parse, fields, cols, i, acc).Valid?
    ensures var vs := ValidateFrom(parse, fields, cols, i, acc).values;
      && |vs| == |acc| + |cols| - i
      && vs[..|acc|] == acc
      && forall j :: i <= j < |cols| ==> CheckField(parse, FieldText(fields, cols[j])) == Success(vs[|acc| + j - i])
    decreases |cols| - i
  {
    if i < |cols| {
      var c := CheckField(parse, FieldText(fields, cols[i]));
      assert c.Success?;
      var acc' := acc + [c.value];
      assert ValidateFrom(parse, fields, cols, i, acc) == ValidateFrom(parse, fields, cols, i + 1, acc');
      ValidateFromValues(parse, fields, cols, i + 1, acc');
      var vs := ValidateFrom(parse, fields, cols, i, acc).values;
      assert vs[..|acc|] == vs[..|acc'|][..|acc|];
      assert vs[|acc|] == vs[..|acc'|][|acc|] == c.value;
      forall j | i <= j < |cols|
        ensures CheckField(parse, FieldText(fields, cols[j])) == Success(vs[|acc| + j - i])
      {
        if j > i {
          assert |acc'| + j - (i + 1) == |acc| + j - i;
        }
      }
    }
  }

  /** A refusal from column `i` on names the first refused column at or after `i`,
      its reason and its label. */
  lemma {:induction false} ValidateFromInvalid<V>(parse: string -> Option<V>, fields: map<string, string>,
                                                   cols: seq<string>, i: nat, acc: seq<V>)
    requires i <= |cols|
    ensures match ValidateFrom(parse, fields, cols, i, acc)
      case Valid(_) => true
      case Invalid(k, e, hint) =>
        && i <= k < |cols|
        && (forall j :: i <= j < k ==> CheckField(parse, FieldText(fields, cols[j])).Success?)
        && CheckField(parse, FieldText(fields, cols[k])) == Failure(e)
        && hint == HintFor(cols[k])
    decreases |cols| - i
  {
    if i < |cols| {
      var c := CheckField(parse, FieldText(fields, cols[i]));
      if c.Success? {
        assert ValidateFrom(parse, fields, cols, i, acc) == ValidateFrom(parse, fields, cols, i + 1, acc + [c.value]);
        ValidateFromInvalid(parse, fields, cols, i + 1, acc + [c.value]);
      }
    }
  }

  /** When the check passes it yields exactly twelve values, the value of column `j`
      at position `j`, and every field passed. */
  lemma ValidFormYieldsOrderedValues<V>(parse: string -> Option<V>, fields: map<string, string>)
    ensures Validate(parse, fields).Valid? <==>
      forall j :: 0 <= j < |Columns| ==> CheckField(parse, FieldText(fields, Columns[j])).Success?
    ensures Validate(parse, fields).Valid? ==>
      var vs := Validate(parse, fields).values;
      && |vs| == 12
      && forall j :: 0 <= j < |Columns| ==>
        CheckField(parse, FieldText(fields, Columns[j])) == Success(vs[j])
  {
    ValidateFromValidIff(parse, fields, Columns, 0, []);
    if Validate(parse, fields).Valid? {
      ValidateFromValues(parse, fields, Columns, 0, []);
      var vs := Validate(parse, fields).values;
      assert |vs| == |Columns|;
      ColumnCount();
      forall j | 0 <= j < |Columns|
        ensures CheckField(parse, FieldText(fields, Columns[j])) == Success(vs[j])
      {
        assert 0 + j - 0 == j;
      }
    }
  }

  lemma ColumnCount()
    ensures |Columns| == 12
  {
  }

  /** When the check fails it names the FIRST refused column in column order, with the
      reason its check gave and the label of that column. */
  lemma InvalidFormNamesFirstFailure<V>(parse: string -> Option<V>, fields: map<string, string>)
    ensures match Validate(parse, fields)
      case Valid(_) => true
      case Invalid(k, e, hint) =>
        && k < |Columns|
        && (forall j :: 0 <= j < k ==> CheckField(parse, FieldText(fields, Columns[j])).Success?)
        && CheckField(parse, FieldText(fields, Columns[k])) == Failure(e)
        && hint == FeatureHints[Columns[k]]
  {
    ValidateFromInvalid(parse, fields, Columns, 0, []);
    ColumnsDistinctAndLabelled();
  }

  /** A field is refused as empty or malformed exactly when it is empty, `.`, or ends
      with `.`; such a field is never handed to `parse`. */
  lemma EmptyOrMalformedFields<V>(parse: string -> Option<V>, text: string)
    ensures CheckField(parse, text) == Failure(EmptyOrMalformed) <==>
      text == [] || text == "." || text[|text| - 1] == '.'
    ensures CheckField(parse, text) == Failure(NotANumber) <==>
      !(text == [] || text == "." || text[|text| - 1] == '.') && parse(text).None?
  {
  }

  /** The walk from `i` never looks at a column after the first refused one. */
  lemma {:induction false} ValidateFromStopsAtFailure<V>(parse: string -> Option<V>, fields: map<string, string>,
                                                          other: map<string, string>, cols: seq<string>, i: nat, acc: seq<V>)
    requires i <= |cols|
    requires ValidateFrom(parse, fields, cols, i, acc).Invalid?
    requires forall j :: i <= j <= ValidateFrom(parse, fields, cols, i, acc).column && j < |cols| ==>
      FieldText(other, cols[j]) == FieldText(fields, cols[j])
    ensures ValidateFrom(parse, other, cols, i, acc) == ValidateFrom(parse, fields, cols, i, acc)
    decreases |cols| - i
  {
    ValidateFromInvalid(parse, fields, cols, i, acc);
    var c := CheckField(parse, FieldText(fields, cols[i]));
    if c.Success? {
      ValidateFromStopsAtFailure(parse, fields, other, cols, i + 1, acc + [c.value]);
    }
  }

  /** Fields after the first refused one are not inspected: changing them cannot change
      the outcome. */
  lemma LaterFieldsNotInspected<V>(parse: string -> Option<V>, fields: map<string, string>, other: map<string, string>)
    requires Validate(parse, fields).Invalid?
    requires forall j :: 0 <= j <= Validate(parse, fields).column && j < |Columns| ==>
      FieldText(other, Columns[j]) == FieldText(fields, Columns[j])
    ensures Validate(parse, other) == Validate(parse, fields)
  {
    ValidateFromStopsAtFailure(parse, fields, other, Columns, 0, []);
  }
}
