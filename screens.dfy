/** The client's screen state and the callbacks that change it (`SoilFertilityApp` and
    `SoilInputScreen` in MainActivity.kt).

    The app holds the current screen and the two display strings of the last
    prediction; the input screen holds the twelve field texts, the loading flag and
    the error text. The input screen's state lives only while that screen is shown:
    leaving it for the result screen discards it, and going back starts a fresh one.
    The HTTP round trip is reduced to its outcome, delivered as one completion event. */
module Screens {
  import opened Wrappers
  import KeystrokeFilter
  import opened FormValidation
  import opened ResultFormat

  datatype Screen = Input | Result

  /** How the request launched by a submission ended. */
  datatype CallOutcome<P> =
    | Ok(humanPrediction: string, probabilities: seq<P>)  // status 200 and a body with both keys
    | HttpError(code: int, errorBody: Option<string>)     // another status; None when the error body cannot be read
    | Thrown(message: Option<string>)                     // any exception: connection, timeout, unreadable 200 body

  /** What pressing the predict button does. */
  datatype Submission<V> =
    | Disabled                    // a request is in flight: the button is disabled
    | Rejected(toast: string)     // a field was refused; nothing is sent
    | Launched(features: seq<V>)  // the request is sent with this `features` array

  /** Every field empty, as a fresh input screen has them. */
  function EmptyFields(): (m: map<string, string>)
    ensures m.Keys == set c | c in Columns
    ensures forall c :: c in m ==> m[c] == ""
  {
    map c | c in Columns :: ""
  }

  class InputScreen {
    /** Kotlin's `Char.isDigit`, as the keystroke filter uses it. */
    const isDigit: char -> bool
    var fields: map<string, string>
    var isLoading: bool
    var errorText: Option<string>

    /** Every stored field text is one the keystroke filter can produce. */
    ghost predicate Valid()
      reads this
    {
      && !isDigit('.') && isDigit('0')
      && forall c :: c in fields ==> KeystrokeFilter.WellFormed(isDigit, fields[c])
    }

    constructor (isDigit: char -> bool)
      requires !isDigit('.') && isDigit('0')
      ensures Valid() && this.isDigit == isDigit
      ensures fields == EmptyFields() && !isLoading && errorText == None
    {
      this.isDigit := isDigit;
      fields := EmptyFields();
      isLoading := false;
      errorText := None;
    }

    /** The `onValueChange` callback of the field for `column`. */
    method OnValueChange(column: string, newValue: string)
      requires Valid()
      modifies this`fields
      ensures Valid()
      ensures fields == if column in old(fields)
        then old(fields)[column := KeystrokeFilter.OnValueChange(isDigit, newValue)]
        else old(fields)
    {
      if column in fields {
        KeystrokeFilter.StoredValueWellFormed(isDigit, newValue);
        fields := fields[column := KeystrokeFilter.OnValueChange(isDigit, newValue)];
      }
    }

    /** The predict button's `onClick`: clear the error, check the form, and on success
        set the loading flag and hand over the `features` array. */
    method Submit<V>(parse: string -> Option<V>) returns (s: Submission<V>)
      requires Valid()
      modifies this`isLoading, this`errorText
      ensures Valid() && fields == old(fields)
      ensures old(isLoading) ==> s == Disabled && isLoading && errorText == old(errorText)
      ensures !old(isLoading) ==> errorText == None && match Validate(parse, fields)
        case Valid(vs) => s == Launched(vs) && isLoading
        case Invalid(_, e, hint) => s == Rejected(ToastMessage(e, hint)) && !isLoading
      ensures DisplayedError() == None
    {
      if isLoading {
        return Disabled;
      }
      errorText := None;
      var r := CollectFeatureValues(parse, fields);
      match r
      case Valid(featureValues) =>
        isLoading := true;
        s := Launched(featureValues);
      case Invalid(_, e, hint) =>
        s := Rejected(ToastMessage(e, hint));
    }

    /** The error text on display: shown only when there is one and no request is in flight. */
    function DisplayedError(): (shown: Option<string>)
      reads this
      ensures shown.Some? <==> errorText.Some? && !isLoading
      ensures shown.Some? ==> shown == errorText
    {
      if errorText.Some? && !isLoading then errorText else None
    }
  }

  class App {
    var currentScreen: Screen
    var humanPredictionResult: Option<string>
    var probabilitiesResult: Option<string>
    /** The state of the input screen currently (or last) shown. */
    var input: InputScreen

    /** A request is only ever in flight from the input screen, and the prediction
        strings are present exactly while the result screen is shown. */
    ghost predicate Valid()
      reads this, input
    {
      && input.Valid()
      && (input.isLoading ==> currentScreen == Input)
      && (currentScreen == Input <==> humanPredictionResult.None?)
      && (currentScreen == Input <==> probabilitiesResult.None?)
    }

    constructor (isDigit: char -> bool)
      requires !isDigit('.') && isDigit('0')
      ensures Valid() && fresh(input)
      ensures currentScreen == Input && humanPredictionResult == None && probabilitiesResult == None
      ensures input.isDigit == isDigit && input.fields == EmptyFields()
      ensures !input.isLoading && input.errorText == None
    {
      currentScreen := Input;
      humanPredictionResult := None;
      probabilitiesResult := None;
      input := new InputScreen(isDigit);
    }

    /** The user edits a field of the input screen. */
    method Type(column: string, newValue: string)
      requires Valid() && currentScreen == Input
      modifies input
      ensures Valid() && input == old(input) && currentScreen == Input
      ensures input.fields == if column in old(input.fields)
        then old(input.fields)[column := KeystrokeFilter.OnValueChange(input.isDigit, newValue)]
        else old(input.fields)
      ensures input.isLoading == old(input.isLoading) && input.errorText == old(input.errorText)
    {
      input.OnValueChange(column, newValue);
    }

    /** The user presses the predict button. */
    method Submit<V>(parse: string -> Option<V>) returns (s: Submission<V>)
      requires Valid() && currentScreen == Input
      modifies input
      ensures Valid() && input == old(input) && currentScreen == Input
      ensures input.fields == old(input.fields)
      ensures old(input.isLoading) ==> s == Disabled && input.isLoading && input.errorText == old(input.errorText)
      ensures !old(input.isLoading) ==> input.errorText == None && match Validate(parse, input.fields)
        case Valid(vs) => s == Launched(vs) && input.isLoading
        case Invalid(_, e, hint) => s == Rejected(ToastMessage(e, hint)) && !input.isLoading
      ensures input.DisplayedError() == None
    {
      s := input.Submit(parse);
    }

    /** The launched request finishes. On success the app moves to the result screen
        with both display strings; on failure it stays on the input screen with an
        error text. Every path clears the loading flag. */
    method Complete<P>(outcome: CallOutcome<P>, zero: P, fmt: P -> string)
      requires Valid() && input.isLoading
      modifies this, input
      ensures Valid() && input == old(input) && input.fields == old(input.fields)
      ensures !input.isLoading
      ensures match outcome
        case Ok(h, probs) =>
          && currentScreen == Result
          && humanPredictionResult == Some(h)
          && probabilitiesResult == Some(ProbabilitiesText(probs, zero, fmt))
          && input.errorText == None
          && input.DisplayedError() == None
        case HttpError(code, body) =>
          && currentScreen == Input && humanPredictionResult == None && probabilitiesResult == None
          && input.errorText == Some(ApiErrorText(code, body))
          && input.DisplayedError() == Some(ApiErrorText(code, body))
        case Thrown(message) =>
          && currentScreen == Input && humanPredictionResult == None && probabilitiesResult == None
          && input.errorText == Some(NetworkErrorText(message))
          && input.DisplayedError() == Some(NetworkErrorText(message))
    {
      match outcome
      case Ok(humanPrediction, probs) =>
        var probabilitiesString := ProbabilitiesText(probs, zero, fmt);
        // onPredictionSuccess
        humanPredictionResult := Some(humanPrediction);
        probabilitiesResult := Some(probabilitiesString);
        currentScreen := Result;
        input.isLoading := false;
        input.errorText := None;
      case HttpError(code, body) =>
        input.errorText := Some(ApiErrorText(code, body));
        input.isLoading := false;
      case Thrown(message) =>
        input.errorText := Some(NetworkErrorText(message));
        input.isLoading := false;
    }

    /** The result screen's "Predict Again" button: back to a fresh input screen, with
        both display strings cleared. */
    method GoBack()
      requires Valid() && currentScreen == Result
      modifies this
      ensures Valid() && fresh(input)
      ensures currentScreen == Input && humanPredictionResult == None && probabilitiesResult == None
      ensures input.isDigit == old(input.isDigit) && input.fields == EmptyFields()
      ensures !input.isLoading && input.errorText == None && input.DisplayedError() == None
    {
      currentScreen := Input;
      humanPredictionResult := None;
      probabilitiesResult := None;
      input := new InputScreen(input.isDigit);
    }
  }

  /** A fresh input screen is refused at its first field, as empty. */
  lemma EmptyFormRefusedAtFirstField<V>(parse: string -> Option<V>)
    ensures Validate(parse, EmptyFields()) == Invalid(0, EmptyOrMalformed, "Nitrogen (N) (kg/ha)")
  {
    assert FieldText(EmptyFields(), Columns[0]) == "";
  }
}
