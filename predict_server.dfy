/** The prediction service's request handler (`predict()` in app.py): it checks the
    shape of the request's `features` value, orders the twelve values by column, runs
    the model on them and maps the predicted class to a label.

    JSON leaf values are the opaque type `L`. Scaling, the model and `argmax` are the
    parameter `ml`; whatever exception any step raises becomes a 500 response. */
module PredictServer {
  import opened Wrappers
  import Decimal

  /** The column order the scaler and the model were trained with. */
  const Columns: seq<string> := ["N", "P", "K", "pH", "EC", "OC", "S", "Zn", "Fe", "Cu", "Mn", "B"]

  /** The `features` member of the request: a list, an object, or any other JSON value. */
  datatype Json<L> = List(items: seq<L>) | Dict(entries: map<string, L>) | Scalar(leaf: L)

  /** The request body as the handler sees it. */
  datatype Body<L> =
    | Raises(exceptionText: string)        // reading it or calling `.get` on it raises (not JSON, not an object)
    | Object(features: Option<Json<L>>)    // a JSON object; None when it has no `features` key

  /** What the model step yields for an ordered vector. */
  datatype MlOutcome<P> = Classified(classIndex: int, probabilities: seq<P>) | MlRaises(exceptionText: string)

  datatype Response<P> =
    | Error(status: nat, message: string)
    | Prediction(encoded: int, humanReadable: string, probabilities: seq<P>)

  const NotLoadedMessage := "Model or preprocessors not loaded"
  const ShapeMessage := "Input 'features' should be a list of values or a dictionary of feature-value pairs."

  /** The message for a list of the wrong length. */
  function LengthMessage(n: nat): string
  {
    "Expected " + Decimal.NatToString(|Columns|) + " features, got " + Decimal.NatToString(n)
  }

  /** `dict(zip(keys, values))`: pairs are inserted left to right, so a later key wins. */
  function Zip<L>(keys: seq<string>, values: seq<L>): map<string, L>
    requires |keys| == |values|
    decreases |keys|
  {
    if keys == [] then map[]
    else Zip(keys[..|keys| - 1], values[..|values| - 1])[keys[|keys| - 1] := values[|values| - 1]]
  }

  /** The guard returns on the shape of `features` and the dictionary they leave. */
  function BindFeatures<L>(features: Option<Json<L>>): Result<map<string, L>, string>
  {
    match features
    case Some(List(xs)) =>
      if |xs| != |Columns| then Failure(LengthMessage(|xs|)) else Success(Zip(Columns, xs))
    case Some(Dict(d)) => Success(d)
    case _ => Failure(ShapeMessage)
  }

  /** The values of the columns `cols[i..]`, in column order, or the message for the
      first column from `i` on that the dictionary lacks. */
  function OrderedFrom<L>(dict: map<string, L>, cols: seq<string>, i: nat): Result<seq<L>, string>
    requires i <= |cols|
    decreases |cols| - i
  {
    if i == |cols| then Success([])
    else if cols[i] !in dict then Failure("Missing feature: " + cols[i])
    else match OrderedFrom(dict, cols, i + 1)
      case Success(rest) => Success([dict[cols[i]]] + rest)
      case Failure(m) => Failure(m)
  }

  /** The ordered input vector of a dictionary. */
  function OrderedValues<L>(dict: map<string, L>): Result<seq<L>, string>
  {
    OrderedFrom(dict, Columns, 0)
  }

  /** `fertility_map.get(k, "Unknown Class")`. */
  function FertilityLabel(k: int): (name: string)
    ensures name == "Unknown Class" <==> k < 0 || k > 2
  {
    if k == 0 then "Class 0 (e.g., Low Fertility)"
    else if k == 1 then "Class 1 (e.g., Medium Fertility)"
    else if k == 2 then "Class 2 (e.g., High Fertility)"
    else "Unknown Class"
  }

  /** The loop that builds `ordered_input_values`, returning early at a missing column. */
  method OrderFeatures<L>(dict: map<string, L>) returns (r: Result<seq<L>, string>)
    ensures r == OrderedValues(dict)
  {
    var ordered: seq<L> := [];
    for i := 0 to |Columns|
      invariant forall j :: 0 <= j < i ==> Columns[j] in dict
      invariant |ordered| == i && forall j :: 0 <= j < i ==> ordered[j] == dict[Columns[j]]
    {
      var col := Columns[i];
      if col !in dict {
        r := Failure("Missing feature: " + col);
        OrderedValuesSpec(dict);
        assert OrderedValues(dict).error == r.error by {
          var k :| 0 <= k < |Columns| && Columns[k] !in dict
            && (forall j :: 0 <= j < k ==> Columns[j] in dict)
            && OrderedValues(dict).error == "Missing feature: " + Columns[k];
          assert k == i;
        }
        return;
      }
      ordered := ordered + [dict[col]];
    }
    r := Success(ordered);
    OrderedValuesSpec(dict);
    assert OrderedValues(dict).value == ordered;
  }

  /** The handler. */
  method Predict<L, P>(loaded: bool, body: Body<L>, ml: seq<L> -> MlOutcome<P>) returns (resp: Response<P>)
    ensures !loaded ==> resp == Error(500, NotLoadedMessage)
    ensures loaded && body.Raises? ==> resp == Error(500, body.exceptionText)
    ensures loaded && body.Object? && BindFeatures(body.features).Failure? ==>
      resp == Error(400, BindFeatures(body.features).error)
    ensures loaded && body.Object? && BindFeatures(body.features).Success? ==>
      match OrderedValues(BindFeatures(body.features).value)
      case Failure(m) => resp == Error(400, m)
      case Success(vs) => match ml(vs)
        case MlRaises(t) => resp == Error(500, t)
        case Classified(k, probs) => resp == Prediction(k, FertilityLabel(k), probs)
  {
    if !loaded {
      return Error(500, NotLoadedMessage);
    }
    match body
    case Raises(t) =>
      resp := Error(500, t);
    case Object(features) =>
      var bound := BindFeatures(features);
      if bound.Failure? {
        return Error(400, bound.error);
      }
      var ordered := OrderFeatures(bound.value);
      if ordered.Failure? {
        return Error(400, ordered.error);
      }
      match ml(ordered.value)
      case MlRaises(t) =>
        resp := Error(500, t);
      case Classified(k, probs) =>
        resp := Prediction(k, FertilityLabel(k), probs);
  }

  // ---------------------------------------------------------------------------
  // What the handler promises

  /** The columns are twelve distinct names. */
  lemma ColumnsDistinct()
    ensures |Columns| == 12
    ensures forall i, j :: 0 <= i < j < |Columns| ==> Columns[i] != Columns[j]
  {
  }

  /** Zipping distinct keys binds each key to the value at its own position, and to
      nothing else. */
  lemma {:induction false} ZipBindsPositionally<L>(keys: seq<string>, values: seq<L>)
    requires |keys| == |values|
    requires forall i, j :: 0 <= i < j < |keys| ==> keys[i] != keys[j]
    ensures Zip(keys, values).Keys == set k | k in keys
    ensures forall i :: 0 <= i < |keys| ==> Zip(keys, values)[keys[i]] == values[i]
    decreases |keys|
  {
    ZipKeys(keys, values);
    if keys != [] {
      var n := |keys| - 1;
      ZipBindsPositionally(keys[..n], values[..n]);
      var d := Zip(keys[..n], values[..n]);
      assert Zip(keys, values) == d[keys[n] := values[n]];
      forall i | 0 <= i < n
        ensures Zip(keys, values)[keys[i]] == values[i]
      {
        assert keys[i] != keys[n];
        assert keys[..n][i] == keys[i] && values[..n][i] == values[i];
      }
    }
  }

  /** The keys of a zip are the keys zipped. */
  lemma {:induction false} ZipKeys<L>(keys: seq<string>, values: seq<L>)
    requires |keys| == |values|
    ensures Zip(keys, values).Keys == set k | k in keys
    decreases |keys|
  {
    if keys != [] {
      var n := |keys| - 1;
      ZipKeys(keys[..n], values[..n]);
      assert keys == keys[..n] + [keys[n]];
    }
  }

  /** The ordering from `i` succeeds exactly when every column from `i` on is present, and
      then holds the value of column `j` at position `j - i`; otherwise it names the
      first absent column from `i` on. */
  lemma {:induction false} OrderedFromSpec<L>(dict: map<string, L>, cols: seq<string>, i: nat)
    requires i <= |cols|
    ensures OrderedFrom(dict, cols, i).Success? <==> forall j :: i <= j < |cols| ==> cols[j] in dict
    ensures match OrderedFrom(dict, cols, i)
      case Success(vs) =>
        && |vs| == |cols| - i
        && forall j :: i <= j < |cols| ==> cols[j] in dict && vs[j - i] == dict[cols[j]]
      case Failure(m) =>
        exists k :: i <= k < |cols| && cols[k] !in dict
          && (forall j :: i <= j < k ==> cols[j] in dict)
          && m == "Missing feature: " + cols[k]
    decreases |cols| - i
  {
    if i < |cols| {
      if cols[i] in dict {
        OrderedFromSpec(dict, cols, i + 1);
        match OrderedFrom(dict, cols, i + 1)
        case Success(rest) =>
          var vs := [dict[cols[i]]] + rest;
          assert OrderedFrom(dict, cols, i) == Success(vs);
          forall j | i <= j < |cols|
            ensures cols[j] in dict && vs[j - i] == dict[cols[j]]
          {
            if j > i {
              assert vs[j - i] == rest[j - (i + 1)];
            }
          }
        case Failure(m) =>
          assert OrderedFrom(dict, cols, i) == Failure(m);
          var k :| i + 1 <= k < |cols| && cols[k] !in dict
            && (forall j :: i + 1 <= j < k ==> cols[j] in dict)
            && m == "Missing feature: " + cols[k];
          assert forall j :: i <= j < k ==> cols[j] in dict;
      }
    }
  }

  /** The ordered vector of a dictionary holding every column has exactly twelve
      entries, entry `i` being the value of column `i`; a dictionary lacking a column
      is refused with the first absent column, in column order. */
  lemma OrderedValuesSpec<L>(dict: map<string, L>)
    ensures OrderedValues(dict).Success? <==> forall j :: 0 <= j < |Columns| ==> Columns[j] in dict
    ensures OrderedValues(dict).Success? ==>
      var vs := OrderedValues(dict).value;
      && |vs| == 12
      && forall j :: 0 <= j < |Columns| ==> vs[j] == dict[Columns[j]]
    ensures OrderedValues(dict).Failure? ==>
      exists k :: 0 <= k < |Columns| && Columns[k] !in dict
        && (forall j :: 0 <= j < k ==> Columns[j] in dict)
        && OrderedValues(dict).error == "Missing feature: " + Columns[k]
  {
    OrderedFromSpec(dict, Columns, 0);
  }

  /** Keys outside the columns are ignored. */
  lemma OrderedValuesIgnoresExtraKeys<L>(dict: map<string, L>, extra: map<string, L>)
    requires forall k :: k in extra ==> k !in Columns
    ensures OrderedValues(dict + extra) == OrderedValues(dict)
  {
    OrderedFromIgnoresExtraKeys(dict, extra, Columns, 0);
  }

  lemma {:induction false} OrderedFromIgnoresExtraKeys<L>(dict: map<string, L>, extra: map<string, L>, cols: seq<string>, i: nat)
    requires i <= |cols|
    requires forall k :: k in extra ==> k !in cols
    ensures OrderedFrom(dict + extra, cols, i) == OrderedFrom(dict, cols, i)
    decreases |cols| - i
  {
    if i < |cols| {
      assert cols[i] !in extra;
      OrderedFromIgnoresExtraKeys(dict, extra, cols, i + 1);
    }
  }

  /** A list of twelve values is bound by position: the ordered vector is the list itself. */
  lemma ListBindsPositionally<L>(xs: seq<L>)
    requires |xs| == |Columns|
    ensures BindFeatures(Some(List(xs))) == Success(Zip(Columns, xs))
    ensures OrderedValues(Zip(Columns, xs)) == Success(xs)
  {
    ListOfTwelveBound(xs);
    ColumnsDistinct();
    var d := Zip(Columns, xs);
    ZipBindsPositionally(Columns, xs);
    assert forall j :: 0 <= j < |Columns| ==> Columns[j] in d;
    OrderedValuesSpec(d);
    var vs := OrderedValues(d).value;
    forall j | 0 <= j < |xs|
      ensures vs[j] == xs[j]
    {
      assert vs[j] == d[Columns[j]];
    }
    assert vs == xs;
  }

  lemma ListOfTwelveBound<L>(xs: seq<L>)
    requires |xs| == |Columns|
    ensures BindFeatures(Some(List(xs))) == Success(Zip(Columns, xs))
  {
  }

  /** A list of any other length is refused with the length message. */
  lemma WrongLengthRefused<L>(xs: seq<L>)
    requires |xs| != |Columns|
    ensures BindFeatures(Some(List(xs))) == Failure(LengthMessage(|xs|))
  {
  }

  /** The length message states twelve and the actual length, which reads back exactly. */
  lemma LengthMessageStatesBoth(n: nat)
    ensures exists digits ::
      && LengthMessage(n) == "Expected 12 features, got " + digits
      && Decimal.AllDigits(digits) && Decimal.DecimalValue(digits) == n
  {
    LengthMessageText(n);
    Decimal.NatToStringRoundTrip(n);
  }

  lemma LengthMessageText(n: nat)
    ensures LengthMessage(n) == "Expected 12 features, got " + Decimal.NatToString(n)
  {
    ColumnCountRendered();
  }

  lemma ColumnCountRendered()
    ensures Decimal.NatToString(|Columns|) == "12"
  {
    ColumnsDistinct();
    Decimal.TwelveRendersAsTwelve();
  }

  /** An absent `features`, or one that is neither a list nor an object, is refused. */
  lemma NonCollectionRefused<L>(features: Option<Json<L>>)
    requires !(features.Some? && (features.value.List? || features.value.Dict?))
    ensures BindFeatures(features) == Failure(ShapeMessage)
  {
  }

  /** Classes 0, 1 and 2 have distinct fixed labels; every other index is unknown. */
  lemma FertilityLabels()
    ensures forall k :: 0 <= k < 3 ==> FertilityLabel(k) != "Unknown Class"
    ensures forall k, j :: 0 <= k < j < 3 ==> FertilityLabel(k) != FertilityLabel(j)
    ensures forall k :: (k < 0 || k > 2) ==> FertilityLabel(k) == "Unknown Class"
    ensures FertilityLabel(0) == "Class 0 (e.g., Low Fertility)"
    ensures FertilityLabel(1) == "Class 1 (e.g., Medium Fertility)"
    ensures FertilityLabel(2) == "Class 2 (e.g., High Fertility)"
  {
  }
}
