# Soil fertility predictor: client input flow and service request handling

A model of the small pieces of logic in the soil fertility predictor. The Android
client collects twelve soil-nutrient measurements (N, P, K, pH, EC, OC, S, Zn, Fe, Cu,
Mn, B), sends them to a prediction service and shows the predicted fertility class with
its probabilities. The Flask service checks the request, puts the twelve values in
training-column order, runs the model and labels the predicted class.

Modules:

- `KeystrokeFilter` (keystroke_filter.dfy): the numeric filter that every text field
  applies to what the user types. Digits stay. A `.` stays only when the text holds
  at most one `.` and it is not a leading dot followed by a non-digit. A value that
  then starts with `.` is stored behind a `"0"`. Kotlin's `Char.isDigit` stays
  abstract as the parameter `isDigit`. Lemmas that need facts about it require that
  `.` is not a digit and `0` is.
- `FormValidation` (form_validation.dfy): the column order, the field labels and the
  fail-fast form check run by the predict button. `CollectFeatureValues` is the
  source's loop with its `validInput` flag and `break`, proved equal to the
  specification function `Validate`. The lemmas about `Validate` state what the check
  promises. Kotlin's `toDoubleOrNull` is the parameter `parse`, and values are of an
  opaque type.
- `ResultFormat` (result_format.dfy): padding the probabilities to indices 0, 1 and 2,
  the probability text, and the two error texts.
- `Screens` (screens.dfy): the two classes whose fields the callbacks update.
  `App` holds the current screen and the two result strings. `InputScreen` holds the
  field texts, `isLoading` and `errorText`. The network call is reduced to a
  `CallOutcome` delivered by `App.Complete`.
- `PredictServer` (predict_server.dfy): the service's `predict()` handler. JSON
  values are a small datatype with opaque leaves. The scaler, the model and `argmax`
  are the parameter `ml`.
- `ColumnOrder` (column_order.dfy): the client's and the service's column orders agree.
- `Decimal` and `Wrappers`: decimal rendering of numbers in messages; `Option` and
  `Result`.

Behaviour the model follows from the code:

- Going back from the result screen shows empty fields. The input screen's state is
  held by `remember` inside the `Screen.Input` branch, so it is dropped when the app
  switches to the result screen. `App.GoBack` therefore creates a fresh `InputScreen`.
- A 200 response whose body lacks `human_readable_prediction` or `probabilities`
  throws inside the request coroutine. The same `catch` as a transport failure handles
  it, so it shows as `"Network Error: ..."`. There is no separate malformed-response
  error.
- A field value produced by the filter is never `"."`: `KeystrokeFilter.StoredValueWellFormed`
  proves it. The validator's `== "."` test therefore never fires for text typed
  through the filter. It is modelled anyway, because the validator accepts any field map.
- When the typed text holds two or more `.`, every `.` is dropped. So typing a second
  `.` after `1.5` stores `15`.

## Model

| member | source | states |
|---|---|---|
| KeystrokeFilter.StoredValueChars | SoilfertilityApp/app/src/main/java/com/brijesh1715/soilfertilityapp/MainActivity.kt:149-152 | a stored value holds only digits, `.` and a leading `"0"`; at most one `.`; and no `.` at all when the typed text held two or more |
| KeystrokeFilter.Keep | SoilfertilityApp/app/src/main/java/com/brijesh1715/soilfertilityapp/MainActivity.kt:150 | defines which typed characters `filterIndexed` keeps; its rule for `.` is stated in both directions by `LeadingDot` (a `.` in front) and `NonLeadingDotKept` (a `.` elsewhere), and its other consequences by `KeptChars` and `KeptNoDots` |
| KeystrokeFilter.FilterIndexed | SoilfertilityApp/app/src/main/java/com/brijesh1715/soilfertilityapp/MainActivity.kt:149-151 | the filtered text is never longer than the typed text; `KeptIsSubsequence` and `KeptDigits` state that it only deletes characters and keeps every digit |
| KeystrokeFilter.OnValueChange | SoilfertilityApp/app/src/main/java/com/brijesh1715/soilfertilityapp/MainActivity.kt:149-152 | a stored value never starts with `.` and is at most one character longer than the typed text |
| KeystrokeFilter.LeadingDot | SoilfertilityApp/app/src/main/java/com/brijesh1715/soilfertilityapp/MainActivity.kt:150-152 | when the typed text starts with `.`, the stored value holds a `.` exactly when that `.` is the only one and is the whole input or is followed by a digit; the stored value then starts with `"0."` |
| KeystrokeFilter.NonLeadingDotKept | SoilfertilityApp/app/src/main/java/com/brijesh1715/soilfertilityapp/MainActivity.kt:150-152 | when the typed text has a `.` at a position other than the first, the stored value holds a `.` exactly when that is the only `.` typed |
| KeystrokeFilter.StoredValueOnlyDeletes | SoilfertilityApp/app/src/main/java/com/brijesh1715/soilfertilityapp/MainActivity.kt:149-152 | apart from a `"0"` put in front exactly when the filtered text starts with `.`, the stored value is the typed text with characters deleted, and it keeps every typed digit in order |
| KeystrokeFilter.StoredValueWellFormed | SoilfertilityApp/app/src/main/java/com/brijesh1715/soilfertilityapp/MainActivity.kt:149-152 | every stored value is well formed: digits and `.` only, at most one `.`, no leading `.` |
| KeystrokeFilter.WellFormedIsFixed | SoilfertilityApp/app/src/main/java/com/brijesh1715/soilfertilityapp/MainActivity.kt:149-152 | filtering a well-formed value returns it unchanged |
| KeystrokeFilter.OnValueChangeIdempotent | SoilfertilityApp/app/src/main/java/com/brijesh1715/soilfertilityapp/MainActivity.kt:149-152 | re-filtering a stored value returns it unchanged |
| KeystrokeFilter.KeptNoDots | SoilfertilityApp/app/src/main/java/com/brijesh1715/soilfertilityapp/MainActivity.kt:150 | when the typed text holds two or more `.`, no `.` is kept |
| KeystrokeFilter.KeptIsSubsequence | SoilfertilityApp/app/src/main/java/com/brijesh1715/soilfertilityapp/MainActivity.kt:149-151 | `filterIndexed` only deletes characters |
| KeystrokeFilter.KeptDigits | SoilfertilityApp/app/src/main/java/com/brijesh1715/soilfertilityapp/MainActivity.kt:149-151 | `filterIndexed` keeps every digit, in order |
| FormValidation.HintFor | SoilfertilityApp/app/src/main/java/com/brijesh1715/soilfertilityapp/MainActivity.kt:154 | the label of a column, or the column name itself when it has none; `ColumnsDistinctAndLabelled` states that every column has one |
| FormValidation.FieldText | SoilfertilityApp/app/src/main/java/com/brijesh1715/soilfertilityapp/MainActivity.kt:180 | the text of a field, or `""` when the field is missing; `EmptyFormRefusedAtFirstField` uses it on a fresh form |
| FormValidation.CheckField | SoilfertilityApp/app/src/main/java/com/brijesh1715/soilfertilityapp/MainActivity.kt:182-196 | a field passes exactly when it is non-empty, does not end with `.` and `parse` accepts it, and then yields what `parse` returned |
| FormValidation.ToastMessage | SoilfertilityApp/app/src/main/java/com/brijesh1715/soilfertilityapp/MainActivity.kt:184-193 | the toast ends with the refused field's label |
| FormValidation.ValidateFrom | SoilfertilityApp/app/src/main/java/com/brijesh1715/soilfertilityapp/MainActivity.kt:179-197 | the fail-fast walk over the columns from i; stated by `ValidateFromValidIff`, `ValidateFromValues`, `ValidateFromInvalid` and `ValidateFromStopsAtFailure` |
| FormValidation.Validate | SoilfertilityApp/app/src/main/java/com/brijesh1715/soilfertilityapp/MainActivity.kt:179-197 | the whole-form check; stated by `ValidFormYieldsOrderedValues`, `InvalidFormNamesFirstFailure` and `LaterFieldsNotInspected`, and computed by `CollectFeatureValues` |
| FormValidation.CollectFeatureValues | SoilfertilityApp/app/src/main/java/com/brijesh1715/soilfertilityapp/MainActivity.kt:175-197 | the loop with its flag and `break` computes exactly the fail-fast check `Validate` |
| FormValidation.ValidFormYieldsOrderedValues | SoilfertilityApp/app/src/main/java/com/brijesh1715/soilfertilityapp/MainActivity.kt:179-190 | the check passes exactly when every field passes; it then yields exactly 12 values, the value of column j at position j |
| FormValidation.InvalidFormNamesFirstFailure | SoilfertilityApp/app/src/main/java/com/brijesh1715/soilfertilityapp/MainActivity.kt:179-196 | a refusal names the first refused column in column order, the reason its check gave, and that column's label |
| FormValidation.LaterFieldsNotInspected | SoilfertilityApp/app/src/main/java/com/brijesh1715/soilfertilityapp/MainActivity.kt:179-197 | fields after the first refused one cannot change the outcome |
| FormValidation.EmptyOrMalformedFields | SoilfertilityApp/app/src/main/java/com/brijesh1715/soilfertilityapp/MainActivity.kt:182-195 | a field is refused as malformed exactly when it is empty, `.` or ends with `.`, and as not a number exactly when otherwise `parse` fails |
| FormValidation.ColumnsDistinctAndLabelled | SoilfertilityApp/app/src/main/java/com/brijesh1715/soilfertilityapp/MainActivity.kt:45-59 | the twelve columns are distinct and each has a label |
| FormValidation.ValidateFromValidIff | SoilfertilityApp/app/src/main/java/com/brijesh1715/soilfertilityapp/MainActivity.kt:179-197 | the walk from column i passes exactly when every column from i on passes |
| FormValidation.ValidateFromValues | SoilfertilityApp/app/src/main/java/com/brijesh1715/soilfertilityapp/MainActivity.kt:188-190 | a passing walk appends the values of the remaining columns in column order |
| FormValidation.ValidateFromInvalid | SoilfertilityApp/app/src/main/java/com/brijesh1715/soilfertilityapp/MainActivity.kt:182-195 | a refusing walk names the first refused column from i on, its reason and its label |
| FormValidation.ValidateFromStopsAtFailure | SoilfertilityApp/app/src/main/java/com/brijesh1715/soilfertilityapp/MainActivity.kt:186-195 | the walk from i is unaffected by fields after its first refused one |
| ResultFormat.PadProbabilities | SoilfertilityApp/app/src/main/java/com/brijesh1715/soilfertilityapp/MainActivity.kt:236 | the three entries `getOrElse` reads; stated by `PadProbabilitiesShape`, `PadIgnoresExtras`, `PadFillsShort` and `PadIdempotent` |
| ResultFormat.ProbabilitiesText | SoilfertilityApp/app/src/main/java/com/brijesh1715/soilfertilityapp/MainActivity.kt:236 | the probability text; stated by `ProbabilitiesTextUsesFirstThree` and `ProbabilitiesTextOfOne` |
| ResultFormat.ApiErrorText | SoilfertilityApp/app/src/main/java/com/brijesh1715/soilfertilityapp/MainActivity.kt:245-248 | the error text for a status other than 200; stated by `ApiErrorTextStatesCode`, and shown by `App.Complete` |
| ResultFormat.NetworkErrorText | SoilfertilityApp/app/src/main/java/com/brijesh1715/soilfertilityapp/MainActivity.kt:253-257 | the error text for an exception, shown by `App.Complete` |
| ResultFormat.PadProbabilitiesShape | SoilfertilityApp/app/src/main/java/com/brijesh1715/soilfertilityapp/MainActivity.kt:236 | padding gives three entries: the response's own at indices it has, the default elsewhere |
| ResultFormat.PadIgnoresExtras | SoilfertilityApp/app/src/main/java/com/brijesh1715/soilfertilityapp/MainActivity.kt:236 | entries after index 2 are ignored: a long sequence pads to its first three entries |
| ResultFormat.PadFillsShort | SoilfertilityApp/app/src/main/java/com/brijesh1715/soilfertilityapp/MainActivity.kt:236 | a short sequence is extended with the default up to three entries |
| ResultFormat.PadIdempotent | SoilfertilityApp/app/src/main/java/com/brijesh1715/soilfertilityapp/MainActivity.kt:236 | padding a padded sequence changes nothing |
| ResultFormat.ProbabilitiesTextUsesFirstThree | SoilfertilityApp/app/src/main/java/com/brijesh1715/soilfertilityapp/MainActivity.kt:236 | the probability text depends only on the padded entries |
| ResultFormat.ProbabilitiesTextOfOne | SoilfertilityApp/app/src/main/java/com/brijesh1715/soilfertilityapp/MainActivity.kt:236 | a single probability is shown for class 0, and classes 1 and 2 show the default |
| ResultFormat.ApiErrorTextStatesCode | SoilfertilityApp/app/src/main/java/com/brijesh1715/soilfertilityapp/MainActivity.kt:245-248 | the placeholder for an unreadable error body embeds the status code: a `-` for a negative code, then digits that read back as its magnitude |
| Screens.EmptyFields | SoilfertilityApp/app/src/main/java/com/brijesh1715/soilfertilityapp/MainActivity.kt:118 | a fresh input screen has exactly the twelve columns, all empty |
| Screens.EmptyFormRefusedAtFirstField | SoilfertilityApp/app/src/main/java/com/brijesh1715/soilfertilityapp/MainActivity.kt:182-184 | a fresh input screen is refused at the nitrogen field as empty |
| Screens.InputScreen.constructor | SoilfertilityApp/app/src/main/java/com/brijesh1715/soilfertilityapp/MainActivity.kt:118-120 | a fresh input screen: empty fields, not loading, no error |
| Screens.InputScreen.OnValueChange | SoilfertilityApp/app/src/main/java/com/brijesh1715/soilfertilityapp/MainActivity.kt:148-153 | the edited field stores the filtered text; nothing else changes; stored texts stay well formed |
| Screens.InputScreen.Submit | SoilfertilityApp/app/src/main/java/com/brijesh1715/soilfertilityapp/MainActivity.kt:172-204 | no effect while loading; otherwise clears the error, and either launches with the 12 validated values and sets loading, or shows the toast for the first refused field and stays not loading; afterwards no error text is on display |
| Screens.InputScreen.DisplayedError | SoilfertilityApp/app/src/main/java/com/brijesh1715/soilfertilityapp/MainActivity.kt:279-287 | the error text on display: present exactly when there is an error text and no request is in flight; `App.Complete` and `App.Submit` state what it shows after each event |
| Screens.App.constructor | SoilfertilityApp/app/src/main/java/com/brijesh1715/soilfertilityapp/MainActivity.kt:78-80 | the app starts on the input screen with no result strings |
| Screens.App.Type | SoilfertilityApp/app/src/main/java/com/brijesh1715/soilfertilityapp/MainActivity.kt:145-153 | typing on the input screen updates that field through the filter |
| Screens.App.Submit | SoilfertilityApp/app/src/main/java/com/brijesh1715/soilfertilityapp/MainActivity.kt:171-270 | the predict button as seen from the app: the button is disabled while loading, the screen does not change, and no error text is on display afterwards |
| Screens.App.Complete | SoilfertilityApp/app/src/main/java/com/brijesh1715/soilfertilityapp/MainActivity.kt:228-259 | every completion clears loading; success moves to the result screen with the label and probability text and clears the error; a non-200 status displays the API error text; an exception displays the network error text |
| Screens.App.GoBack | SoilfertilityApp/app/src/main/java/com/brijesh1715/soilfertilityapp/MainActivity.kt:96-101 | back to the input screen with both result strings cleared and a fresh input screen |
| PredictServer.Predict | app.py:24-83 | 500 when artifacts are missing, before the body is looked at; 500 with the exception text for any raise; 400 for a bad shape, a wrong length or a missing column; otherwise the model's class with its label |
| PredictServer.LengthMessage | app.py:39 | the message for a list of the wrong length; stated by `LengthMessageStatesBoth` |
| PredictServer.Zip | app.py:41 | `dict(zip(...))`; stated by `ZipBindsPositionally` |
| PredictServer.BindFeatures | app.py:33-43 | the shape and length guards and the dictionary they leave; stated by `ListBindsPositionally`, `WrongLengthRefused` and `NonCollectionRefused` |
| PredictServer.OrderedFrom | app.py:49-52 | the ordering from column i; stated by `OrderedFromSpec` and `OrderedFromIgnoresExtraKeys` |
| PredictServer.OrderedValues | app.py:48-52 | the ordered input vector; stated by `OrderedValuesSpec` and `OrderedValuesIgnoresExtraKeys`, and computed by `OrderFeatures` |
| PredictServer.FertilityLabel | app.py:70-71 | the label is "Unknown Class" exactly when the class index is outside 0, 1 and 2 |
| PredictServer.OrderFeatures | app.py:48-52 | the loop with its early return computes exactly the ordered vector `OrderedValues` |
| PredictServer.OrderedValuesSpec | app.py:48-52 | the vector exists exactly when every column is present; it then has 12 entries, entry i being the value of column i; otherwise the message names the first absent column |
| PredictServer.OrderedFromSpec | app.py:49-52 | the ordering from column i, by the same terms |
| PredictServer.OrderedValuesIgnoresExtraKeys | app.py:43-52 | keys outside the columns do not affect the vector |
| PredictServer.OrderedFromIgnoresExtraKeys | app.py:49-52 | the ordering from column i ignores keys outside the columns |
| PredictServer.ZipBindsPositionally | app.py:41 | zipping distinct keys binds each key to the value at its position, and only those keys |
| PredictServer.ListBindsPositionally | app.py:37-52 | a 12-element list is bound positionally: the ordered vector is the list itself |
| PredictServer.WrongLengthRefused | app.py:38-39 | a list of another length is refused with the length message |
| PredictServer.LengthMessageStatesBoth | app.py:39 | the length message states 12 and the actual length, which reads back exactly |
| PredictServer.NonCollectionRefused | app.py:33-34 | an absent `features`, or one that is neither a list nor an object, is refused with the shape message |
| PredictServer.FertilityLabels | app.py:70-71 | classes 0, 1 and 2 have the three distinct labels of the map, each stated; any other index is "Unknown Class" |
| PredictServer.ColumnsDistinct | app.py:21 | the service's columns are twelve distinct names |
| ColumnOrder.ClientAndServerColumnsAgree | app.py:21 | the client's column order equals the service's |
| ColumnOrder.ClientListBindsToClientColumns | app.py:41 | a list the client sends binds each value to the client's column at that position |
| Decimal.NatToStringRoundTrip | app.py:39 | a number renders as a non-empty digit string without a leading zero that reads back as the number |
| Decimal.IntToStringRoundTrip | SoilfertilityApp/app/src/main/java/com/brijesh1715/soilfertilityapp/MainActivity.kt:245 | an integer renders as its digits, behind a `-` when negative, and the digits read back as its magnitude |

## Left out

- HTTP transport: the URL, `HttpURLConnection`, headers, the 15000 ms timeouts, streams and
  JSON (de)serialisation. They are reduced to `Screens.CallOutcome`. The connection is
  not released on the exception path (`disconnect` is skipped), and the model makes no
  claim that it is.
- Coroutine dispatching (`Dispatchers.IO`/`Main`, `withContext`): completion is one
  sequential event, `App.Complete`. It can only happen while a request is in flight.
- Compose layout, theming, focus handling, `Log`, previews and the rendering of
  `ResultScreen`. The toast text is modelled, but showing it is not.
- Floating point: `toDoubleOrNull` is the parameter `parse` and `%.2f` is the
  parameter `fmt`. The `0.0` default is the parameter `zero`.
- `Char.isDigit` (Unicode decimal digits) is the parameter `isDigit`.
- Text encoding: the typed text is modelled as a sequence of Unicode scalar values, not
  of UTF-16 code units as a Kotlin `String` is. Kotlin's `Char.isDigit` sees each half of
  a surrogate pair on its own, so it accepts no character above U+FFFF. `isDigit`
  stands for that test: the model matches the source when `isDigit` is false for
  every character above U+FFFF. Indices and lengths (`newValue[1]`, `newValue.length`)
  then count characters, not code units.
- Service plumbing: Flask routing, `request.get_json` (reduced to `Body`), `jsonify`,
  `print`, and loading the artifacts (reduced to the flag `loaded`). A body that is not
  JSON or not an object raises inside the handler; it is `Body.Raises` with the
  exception's text.
- `scaler.transform`, `model.predict` and `np.argmax`: foreign numeric calls. They are
  the parameter `ml`, whose outcome is a class index with probabilities, or an
  exception text.
