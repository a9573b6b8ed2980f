/** The strings the client builds from a finished request: the probability text shown
    on the result screen and the error texts shown on the input screen.

    The `%.2f` rendering of a probability is the parameter `fmt`, and the `0.0`
    used for a missing entry is the parameter `zero`. */
module ResultFormat {
  import opened Wrappers
  import Decimal

  /** Kotlin's `getOrElse(i) { default }` on an array. */
  function GetOrElse<P>(s: seq<P>, i: nat, default: P): P
  {
    if i < |s| then s[i] else default
  }

  /** The three entries the probability text shows: indices 0, 1 and 2. */
  function PadProbabilities<P>(probs: seq<P>, zero: P): seq<P>
  {
    [GetOrElse(probs, 0, zero), GetOrElse(probs, 1, zero), GetOrElse(probs, 2, zero)]
  }

  /** The text shown under the predicted label. */
  function ProbabilitiesText<P>(probs: seq<P>, zero: P, fmt: P -> string): string
  {
    var p := PadProbabilities(probs, zero);
    "Probabilities: \nClass 0: " + fmt(p[0]) + "\nClass 1: " + fmt(p[1]) + "\nClass 2: " + fmt(p[2])
  }

  /** The error text for an HTTP status other than 200: the error body, or a
      placeholder naming the status when the body cannot be read. */
  function ApiErrorText(code: int, errorBody: Option<string>): string
  {
    "API Error: " + errorBody.GetOr("Error (Code " + Decimal.IntToString(code) + ") - No error details.")
  }

  /** The error text for an exception: its message, or a placeholder when it has none. */
  function NetworkErrorText(message: Option<string>): string
  {
    "Network Error: " + message.GetOr("Unknown network error")
  }

  /** Padding always gives three entries: the input's own where it has them, `zero` elsewhere. */
  lemma PadProbabilitiesShape<P>(probs: seq<P>, zero: P)
    ensures |PadProbabilities(probs, zero)| == 3
    ensures forall i :: 0 <= i < 3 && i < |probs| ==> PadProbabilities(probs, zero)[i] == probs[i]
    ensures forall i :: |probs| <= i < 3 ==> PadProbabilities(probs, zero)[i] == zero
  {
  }

  /** A long enough sequence keeps its first three entries, and anything after them
      is ignored. */
  lemma PadIgnoresExtras<P>(probs: seq<P>, extra: seq<P>, zero: P)
    requires |probs| >= 3
    ensures PadProbabilities(probs + extra, zero) == PadProbabilities(probs, zero) == probs[..3]
  {
  }

  /** A short sequence is extended with `zero` up to three entries. */
  lemma PadFillsShort<P>(probs: seq<P>, zero: P)
    requires |probs| < 3
    ensures PadProbabilities(probs, zero) == probs + seq(3 - |probs|, _ => zero)
  {
    var r := PadProbabilities(probs, zero);
    var z := seq(3 - |probs|, _ => zero);
    assert |r| == |probs + z|;
    forall i | 0 <= i < 3
      ensures r[i] == (probs + z)[i]
    {
    }
  }

  /** Padding a padded sequence changes nothing. */
  lemma PadIdempotent<P>(probs: seq<P>, zero: P)
    ensures PadProbabilities(PadProbabilities(probs, zero), zero) == PadProbabilities(probs, zero)
  {
  }

  /** The probability text never fails and reads nothing past index 2: two responses
      that agree on the padded entries give the same text. */
  lemma ProbabilitiesTextUsesFirstThree<P>(probs: seq<P>, other: seq<P>, zero: P, fmt: P -> string)
    requires PadProbabilities(probs, zero) == PadProbabilities(other, zero)
    ensures ProbabilitiesText(probs, zero, fmt) == ProbabilitiesText(other, zero, fmt)
  {
  }

  /** A single probability: the missing classes 1 and 2 are shown as `zero`. */
  lemma ProbabilitiesTextOfOne<P>(a: P, zero: P, fmt: P -> string)
    ensures ProbabilitiesText([a], zero, fmt)
      == "Probabilities: \nClass 0: " + fmt(a) + "\nClass 1: " + fmt(zero) + "\nClass 2: " + fmt(zero)
  {
  }

  /** The placeholder for an unreadable error body still states the status code: its
      sign, and digits that read back as its magnitude. */
  lemma ApiErrorTextStatesCode(code: int)
    ensures exists s ::
      && ApiErrorText(code, None) == "API Error: Error (Code " + s + ") - No error details."
      && (code >= 0 ==> Decimal.AllDigits(s) && Decimal.DecimalValue(s) == code)
      && (code < 0 ==> |s| >= 2 && s[0] == '-' && Decimal.AllDigits(s[1..]) && Decimal.DecimalValue(s[1..]) == -code)
  {
    var s := Decimal.IntToString(code);
    assert ApiErrorText(code, None) == "API Error: Error (Code " + s + ") - No error details.";
    Decimal.IntToStringRoundTrip(code);
    if code < 0 {
      assert |s| >= 2 && s[0] == '-' && Decimal.AllDigits(s[1..]) && Decimal.DecimalValue(s[1..]) == -code;
    } else {
      assert Decimal.AllDigits(s) && Decimal.DecimalValue(s) == code;
    }
  }
}
