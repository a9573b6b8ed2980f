/** Decimal rendering of integers, as Kotlin string templates and Python f-strings print them. */
module Decimal {

  /** The ASCII digit for `d`. */
  function DigitChar(d: nat): (c: char)
    requires d < 10
    ensures '0' <= c <= '9'
  {
    "0123456789"[d]
  }

  /** The number an ASCII digit stands for. */
  function DigitValue(c: char): nat
    requires '0' <= c <= '9'
  {
    (c - '0') as nat
  }

  /** Shortest decimal rendering of `n`: no sign, no leading zero. */
  function NatToString(n: nat): string
    decreases n
  {
    if n < 10 then [DigitChar(n)] else NatToString(n / 10) + [DigitChar(n % 10)]
  }

  /** `"-"` followed by the digits for a negative number, the digits alone otherwise. */
  function IntToString(i: int): string
  {
    if i < 0 then "-" + NatToString(-i) else NatToString(i)
  }

  predicate AllDigits(s: string)
  {
    forall k :: 0 <= k < |s| ==> '0' <= s[k] <= '9'
  }

  /** The number a string of ASCII digits denotes, most significant digit first. */
  function DecimalValue(s: string): nat
    requires AllDigits(s)
  {
    if s == [] then 0 else 10 * DecimalValue(s[..|s| - 1]) + DigitValue(s[|s| - 1])
  }

  /** The rendering is a non-empty digit string without a redundant leading zero,
      and reading it back gives the number: so a message that embeds
      `NatToString(n)` states `n` exactly. */
  lemma {:induction false} NatToStringRoundTrip(n: nat)
    ensures var s := NatToString(n);
      && |s| >= 1 && AllDigits(s)
      && (n > 0 <==> s[0] != '0')
      && DecimalValue(s) == n
    decreases n
  {
    var s := NatToString(n);
    if n >= 10 {
      NatToStringRoundTrip(n / 10);
      var t := NatToString(n / 10);
      assert s == t + [DigitChar(n % 10)];
      assert s[..|s| - 1] == t;
      assert DigitValue(DigitChar(n % 10)) == n % 10;
    } else {
      assert DigitValue(DigitChar(n)) == n;
    }
  }

  /** A rendered integer reads back as its sign and its magnitude. */
  lemma IntToStringRoundTrip(i: int)
    ensures var s := IntToString(i);
      && (i >= 0 ==> AllDigits(s) && DecimalValue(s) == i)
      && (i < 0 ==> |s| >= 2 && s[0] == '-' && AllDigits(s[1..]) && DecimalValue(s[1..]) == -i)
  {
    if i < 0 {
      var digits := NatToString(-i);
      NatToStringRoundTrip(-i);
      assert IntToString(i) == "-" + digits;
      assert IntToString(i)[1..] == digits;
    } else {
      NatToStringRoundTrip(i);
    }
  }

  /** The constant twelve, as the server's length message prints it. */
  lemma TwelveRendersAsTwelve()
    ensures NatToString(12) == "12"
  {
  }
}
