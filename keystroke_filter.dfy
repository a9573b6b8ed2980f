/** The numeric keystroke filter that every input field of the client applies to
    the text the user has typed, before storing it as the field's value
    (`onValueChange` in MainActivity.kt).

    Kotlin's `Char.isDigit` accepts every Unicode decimal digit; the model keeps it
    abstract as the parameter `isDigit`. The lemmas that need facts about it say so:
    `.` is not a digit, `0` is. */
module KeystrokeFilter {

  /** Number of occurrences of `c` in `s` (Kotlin's `count { it == c }`). */
  function Count(s: string, c: char): nat
  {
    if s == [] then 0 else Count(s[..|s| - 1], c) + (if s[|s| - 1] == c then 1 else 0)
  }

  /** The predicate `filterIndexed` applies to index `i` of the typed text `s`:
      a digit always stays; a `.` stays only when `s` holds at most one `.` and
      it is not a leading dot followed by something other than a digit. */
  predicate Keep(isDigit: char -> bool, s: string, i: nat)
    requires i < |s|
  {
    || isDigit(s[i])
    || (&& s[i] == '.'
        && Count(s, '.') <= 1
        && (|| i > 0
            || |s| == 1
            || (i == 0 && |s| > 1 && isDigit(s[1]))))
  }

  /** The characters of `s[..n]` that `Keep` accepts, in order. */
  function Kept(isDigit: char -> bool, s: string, n: nat): string
    requires n <= |s|
    decreases n
  {
    if n == 0 then []
    else Kept(isDigit, s, n - 1) + (if Keep(isDigit, s, n - 1) then [s[n - 1]] else [])
  }

  /** `newValue.filterIndexed { index, char -> ... }`. */
  function FilterIndexed(isDigit: char -> bool, s: string): (filtered: string)
    ensures |filtered| <= |s|
  {
    KeptLength(isDigit, s, |s|);
    Kept(isDigit, s, |s|)
  }

  /** The value stored for a field when the user has typed `s`: the filtered text,
      with `"0"` put in front when it starts with `.`. A stored value never starts
      with `.`, and is at most one character longer than what was typed. */
  function OnValueChange(isDigit: char -> bool, s: string): (v: string)
    ensures v == [] || v[0] != '.'
    ensures |v| <= |s| + 1
  {
    var filtered := FilterIndexed(isDigit, s);
    if |filtered| > 0 && filtered[0] == '.' then "0" + filtered else filtered
  }

  /** `a` is `b` with some characters deleted (possibly none). */
  predicate Subsequence(a: string, b: string)
    decreases |b|
  {
    if b == [] then a == []
    else
      || Subsequence(a, b[..|b| - 1])
      || (a != [] && a[|a| - 1] == b[|b| - 1] && Subsequence(a[..|a| - 1], b[..|b| - 1]))
  }

  /** The characters of `s` that `isDigit` accepts, in order. */
  function Digits(isDigit: char -> bool, s: string): string
  {
    if s == [] then [] else Digits(isDigit, s[..|s| - 1]) + (if isDigit(s[|s| - 1]) then [s[|s| - 1]] else [])
  }

  /** A stored value as the filter leaves it: digits and at most one `.`, never a leading `.`. */
  predicate WellFormed(isDigit: char -> bool, v: string)
  {
    && (forall k :: 0 <= k < |v| ==> isDigit(v[k]) || v[k] == '.')
    && Count(v, '.') <= 1
    && (v == [] || v[0] != '.')
  }

  // ---------------------------------------------------------------------------
  // Facts about the helpers

  lemma {:induction false} CountAppend(a: string, b: string, c: char)
    ensures Count(a + b, c) == Count(a, c) + Count(b, c)
    decreases |b|
  {
    if b == [] {
      assert a + b == a;
    } else {
      assert (a + b)[..|a + b| - 1] == a + b[..|b| - 1];
      CountAppend(a, b[..|b| - 1], c);
    }
  }

  lemma {:induction false} CountZeroMeansAbsent(s: string, c: char)
    ensures Count(s, c) == 0 <==> forall k :: 0 <= k < |s| ==> s[k] != c
    decreases |s|
  {
    if s != [] {
      CountZeroMeansAbsent(s[..|s| - 1], c);
      assert forall k :: 0 <= k < |s| - 1 ==> s[..|s| - 1][k] == s[k];
    }
  }

  lemma {:induction false} KeptLength(isDigit: char -> bool, s: string, n: nat)
    requires n <= |s|
    ensures |Kept(isDigit, s, n)| <= n
    decreases n
  {
    if n > 0 { KeptLength(isDigit, s, n - 1); }
  }

  /** Every kept character is a kept index's character: a digit or a surviving `.`. */
  lemma {:induction false} KeptChars(isDigit: char -> bool, s: string, n: nat)
    requires n <= |s|
    ensures forall k :: 0 <= k < |Kept(isDigit, s, n)| ==>
      isDigit(Kept(isDigit, s, n)[k]) || Kept(isDigit, s, n)[k] == '.'
    decreases n
  {
    if n > 0 { KeptChars(isDigit, s, n - 1); }
  }

  /** No `.` survives the filter when the typed text holds two or more. */
  lemma {:induction false} KeptNoDots(isDigit: char -> bool, s: string, n: nat)
    requires !isDigit('.')
    requires Count(s, '.') >= 2
    requires n <= |s|
    ensures Count(Kept(isDigit, s, n), '.') == 0
    decreases n
  {
    if n > 0 {
      KeptNoDots(isDigit, s, n - 1);
      var added := if Keep(isDigit, s, n - 1) then [s[n - 1]] else [];
      CountAppend(Kept(isDigit, s, n - 1), added, '.');
      assert added != [] ==> added[..0] == [];
    }
  }

  /** The filter keeps at most as many `.` as were typed. */
  lemma {:induction false} KeptDotsBounded(isDigit: char -> bool, s: string, n: nat)
    requires n <= |s|
    ensures Count(Kept(isDigit, s, n), '.') <= Count(s[..n], '.')
    decreases n
  {
    if n > 0 {
      KeptDotsBounded(isDigit, s, n - 1);
      var added := if Keep(isDigit, s, n - 1) then [s[n - 1]] else [];
      CountAppend(Kept(isDigit, s, n - 1), added, '.');
      assert s[..n][..n - 1] == s[..n - 1];
      assert added != [] ==> added[..0] == [];
    }
  }

  /** `Kept(s, n)` is `s[..n]` with some characters deleted. */
  lemma {:induction false} KeptIsSubsequence(isDigit: char -> bool, s: string, n: nat)
    requires n <= |s|
    ensures Subsequence(Kept(isDigit, s, n), s[..n])
    decreases n
  {
    if n > 0 {
      KeptIsSubsequence(isDigit, s, n - 1);
      var k := Kept(isDigit, s, n);
      assert s[..n][..n - 1] == s[..n - 1];
      if Keep(isDigit, s, n - 1) {
        assert k[..|k| - 1] == Kept(isDigit, s, n - 1);
        assert k[|k| - 1] == s[..n][n - 1];
      } else {
        assert k == Kept(isDigit, s, n - 1);
        assert Subsequence(k, s[..n][..n - 1]);
      }
    }
  }

  /** Filtering deletes no digit and reorders nothing: the digits of the kept text are
      exactly the digits of the typed text. */
  lemma {:induction false} KeptDigits(isDigit: char -> bool, s: string, n: nat)
    requires n <= |s|
    ensures Digits(isDigit, Kept(isDigit, s, n)) == Digits(isDigit, s[..n])
    decreases n
  {
    if n > 0 {
      KeptDigits(isDigit, s, n - 1);
      var k := Kept(isDigit, s, n);
      assert s[..n][..n - 1] == s[..n - 1];
      assert Digits(isDigit, s[..n]) == Digits(isDigit, s[..n - 1]) + (if isDigit(s[n - 1]) then [s[n - 1]] else []);
      if Keep(isDigit, s, n - 1) {
        assert k[..|k| - 1] == Kept(isDigit, s, n - 1);
        assert k[|k| - 1] == s[n - 1];
      } else {
        assert k == Kept(isDigit, s, n - 1);
      }
    }
  }

  /** When every index of `s` is kept, the filter returns `s` itself. */
  lemma {:induction false} KeptAll(isDigit: char -> bool, s: string, n: nat)
    requires n <= |s|
    requires forall i :: 0 <= i < |s| ==> Keep(isDigit, s, i)
    ensures Kept(isDigit, s, n) == s[..n]
    decreases n
  {
    if n > 0 {
      KeptAll(isDigit, s, n - 1);
      assert s[..n] == s[..n - 1] + [s[n - 1]];
    }
  }

  /** The first character of the kept text, when it comes from index 0. */
  lemma KeptStartsWithFirst(isDigit: char -> bool, s: string)
    requires |s| >= 1 && Keep(isDigit, s, 0)
    ensures |FilterIndexed(isDigit, s)| >= 1 && FilterIndexed(isDigit, s)[0] == s[0]
  {
    KeptPrefix(isDigit, s, 1, |s|);
  }

  /** Kept text only grows as more indices are examined. */
  lemma {:induction false} KeptPrefix(isDigit: char -> bool, s: string, m: nat, n: nat)
    requires m <= n <= |s|
    ensures |Kept(isDigit, s, m)| <= |Kept(isDigit, s, n)|
    ensures Kept(isDigit, s, n)[..|Kept(isDigit, s, m)|] == Kept(isDigit, s, m)
    decreases n - m
  {
    if m < n {
      KeptPrefix(isDigit, s, m, n - 1);
    }
  }

  // ---------------------------------------------------------------------------
  // What the filter promises

  /** A stored value holds only digits and `.`, at most one `.`, and when the typed text
      holds two or more `.` every one of them is dropped. */
  lemma StoredValueChars(isDigit: char -> bool, s: string)
    requires !isDigit('.')
    ensures var v := OnValueChange(isDigit, s);
      && (forall k :: 0 <= k < |v| ==> isDigit(v[k]) || v[k] == '.' || (k == 0 && v[k] == '0'))
      && Count(v, '.') <= 1
      && (Count(s, '.') >= 2 ==> forall k :: 0 <= k < |v| ==> v[k] != '.')
  {
    var f := FilterIndexed(isDigit, s);
    var v := OnValueChange(isDigit, s);
    KeptChars(isDigit, s, |s|);
    KeptDotsBounded(isDigit, s, |s|);
    assert s[..|s|] == s;
    if Count(s, '.') >= 2 {
      KeptNoDots(isDigit, s, |s|);
    }
    if v != f {
      CountAppend("0", f, '.');
      assert "0"[..0] == [];
    }
    CountZeroMeansAbsent(v, '.');
  }

  /** A leading `.` survives only when it is the whole input or is followed by a digit
      (and is the only `.`); a surviving leading `.` is stored behind a `"0"`. */
  lemma LeadingDot(isDigit: char -> bool, s: string)
    requires !isDigit('.')
    requires |s| >= 1 && s[0] == '.'
    ensures var v := OnValueChange(isDigit, s);
      '.' in v <==> Count(s, '.') == 1 && (|s| == 1 || isDigit(s[1]))
    ensures var v := OnValueChange(isDigit, s);
      '.' in v ==> |v| >= 2 && v[..2] == "0."
  {
    var f := FilterIndexed(isDigit, s);
    var v := OnValueChange(isDigit, s);
    LeadingDotCount(s);
    if Keep(isDigit, s, 0) {
      KeptStartsWithFirst(isDigit, s);
      assert v[1] == '.';
    } else if '.' in v {
      assert '.' in f;
      KeptOrigin(isDigit, s, |s|, '.');
      assert false;
    }
  }

  /** A `.` typed anywhere but in front survives exactly when it is the only `.` typed:
      index `j > 0` always satisfies the position part of the rule. */
  lemma NonLeadingDotKept(isDigit: char -> bool, s: string, j: nat)
    requires !isDigit('.')
    requires 0 < j < |s| && s[j] == '.'
    ensures '.' in OnValueChange(isDigit, s) <==> Count(s, '.') == 1
  {
    var f := FilterIndexed(isDigit, s);
    var v := OnValueChange(isDigit, s);
    if Count(s, '.') == 1 {
      assert Keep(isDigit, s, j);
      KeptContains(isDigit, s, j, |s|);
      assert '.' in f;
      if v != f {
        assert v == "0" + f;
        var k :| 0 <= k < |f| && f[k] == '.';
        assert v[k + 1] == '.';
      }
    } else if '.' in v {
      assert '.' in f;
      KeptOrigin(isDigit, s, |s|, '.');
      var i :| 0 <= i < |s| && Keep(isDigit, s, i) && s[i] == '.';
      assert Count(s, '.') == 0;
      CountZeroMeansAbsent(s, '.');
      assert false;
    }
  }

  /** A kept index's character is in the kept text. */
  lemma {:induction false} KeptContains(isDigit: char -> bool, s: string, j: nat, n: nat)
    requires j < n <= |s|
    requires Keep(isDigit, s, j)
    ensures s[j] in Kept(isDigit, s, n)
    decreases n
  {
    if j < n - 1 {
      KeptContains(isDigit, s, j, n - 1);
    }
  }

  /** With a `.` in front, the typed text holds at least one `.`; it holds exactly one
      when no other character is a `.`. */
  lemma LeadingDotCount(s: string)
    requires |s| >= 1 && s[0] == '.'
    ensures Count(s, '.') >= 1
    ensures Count(s, '.') == 1 ==> forall k :: 1 <= k < |s| ==> s[k] != '.'
  {
    assert s == [s[0]] + s[1..];
    CountAppend([s[0]], s[1..], '.');
    assert [s[0]][..0] == [];
    CountZeroMeansAbsent(s[1..], '.');
    assert forall k :: 1 <= k < |s| ==> s[k] == s[1..][k - 1];
  }

  /** Every character of the kept text comes from a kept index. */
  lemma {:induction false} KeptOrigin(isDigit: char -> bool, s: string, n: nat, c: char)
    requires n <= |s|
    requires c in Kept(isDigit, s, n)
    ensures exists j :: 0 <= j < n && Keep(isDigit, s, j) && s[j] == c
    decreases n
  {
    if n > 0 {
      if c in Kept(isDigit, s, n - 1) {
        KeptOrigin(isDigit, s, n - 1, c);
      } else {
        assert Keep(isDigit, s, n - 1) && s[n - 1] == c;
      }
    }
  }

  /** The filter only deletes characters, apart from the `"0"` put in front exactly when
      the filtered text starts with `.`, and the typed digits all reach the stored value
      in their order. */
  lemma StoredValueOnlyDeletes(isDigit: char -> bool, s: string)
    ensures var v := OnValueChange(isDigit, s);
      exists p :: (p == "" || p == "0") && |p| <= |v| && v[..|p|] == p
        && (p == "0" <==> |FilterIndexed(isDigit, s)| > 0 && FilterIndexed(isDigit, s)[0] == '.')
        && Subsequence(v[|p|..], s)
        && Digits(isDigit, v[|p|..]) == Digits(isDigit, s)
  {
    var f := FilterIndexed(isDigit, s);
    var v := OnValueChange(isDigit, s);
    KeptIsSubsequence(isDigit, s, |s|);
    KeptDigits(isDigit, s, |s|);
    assert s[..|s|] == s;
    if |f| > 0 && f[0] == '.' {
      assert v[..1] == "0" && v[1..] == f;
      var p := "0";
      assert (p == "" || p == "0") && |p| <= |v| && v[..|p|] == p;
    } else {
      assert v[..0] == "" && v[0..] == f;
      var p := "";
      assert p != "0";
    }
  }

  /** Every stored value is well formed. */
  lemma StoredValueWellFormed(isDigit: char -> bool, s: string)
    requires !isDigit('.') && isDigit('0')
    ensures WellFormed(isDigit, OnValueChange(isDigit, s))
  {
    StoredValueChars(isDigit, s);
    var v := OnValueChange(isDigit, s);
    CountZeroMeansAbsent(v, '.');
  }

  /** Filtering a well-formed value changes nothing. */
  lemma WellFormedIsFixed(isDigit: char -> bool, v: string)
    requires WellFormed(isDigit, v)
    ensures OnValueChange(isDigit, v) == v
  {
    forall i | 0 <= i < |v|
      ensures Keep(isDigit, v, i)
    {
      if !isDigit(v[i]) {
        assert v[i] == '.' && i > 0;
      }
    }
    KeptAll(isDigit, v, |v|);
    assert v[..|v|] == v;
  }

  /** Re-filtering a stored value returns it unchanged. */
  lemma OnValueChangeIdempotent(isDigit: char -> bool, s: string)
    requires !isDigit('.') && isDigit('0')
    ensures OnValueChange(isDigit, OnValueChange(isDigit, s)) == OnValueChange(isDigit, s)
  {
    StoredValueWellFormed(isDigit, s);
    WellFormedIsFixed(isDigit, OnValueChange(isDigit, s));
  }
}
