/** String helpers for the parts of the program that build or inspect text:
    decimal rendering of integers (`str(n)`, `f"{n:02d}"`), prefix and
    substring tests (`str.startswith`, `sub in s`), the leftmost-match search
    that `re.search(r'<marker>(\d+)', s)` performs, and Python's ordering of
    strings by code point. Only ASCII digits are treated as digits. */
module Text {
  import opened Wrappers

  predicate IsDigit(c: char) {
    '0' <= c <= '9'
  }

  predicate AllDigits(s: string) {
    forall i :: 0 <= i < |s| ==> IsDigit(s[i])
  }

  function DigitChar(d: nat): (c: char)
    requires d < 10
    ensures IsDigit(c)
  {
    ('0' as int + d) as char
  }

  function DigitValue(c: char): (d: nat)
    requires IsDigit(c)
    ensures d < 10 && DigitChar(d) == c
  {
    c as int - '0' as int
  }

  // ---------------------------------------------------------------------------
  // Integers as decimal text
  // ---------------------------------------------------------------------------

  /** Decimal rendering of a natural number, without leading zeros. */
  function NatToString(n: nat): (s: string)
    ensures 1 <= |s| && AllDigits(s)
  {
    if n < 10 then [DigitChar(n)] else NatToString(n / 10) + [DigitChar(n % 10)]
  }

  /** The value of a string of decimal digits (the inverse of NatToString). */
  function DigitsValue(s: string): nat
    requires AllDigits(s)
  {
    if |s| == 0 then 0 else DigitsValue(s[..|s| - 1]) * 10 + DigitValue(s[|s| - 1])
  }

  /** Python's `str(i)` / `f"{i}"` for an int: a minus sign for negatives. */
  function IntToString(i: int): (s: string)
    ensures 1 <= |s|
    ensures i < 0 <==> s[0] == '-'
    ensures 0 <= i ==> AllDigits(s)
  {
    if i < 0 then "-" + NatToString(-i) else NatToString(i)
  }

  /** Python's `f"{n:02d}"`: zero-filled to width two; a sign counts towards the width. */
  function Pad2(n: int): (s: string)
    ensures 2 <= |s|
    ensures 0 <= n < 100 ==> |s| == 2
    ensures n < 0 <==> s[0] == '-'
    ensures 0 <= n ==> AllDigits(s)
  {
    if 0 <= n < 10 then "0" + NatToString(n)
    else
      assert 0 <= n < 100 ==> |IntToString(n)| <= 2 by {
        if 0 <= n { NatToStringLength(n, 2); assert Pow10(2) == 100; }
      }
      IntToString(n)
  }

  lemma {:induction false} NatToStringRoundTrip(n: nat)
    ensures DigitsValue(NatToString(n)) == n
  {
    var s := NatToString(n);
    if n >= 10 {
      assert s[..|s| - 1] == NatToString(n / 10);
      NatToStringRoundTrip(n / 10);
    } else {
      assert s[..|s| - 1] == [];
    }
  }

  function Pow10(k: nat): (p: nat)
    ensures 1 <= p
  {
    if k == 0 then 1 else 10 * Pow10(k - 1)
  }

  lemma {:induction false} DigitsValueBound(s: string)
    requires AllDigits(s)
    ensures DigitsValue(s) < Pow10(|s|)
  {
    if |s| > 0 {
      DigitsValueBound(s[..|s| - 1]);
    }
  }

  /** A natural number has at most `k` digits exactly when it is below 10^k. */
  lemma {:induction false} NatToStringLength(n: nat, k: nat)
    requires 1 <= k
    ensures |NatToString(n)| <= k <==> n < Pow10(k)
  {
    if n < 10 {
      if k > 1 {
        NatToStringLength(n, k - 1);
      }
    } else if k == 1 {
      assert |NatToString(n)| == |NatToString(n / 10)| + 1;
    } else {
      assert |NatToString(n)| == |NatToString(n / 10)| + 1;
      NatToStringLength(n / 10, k - 1);
      var p := Pow10(k - 1);
      assert n == 10 * (n / 10) + n % 10;
      if n / 10 < p {
        assert n / 10 <= p - 1;
        assert n < 10 * p;
      } else {
        assert n >= 10 * p;
      }
    }
  }

  /** The digits of a four-digit number. */
  lemma FourDigits(n: nat)
    ensures |NatToString(n)| == 4 <==> 1000 <= n <= 9999
    ensures |NatToString(n)| <= 3 <==> n < 1000
  {
    NatToStringLength(n, 3);
    NatToStringLength(n, 4);
    assert Pow10(3) == 1000;
    assert Pow10(4) == 10000;
  }

  /** Two distinct integers never render to the same text. */
  lemma IntToStringInjective(a: int, b: int)
    ensures IntToString(a) == IntToString(b) ==> a == b
  {
    if IntToString(a) == IntToString(b) {
      // the first character is '-' exactly for a negative number
      assert a < 0 <==> b < 0;
      var m, n: nat := if a < 0 then -a else a, if b < 0 then -b else b;
      if a < 0 {
        assert NatToString(m) == IntToString(a)[1..] == IntToString(b)[1..] == NatToString(n);
      }
      NatToStringRoundTrip(m);
      NatToStringRoundTrip(n);
      assert m == DigitsValue(NatToString(m)) == DigitsValue(NatToString(n)) == n;
    }
  }

  // ---------------------------------------------------------------------------
  // Prefixes and substrings
  // ---------------------------------------------------------------------------

  /** Python's `s.startswith(prefix)`. */
  predicate StartsWith(s: string, prefix: string) {
    |prefix| <= |s| && s[..|prefix|] == prefix
  }

  predicate OccursAt(s: string, sub: string, i: int) {
    0 <= i && i + |sub| <= |s| && s[i..i + |sub|] == sub
  }

  function ContainsFrom(s: string, sub: string, from: nat): (b: bool)
    decreases |s| - from
    ensures b <==> exists j :: from <= j && OccursAt(s, sub, j)
  {
    if from + |sub| > |s| then false
    else OccursAt(s, sub, from) || ContainsFrom(s, sub, from + 1)
  }

  /** Python's `sub in s`. */
  function Contains(s: string, sub: string): (b: bool)
    ensures b <==> exists j :: OccursAt(s, sub, j)
  {
    ContainsFrom(s, sub, 0)
  }

  /** Text around an occurrence does not hide it. */
  lemma ContainsWithin(a: string, s: string, b: string, sub: string)
    requires Contains(s, sub)
    ensures Contains(a + s + b, sub)
  {
    var j :| OccursAt(s, sub, j);
    assert (a + s + b)[|a| + j..|a| + j + |sub|] == s[j..j + |sub|];
    assert OccursAt(a + s + b, sub, |a| + j);
  }

  /** Text before a prefixed string becomes part of the prefix. */
  lemma StartsWithWithin(a: string, s: string, b: string, prefix: string)
    requires StartsWith(s, prefix)
    ensures StartsWith(a + s + b, a + prefix)
  {
    assert (a + s + b)[..|a + prefix|] == a + s[..|prefix|];
  }

  // ---------------------------------------------------------------------------
  // `re.search(marker + r"(\d+)", s)`
  // ---------------------------------------------------------------------------

  /** The longest prefix of `s` made of digits: what a greedy `\d+` captures. */
  function DigitRun(s: string): (r: string)
    ensures |r| <= |s| && r == s[..|r|] && AllDigits(r)
    ensures |r| == |s| || !IsDigit(s[|r|])
  {
    if |s| == 0 || !IsDigit(s[0]) then ""
    else
      var rest := DigitRun(s[1..]);
      assert [s[0]] + rest == s[..|rest| + 1];
      [s[0]] + rest
  }

  /** `marker` followed by at least one digit starts at index `i` of `s`. */
  predicate MarkerAt(s: string, marker: string, i: int) {
    OccursAt(s, marker, i) && i + |marker| < |s| && IsDigit(s[i + |marker|])
  }

  /** The leftmost index at or after `from` where the pattern matches. */
  function FirstMarker(s: string, marker: string, from: nat): (r: Option<nat>)
    decreases |s| - from
    ensures r.Some? ==> from <= r.value && MarkerAt(s, marker, r.value)
    ensures r.Some? ==> forall j :: from <= j < r.value ==> !MarkerAt(s, marker, j)
    ensures r.None? ==> forall j :: from <= j ==> !MarkerAt(s, marker, j)
  {
    if from + |marker| >= |s| then None
    else if MarkerAt(s, marker, from) then Some(from)
    else FirstMarker(s, marker, from + 1)
  }

  /** The match at `i` captures exactly the digit run `d`. */
  ghost predicate CapturedAt(s: string, marker: string, i: int, d: string) {
    && MarkerAt(s, marker, i)
    && |d| >= 1 && AllDigits(d)
    && StartsWith(s[i + |marker|..], d)
    && (i + |marker| + |d| == |s| || !IsDigit(s[i + |marker| + |d|]))
  }

  /** `d` is what the leftmost match captures. */
  ghost predicate LeftmostCapture(s: string, marker: string, d: string) {
    exists i :: CapturedAt(s, marker, i, d) && forall j :: 0 <= j < i ==> !MarkerAt(s, marker, j)
  }

  /** The digits captured by `re.search(marker + r"(\d+)", s).group(1)`, or None
      when the search finds no match. */
  function SearchDigitsAfter(s: string, marker: string): (r: Option<string>)
    ensures r.Some? <==> exists i :: MarkerAt(s, marker, i)
    ensures r.Some? ==> LeftmostCapture(s, marker, r.value)
  {
    match FirstMarker(s, marker, 0)
    case None => None
    case Some(i) =>
      var d := DigitRun(s[i + |marker|..]);
      assert d[0] == s[i + |marker|];
      assert CapturedAt(s, marker, i, d);
      Some(d)
  }

  // ---------------------------------------------------------------------------
  // Python's ordering of strings (lexicographic by code point)
  // ---------------------------------------------------------------------------

  predicate StrLess(a: string, b: string)
    decreases |a|
  {
    if |a| == 0 then |b| > 0
    else if |b| == 0 then false
    else if a[0] != b[0] then a[0] < b[0]
    else StrLess(a[1..], b[1..])
  }

  lemma {:induction false} StrLessIrreflexive(a: string)
    ensures !StrLess(a, a)
  {
    if |a| > 0 {
      StrLessIrreflexive(a[1..]);
    }
  }

  lemma {:induction false} StrLessTransitive(a: string, b: string, c: string)
    requires StrLess(a, b) && StrLess(b, c)
    ensures StrLess(a, c)
  {
    if |a| > 0 && a[0] == b[0] && b[0] == c[0] {
      StrLessTransitive(a[1..], b[1..], c[1..]);
    }
  }

  lemma {:induction false} StrLessTotal(a: string, b: string)
    requires a != b
    ensures StrLess(a, b) || StrLess(b, a)
  {
    if |a| > 0 && |b| > 0 && a[0] == b[0] {
      assert a == [a[0]] + a[1..] && b == [b[0]] + b[1..];
      StrLessTotal(a[1..], b[1..]);
    }
  }
}
