/**
  Small shared vocabulary: optional and fallible results, the character
  classes Python's `re` and `str` methods use, `str.strip()`, `str(n)` for
  natural numbers, and character filtering (`re.sub(r"[^...]", "", s)`).
 */
module Results {

  /** A value that may be absent (Python's `None`). */
  datatype Option<+T> = None | Some(value: T)

  /** The outcome of an operation that may raise. */
  datatype Result<+T, +E> = Success(value: T) | Failure(error: E)
}

module Text {

  /** Python's `str.isspace()` for one character; `\s` in a str pattern and
      `str.strip()` use the same class. */
  predicate IsWhitespace(c: char) {
    || ('\t' <= c <= '\r')
    || ('\U{1C}' <= c <= ' ')
    || c == '\U{85}' || c == '\U{A0}' || c == '\U{1680}'
    || ('\U{2000}' <= c <= '\U{200A}')
    || c == '\U{2028}' || c == '\U{2029}' || c == '\U{202F}'
    || c == '\U{205F}' || c == '\U{3000}'
  }

  /** `\d`, restricted to ASCII digits. */
  predicate IsDigit(c: char) {
    '0' <= c <= '9'
  }

  /** `\w`, restricted to ASCII letters, digits and the underscore. */
  predicate IsWordChar(c: char) {
    ('a' <= c <= 'z') || ('A' <= c <= 'Z') || IsDigit(c) || c == '_'
  }

  /** Empty or whitespace only: `not s or s.isspace()`. */
  predicate IsBlank(s: string) {
    forall i :: 0 <= i < |s| ==> IsWhitespace(s[i])
  }

  predicate AllDigits(s: string) {
    forall i :: 0 <= i < |s| ==> IsDigit(s[i])
  }

  /** The first index at or after `i` that holds no whitespace, or `|s|`. */
  function SkipBlanks(s: string, i: nat): (r: nat)
    requires i <= |s|
    ensures i <= r <= |s|
    decreases |s| - i
  {
    if i < |s| && IsWhitespace(s[i]) then SkipBlanks(s, i + 1) else i
  }

  lemma {:induction false} SkipBlanksSkipsOnlyBlanks(s: string, i: nat)
    requires i <= |s|
    ensures var r := SkipBlanks(s, i);
      && (forall k :: i <= k < r ==> IsWhitespace(s[k]))
      && (r == |s| || !IsWhitespace(s[r]))
    decreases |s| - i
  {
    if i < |s| && IsWhitespace(s[i]) {
      SkipBlanksSkipsOnlyBlanks(s, i + 1);
    }
  }

  /** Whitespace between `i` and `j` is skipped over. */
  lemma {:induction false} SkipBlanksPast(s: string, i: nat, j: nat)
    requires i <= j <= |s|
    requires forall k :: i <= k < j ==> IsWhitespace(s[k])
    ensures SkipBlanks(s, i) >= j
    decreases j - i
  {
    if i < j {
      SkipBlanksPast(s, i + 1, j);
    }
  }

  /** The index just past the last character before `j` that is not
      whitespace, or 0. */
  function BackBlanks(s: string, j: nat): (r: nat)
    requires j <= |s|
    ensures r <= j
  {
    if j > 0 && IsWhitespace(s[j - 1]) then BackBlanks(s, j - 1) else j
  }

  lemma {:induction false} BackBlanksSkipsOnlyBlanks(s: string, j: nat)
    requires j <= |s|
    ensures var r := BackBlanks(s, j);
      && (forall k :: r <= k < j ==> IsWhitespace(s[k]))
      && (r == 0 || !IsWhitespace(s[r - 1]))
  {
    if j > 0 && IsWhitespace(s[j - 1]) {
      BackBlanksSkipsOnlyBlanks(s, j - 1);
    }
  }

  /** `s.lstrip()`. */
  function TrimStart(s: string): string {
    s[SkipBlanks(s, 0)..]
  }

  /** `s.rstrip()`. */
  function TrimEnd(s: string): string {
    s[..BackBlanks(s, |s|)]
  }

  /** `s.strip()`. */
  function Strip(s: string): (r: string)
    ensures |r| <= |TrimStart(s)| <= |s|
  {
    TrimEnd(TrimStart(s))
  }

  /** `strip()` removes exactly the whitespace at both ends: what is left
      is a slice of `s` with only whitespace before and after it, and it
      neither starts nor ends with whitespace; it is empty exactly when `s`
      is blank. */
  lemma StripSpec(s: string)
    ensures var r := Strip(s);
      var a := |s| - |TrimStart(s)|;
      && a + |r| <= |s| && r == s[a..a + |r|]
      && IsBlank(s[..a]) && IsBlank(s[a + |r|..])
      && (r != "" ==> !IsWhitespace(r[0]) && !IsWhitespace(r[|r| - 1]))
      && (r == "" <==> IsBlank(s))
  {
    var i := SkipBlanks(s, 0);
    var t := s[i..];
    var j := BackBlanks(t, |t|);
    SkipBlanksSkipsOnlyBlanks(s, 0);
    BackBlanksSkipsOnlyBlanks(t, |t|);
    var r := Strip(s);
    assert r == s[i..i + j];
    assert IsBlank(s[..i]) by {
      forall k | 0 <= k < i ensures IsWhitespace(s[..i][k]) {
        assert s[..i][k] == s[k];
      }
    }
    var u := s[i + j..];
    assert IsBlank(u) by {
      forall k | 0 <= k < |u| ensures IsWhitespace(u[k]) {
        assert u[k] == t[j + k];
      }
    }
    if r != "" {
      assert r[0] == t[0] && r[|r| - 1] == t[j - 1];
      if i < |s| {
        assert t[0] == s[i];
      }
    }
    if r == "" {
      assert s[..i] == s;
    } else {
      assert !IsWhitespace(s[i]);
    }
  }

  /** A text without whitespace at either end is its own strip. */
  lemma StripKeepsTrimmed(s: string)
    requires |s| > 0 && !IsWhitespace(s[0]) && !IsWhitespace(s[|s| - 1])
    ensures Strip(s) == s
  {
    assert SkipBlanks(s, 0) == 0;
    assert s[0..] == s;
    assert BackBlanks(s, |s|) == |s|;
  }

  /** The ASCII digit for `d`. */
  function DigitChar(d: nat): (c: char)
    requires d < 10
    ensures IsDigit(c)
  {
    (48 + d) as char
  }

  /** `str(n)` for a natural number: its decimal digits, most significant
      first, without leading zeros. */
  function NatToString(n: nat): (r: string)
    ensures |r| >= 1
  {
    if n < 10 then [DigitChar(n)]
    else NatToString(n / 10) + [DigitChar(n % 10)]
  }

  /** `str(n)` is made of digits only and ends with the last digit of `n`. */
  lemma {:induction false} NatToStringDigits(n: nat)
    ensures AllDigits(NatToString(n))
    ensures NatToString(n)[|NatToString(n)| - 1] == DigitChar(n % 10)
  {
    if n >= 10 {
      NatToStringDigits(n / 10);
      var r := NatToString(n);
      assert forall k :: 0 <= k < |r| - 1 ==> r[k] == NatToString(n / 10)[k];
    }
  }

  /** Distinct numbers print differently, so keys built from them never clash. */
  lemma {:induction false} NatToStringInjective(a: nat, b: nat)
    requires NatToString(a) == NatToString(b)
    ensures a == b
  {
    var sa, sb := NatToString(a), NatToString(b);
    if a < 10 && b < 10 {
      assert (48 + a) as char == (48 + b) as char;
    } else if a >= 10 && b >= 10 {
      assert sa[..|sa| - 1] == NatToString(a / 10);
      assert sb[..|sb| - 1] == NatToString(b / 10);
      NatToStringInjective(a / 10, b / 10);
      assert (48 + a % 10) as char == (48 + b % 10) as char;
    }
  }

  /** Keeps, in order, exactly the characters of `s` that satisfy `keep`:
      the shape of `re.sub(r"[^...]", "", s)` and `re.sub(r"[...]", "", s)`. */
  function Filter(s: string, keep: char -> bool): (r: string)
    ensures |r| <= |s|
    ensures forall c :: c in r <==> c in s && keep(c)
  {
    if |s| == 0 then ""
    else
      var rest := Filter(s[1..], keep);
      assert forall c :: c in s <==> c == s[0] || c in s[1..];
      if keep(s[0]) then [s[0]] + rest else rest
  }

  /** Filtering works character by character, so it keeps relative order:
      the result for a concatenation is the concatenation of the results. */
  lemma {:induction false} FilterAppend(a: string, b: string, keep: char -> bool)
    ensures Filter(a + b, keep) == Filter(a, keep) + Filter(b, keep)
  {
    if |a| > 0 {
      assert (a + b)[1..] == a[1..] + b;
      FilterAppend(a[1..], b, keep);
    } else {
      assert a + b == b;
    }
  }

  /** A string whose characters all pass the filter comes through unchanged. */
  lemma {:induction false} FilterKeepsAll(s: string, keep: char -> bool)
    requires forall i :: 0 <= i < |s| ==> keep(s[i])
    ensures Filter(s, keep) == s
  {
    if |s| > 0 {
      FilterKeepsAll(s[1..], keep);
    }
  }

  /** Filtering twice is filtering once. */
  lemma FilterIdempotent(s: string, keep: char -> bool)
    ensures Filter(Filter(s, keep), keep) == Filter(s, keep)
  {
    var r := Filter(s, keep);
    forall i | 0 <= i < |r| ensures keep(r[i]) {
      assert r[i] in r;
    }
    FilterKeepsAll(r, keep);
  }
}
