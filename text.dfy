/**
 * String operations the backend and the front end rely on: substring search
 * (Python's `str.find` and `in`), ASCII case mapping, decimal rendering and
 * parsing of non-negative integers, zero padding, and code-point
 * lexicographic order (Python's `<` on `str`).
 */
module Text {
  import opened Wrappers

  // ---------------------------------------------------------------------------
  // Substring search

  /** `m` occurs in `s` starting at index `i`. */
  predicate OccursAt(s: string, m: string, i: int) {
    0 <= i && i + |m| <= |s| && s[i..i + |m|] == m
  }

  /**
   * Python's `s.find(m, start)` for a non-negative `start`: the lowest index
   * at or after `start` where `m` occurs, or -1.
   */
  function Find(s: string, m: string, start: nat): (r: int)
    ensures r == -1 || (start <= r <= |s| && OccursAt(s, m, r))
    ensures r == -1 ==> forall i :: start <= i ==> !OccursAt(s, m, i)
    ensures r != -1 ==> forall i :: start <= i < r ==> !OccursAt(s, m, i)
    decreases |s| - start
  {
    if start > |s| then -1
    else if OccursAt(s, m, start) then start
    else Find(s, m, start + 1)
  }

  /** Python's `sub in s`. */
  predicate Contains(s: string, sub: string) {
    exists i :: 0 <= i <= |s| && OccursAt(s, sub, i)
  }

  lemma {:induction false} FindContains(s: string, sub: string)
    ensures Find(s, sub, 0) != -1 <==> Contains(s, sub)
  {
    if Find(s, sub, 0) != -1 {
      assert OccursAt(s, sub, Find(s, sub, 0));
    }
  }

  // ---------------------------------------------------------------------------
  // ASCII case mapping

  function LowerChar(c: char): char {
    if 'A' <= c <= 'Z' then (c as int + 32) as char else c
  }

  function UpperChar(c: char): char {
    if 'a' <= c <= 'z' then (c as int - 32) as char else c
  }

  /** `str.lower()` / `toLowerCase()` restricted to ASCII letters; every other character is kept. */
  function Lower(s: string): (r: string)
    ensures |r| == |s|
    ensures forall i :: 0 <= i < |s| ==> r[i] == LowerChar(s[i])
  {
    seq(|s|, i requires 0 <= i < |s| => LowerChar(s[i]))
  }

  /** `str.upper()` / `toUpperCase()` restricted to ASCII letters; every other character is kept. */
  function Upper(s: string): (r: string)
    ensures |r| == |s|
    ensures forall i :: 0 <= i < |s| ==> r[i] == UpperChar(s[i])
  {
    seq(|s|, i requires 0 <= i < |s| => UpperChar(s[i]))
  }

  /** Upper-casing twice is upper-casing once: lookups keyed by `Upper` are case-insensitive. */
  lemma {:induction false} UpperIdempotent(s: string)
    ensures Upper(Upper(s)) == Upper(s)
  {
  }

  // ---------------------------------------------------------------------------
  // Decimal numerals

  predicate IsDigit(c: char) {
    '0' <= c <= '9'
  }

  function DigitChar(d: nat): char
    requires d < 10
  {
    ('0' as int + d) as char
  }

  function DigitValue(c: char): nat
    requires IsDigit(c)
  {
    c as int - '0' as int
  }

  predicate AllDigits(s: string) {
    forall i :: 0 <= i < |s| ==> IsDigit(s[i])
  }

  /** Python's `str(n)` / JavaScript's `String(n)` for a non-negative integer. */
  function DecimalString(n: nat): (r: string)
    ensures |r| > 0 && AllDigits(r)
    ensures |r| > 1 ==> r[0] != '0'
  {
    if n < 10 then [DigitChar(n)] else DecimalString(n / 10) + [DigitChar(n % 10)]
  }

  /** The value of a string of digits, read in base ten. */
  function DigitsValue(s: string): nat
    requires AllDigits(s)
  {
    if s == [] then 0 else DigitsValue(s[..|s| - 1]) * 10 + DigitValue(s[|s| - 1])
  }

  /** A non-empty string of ASCII digits. */
  predicate IsNumeral(s: string) {
    |s| > 0 && AllDigits(s)
  }

  /**
   * Python's `int(s)` on ASCII text: an optional sign followed by digits;
   * leading zeros are allowed and ignored. Anything else is a `ValueError`
   * (here `None`).
   */
  function ParseInt(s: string): (r: Option<int>)
    ensures r.Some? <==> IsNumeral(s) || (|s| > 1 && (s[0] == '+' || s[0] == '-') && IsNumeral(s[1..]))
    ensures IsNumeral(s) ==> r == Some(DigitsValue(s) as int)
  {
    if IsNumeral(s) then Some(DigitsValue(s) as int)
    else if |s| > 1 && s[0] == '-' && IsNumeral(s[1..]) then Some(-(DigitsValue(s[1..]) as int))
    else if |s| > 1 && s[0] == '+' && IsNumeral(s[1..]) then Some(DigitsValue(s[1..]) as int)
    else None
  }

  /** Python's `str(n)` for any integer. */
  function IntString(n: int): (r: string)
    ensures |r| > 0
  {
    if n < 0 then "-" + DecimalString(-n) else DecimalString(n)
  }

  /** Reading back a rendered numeral gives the number. */
  lemma {:induction false} DecimalRoundTrip(n: nat)
    ensures DigitsValue(DecimalString(n)) == n
  {
    if n >= 10 {
      DecimalRoundTrip(n / 10);
      var s := DecimalString(n);
      assert s[..|s| - 1] == DecimalString(n / 10);
    }
  }

  function Zeros(k: nat): (r: string)
    ensures |r| == k && AllDigits(r)
    ensures forall i :: 0 <= i < k ==> r[i] == '0'
  {
    seq(k, i => '0')
  }

  /** Rendering an integer and parsing it back gives the integer. */
  lemma {:induction false} IntRoundTrip(n: int)
    ensures ParseInt(IntString(n)) == Some(n)
  {
    if n < 0 {
      DecimalRoundTrip(-n);
      assert IntString(n)[1..] == DecimalString(-n);
    } else {
      DecimalRoundTrip(n);
    }
  }

  /** Leading zeros do not change the value of a numeral. */
  lemma {:induction false} LeadingZerosValue(k: nat, s: string)
    requires AllDigits(s)
    ensures AllDigits(Zeros(k) + s)
    ensures DigitsValue(Zeros(k) + s) == DigitsValue(s)
  {
    if s == [] {
      assert Zeros(k) + s == Zeros(k);
      ZerosValue(k);
    } else {
      var t := Zeros(k) + s;
      assert t[..|t| - 1] == Zeros(k) + s[..|s| - 1];
      LeadingZerosValue(k, s[..|s| - 1]);
    }
  }

  /** `int` of a zero-padded numeral, with or without a minus sign in front. */
  lemma {:induction false} PaddedParse(k: nat, n: nat)
    ensures ParseInt(Zeros(k) + DecimalString(n)) == Some(n as int)
    ensures ParseInt("-" + Zeros(k) + DecimalString(n)) == Some(-(n as int))
  {
    var d := Zeros(k) + DecimalString(n);
    LeadingZerosValue(k, DecimalString(n));
    DecimalRoundTrip(n);
    assert IsNumeral(d);
    var s := "-" + d;
    assert s[1..] == d;
    assert !IsNumeral(s) by { assert !IsDigit(s[0]); }
    assert ParseInt(s) == Some(-(DigitsValue(d) as int));
    assert "-" + Zeros(k) + DecimalString(n) == s;
  }

  lemma {:induction false} ZerosValue(k: nat)
    ensures DigitsValue(Zeros(k)) == 0
  {
    if k > 0 {
      assert Zeros(k)[..k - 1] == Zeros(k - 1);
      ZerosValue(k - 1);
    }
  }

  /** Left-pad `s` with '0' up to `width` characters; longer strings are kept as they are. */
  function ZeroPad(s: string, width: nat): (r: string)
    ensures |r| == if |s| < width then width else |s|
    ensures r[|r| - |s|..] == s
    ensures forall i :: 0 <= i < |r| - |s| ==> r[i] == '0'
  {
    if |s| < width then Zeros(width - |s|) + s else s
  }

  // ---------------------------------------------------------------------------
  // Lexicographic order on code points

  /** Python's `a < b` on `str` (and the order of `str.sort`): code point by code point, a proper prefix first. */
  predicate LexLess(a: string, b: string) {
    if |a| == 0 then |b| > 0
    else if |b| == 0 then false
    else if a[0] != b[0] then a[0] < b[0]
    else LexLess(a[1..], b[1..])
  }

  lemma {:induction false} LexLessIrreflexive(a: string)
    ensures !LexLess(a, a)
  {
    if |a| > 0 {
      LexLessIrreflexive(a[1..]);
    }
  }

  lemma {:induction false} LexLessTransitive(a: string, b: string, c: string)
    requires LexLess(a, b) && LexLess(b, c)
    ensures LexLess(a, c)
  {
    if |a| > 0 && |b| > 0 && |c| > 0 && a[0] == b[0] == c[0] {
      LexLessTransitive(a[1..], b[1..], c[1..]);
    }
  }

  lemma {:induction false} LexLessTotal(a: string, b: string)
    ensures a == b || LexLess(a, b) || LexLess(b, a)
  {
    if |a| > 0 && |b| > 0 && a[0] == b[0] {
      LexLessTotal(a[1..], b[1..]);
      if a[1..] == b[1..] {
        assert a == [a[0]] + a[1..] && b == [b[0]] + b[1..];
      }
    }
  }

  lemma {:induction false} LexLessAsymmetric(a: string, b: string)
    requires LexLess(a, b)
    ensures !LexLess(b, a)
  {
    if LexLess(b, a) {
      LexLessTransitive(a, b, a);
      LexLessIrreflexive(a);
    }
  }
}
