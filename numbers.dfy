/**
 * Decimal text and numbers, as SQLite converts them: text bound to an `integer` or
 * `real` column, `avg()` over text, and Python's `str()` of an integer.
 */
module Numbers {
  import opened Wrappers

  predicate IsDigit(c: char) {
    '0' <= c <= '9'
  }

  predicate AllDigits(s: string) {
    forall i :: 0 <= i < |s| ==> IsDigit(s[i])
  }

  function DigitValue(c: char): nat
    requires IsDigit(c)
  {
    c as int - '0' as int
  }

  function Digit(d: nat): (c: char)
    requires d < 10
    ensures IsDigit(c) && DigitValue(c) == d
  {
    ('0' as int + d) as char
  }

  /** The value of a string of decimal digits, most significant first. */
  function DigitsValue(s: string): nat
    requires AllDigits(s)
  {
    if s == [] then 0 else 10 * DigitsValue(s[..|s| - 1]) + DigitValue(s[|s| - 1])
  }

  function Pow10(n: nat): (p: nat)
    ensures p >= 1
  {
    if n == 0 then 1 else 10 * Pow10(n - 1)
  }

  /** Python's `str(n)` for a natural number. */
  function NatToString(n: nat): (s: string)
    ensures |s| >= 1 && AllDigits(s)
  {
    if n < 10 then [Digit(n)] else NatToString(n / 10) + [Digit(n % 10)]
  }

  /** Python's `str(i)` for an integer. */
  function IntToString(i: int): string {
    if i < 0 then "-" + NatToString(-i) else NatToString(i)
  }

  /** The length of the longest run of digits at the start of `s`. */
  function DigitRun(s: string): (k: nat)
    ensures k <= |s| && AllDigits(s[..k])
    ensures k < |s| ==> !IsDigit(s[k])
  {
    if s == [] || !IsDigit(s[0]) then 0
    else
      var k := 1 + DigitRun(s[1..]);
      assert s[..k] == [s[0]] + s[1..][..k - 1];
      k
  }

  function SignLength(s: string): nat {
    if |s| > 0 && (s[0] == '-' || s[0] == '+') then 1 else 0
  }

  /** An integer literal: an optional sign followed by at least one digit, and nothing else. */
  function ParseInt(s: string): Option<int> {
    var body := s[SignLength(s)..];
    if body != [] && AllDigits(body) then
      var v: int := DigitsValue(body);
      Some(if s[0] == '-' then -v else v)
    else None
  }

  /**
   * The numeric value SQLite reads from text: the longest prefix of the form
   * [sign] digits [. digits], or 0 when there is no such prefix.
   */
  function NumericPrefix(s: string): real {
    var body := s[SignLength(s)..];
    var k := DigitRun(body);
    var whole := DigitsValue(body[..k]) as real;
    var frac :=
      if k < |body| && body[k] == '.' then
        var f := body[k + 1..];
        var m := DigitRun(f);
        DigitsValue(f[..m]) as real / Pow10(m) as real
      else 0.0;
    if |s| > 0 && s[0] == '-' then -(whole + frac) else whole + frac
  }

  /** `str` and digit reading are inverse on natural numbers. */
  lemma {:induction false} NatToStringValue(n: nat)
    ensures DigitsValue(NatToString(n)) == n
  {
    if n >= 10 {
      NatToStringValue(n / 10);
      var s := NatToString(n);
      assert s[..|s| - 1] == NatToString(n / 10);
    }
  }

  lemma NatToStringUnsigned(n: nat)
    ensures NatToString(n)[0] != '-' && NatToString(n)[0] != '+'
  {
    assert IsDigit(NatToString(n)[0]);
  }

  /** Reading back the integer Python writes gives that integer. */
  lemma {:induction false} ParseIntToString(i: int)
    ensures ParseInt(IntToString(i)) == Some(i)
  {
    var n: nat := if i < 0 then -i else i;
    NatToStringValue(n);
    NatToStringUnsigned(n);
    var s := IntToString(i);
    if i < 0 {
      assert s[SignLength(s)..] == NatToString(n);
    } else {
      assert s[SignLength(s)..] == NatToString(n);
    }
  }

  /** SQLite's numeric reading of an integer's text is that integer. */
  lemma {:induction false} NumericPrefixOfInt(i: int)
    ensures NumericPrefix(IntToString(i)) == i as real
  {
    var n: nat := if i < 0 then -i else i;
    NatToStringValue(n);
    NatToStringUnsigned(n);
    var s := IntToString(i);
    var body := s[SignLength(s)..];
    assert body == NatToString(n);
    DigitRunAll(body);
    assert body[..|body|] == body;
  }

  lemma {:induction false} DigitRunAll(s: string)
    requires AllDigits(s)
    ensures DigitRun(s) == |s|
  {
    if s != [] {
      DigitRunAll(s[1..]);
    }
  }
}
