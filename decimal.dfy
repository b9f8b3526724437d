/**
  Decimal digit strings, as the scorer uses them: `Number(id)` reads the face
  value of a Half-It round out of its id, and a template literal writes the
  round number of a 501 round into its id and label.
 */
module Decimal {

  predicate IsDigit(c: char) {
    '0' <= c <= '9'
  }

  predicate IsDecimal(s: string) {
    forall i | 0 <= i < |s| :: IsDigit(s[i])
  }

  function DigitChar(d: nat): (c: char)
    requires d < 10
    ensures IsDigit(c) && c as int - '0' as int == d
  {
    ('0' as int + d) as char
  }

  /** The number `Number(s)` gives for a string of decimal digits. */
  function DigitsValue(s: string): nat
    requires IsDecimal(s)
  {
    if s == [] then 0
    else DigitsValue(s[..|s| - 1]) * 10 + (s[|s| - 1] as int - '0' as int)
  }

  /** The text `${n}` gives for a natural number. */
  function NatToString(n: nat): (s: string)
    ensures 1 <= |s| && IsDecimal(s)
    ensures n > 0 ==> s[0] != '0'
    ensures n == 0 ==> s == "0"
  {
    if n < 10 then [DigitChar(n)] else NatToString(n / 10) + [DigitChar(n % 10)]
  }

  /** Reading back what `${n}` wrote gives n. */
  lemma {:induction false} NatToStringRoundTrip(n: nat)
    ensures DigitsValue(NatToString(n)) == n
  {
    var s := NatToString(n);
    if n < 10 {
      assert s[..|s| - 1] == [];
    } else {
      var prefix := NatToString(n / 10);
      assert s[..|s| - 1] == prefix;
      NatToStringRoundTrip(n / 10);
    }
  }

  /** Distinct numbers are written as distinct strings. */
  lemma NatToStringInjective(m: nat, n: nat)
    ensures NatToString(m) == NatToString(n) ==> m == n
  {
    NatToStringRoundTrip(m);
    NatToStringRoundTrip(n);
  }

  /** A digit string with a non-zero first digit never reads as 0. */
  lemma {:induction false} LeadingDigitPositive(s: string)
    requires IsDecimal(s) && 1 <= |s| && s[0] != '0'
    ensures DigitsValue(s) > 0
  {
    if |s| > 1 {
      LeadingDigitPositive(s[..|s| - 1]);
    }
  }

  /**
    `${n}` is the only way to write n without leading zeros: a digit string
    that is "0" or starts with a non-zero digit is exactly what `${n}`
    writes for its value.
   */
  lemma {:induction false} NatToStringCanonical(s: string)
    requires IsDecimal(s) && 1 <= |s| && (s[0] != '0' || s == "0")
    ensures NatToString(DigitsValue(s)) == s
  {
    var prefix := s[..|s| - 1];
    var d := s[|s| - 1] as int - '0' as int;
    if |s| == 1 {
      assert prefix == [];
      assert DigitChar(d) == s[0];
    } else {
      assert prefix[0] == s[0] != '0';
      LeadingDigitPositive(prefix);
      NatToStringCanonical(prefix);
      var v := DigitsValue(s);
      assert v == DigitsValue(prefix) * 10 + d && v >= 10;
      assert v / 10 == DigitsValue(prefix) && v % 10 == d;
      assert DigitChar(d) == s[|s| - 1];
      assert s == prefix + [s[|s| - 1]];
    }
  }
}
