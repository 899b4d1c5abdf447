/** Decimal numerals: Python's `str(int)` and the plain decimal forms that
    Python's `float(str)` accepts (`12`, `-3`, `+0.5`, `35.50`, `7.`, `.25`). */
module Numerals {
  import opened Wrappers
  import PyStrings

  predicate IsDigit(c: char) {
    '0' <= c <= '9'
  }

  predicate AllDigits(s: string) {
    forall i | 0 <= i < |s| :: IsDigit(s[i])
  }

  function DigitValue(c: char): nat
    requires IsDigit(c)
  {
    c as int - '0' as int
  }

  function DigitChar(d: nat): (c: char)
    requires d < 10
    ensures IsDigit(c) && DigitValue(c) == d
  {
    ('0' as int + d) as char
  }

  /** The value of a run of decimal digits, most significant first. */
  function DigitsValue(s: string): nat
    requires AllDigits(s)
  {
    if |s| == 0 then 0 else 10 * DigitsValue(s[..|s| - 1]) + DigitValue(s[|s| - 1])
  }

  function Pow10(n: nat): (r: nat)
    ensures r >= 1
  {
    if n == 0 then 1 else 10 * Pow10(n - 1)
  }

  /** The value of the digits after a decimal point. */
  function FractionValue(s: string): real
    requires AllDigits(s)
  {
    DigitsValue(s) as real / Pow10(|s|) as real
  }

  /** `str(n)` for a natural number: no sign, no leading zeros. */
  function NatToDecimal(n: nat): (s: string)
    ensures |s| > 0 && AllDigits(s)
    ensures '.' !in s
    ensures s[0] == '0' <==> n == 0
    ensures |s| > 1 ==> s[0] != '0'
  {
    if n < 10 then [DigitChar(n)] else NatToDecimal(n / 10) + [DigitChar(n % 10)]
  }

  /** `str(i)` for any integer, as used for the user id cell of a ledger row. */
  function IntToDecimal(i: int): (s: string)
    ensures (|s| > 0 && s[0] == '-') <==> i < 0
    ensures i < 0 ==> s[1..] == NatToDecimal(-i)
    ensures i >= 0 ==> s == NatToDecimal(i)
  {
    if i < 0 then "-" + NatToDecimal(-i) else NatToDecimal(i)
  }

  /** The body of an unsigned decimal numeral: digits and at most one point,
      with at least one digit somewhere. */
  ghost predicate IsUnsignedNumeral(s: string) {
    && (forall i | 0 <= i < |s| :: IsDigit(s[i]) || s[i] == '.')
    && (forall i, j | 0 <= i < j < |s| :: s[i] == '.' ==> s[j] != '.')
    && (exists i | 0 <= i < |s| :: IsDigit(s[i]))
  }

  /** An optional `+` or `-` followed by an unsigned decimal numeral. */
  ghost predicate IsFloatNumeral(s: string) {
    || IsUnsignedNumeral(s)
    || (|s| > 0 && (s[0] == '+' || s[0] == '-') && IsUnsignedNumeral(s[1..]))
  }

  /** `float(s)` restricted to an unsigned decimal numeral. */
  function ParseUnsigned(s: string): (r: Option<real>)
    ensures r.Some? ==> r.value >= 0.0
  {
    match PyStrings.IndexOf(s, '.')
    case None =>
      if |s| > 0 && AllDigits(s) then Some(DigitsValue(s) as real) else None
    case Some(p) =>
      var whole, frac := s[..p], s[p + 1..];
      if |whole| + |frac| > 0 && AllDigits(whole) && AllDigits(frac)
      then Some(DigitsValue(whole) as real + FractionValue(frac))
      else None
  }

  /** `float(s)` on the decimal forms: an optional sign, then an unsigned numeral.
      The sign of the value follows the sign character. */
  function ParseFloat(s: string): (r: Option<real>)
    ensures r.Some? && |s| > 0 && s[0] == '-' ==> r.value <= 0.0
    ensures r.Some? && !(|s| > 0 && s[0] == '-') ==> r.value >= 0.0
  {
    if |s| > 0 && s[0] == '-' then
      match ParseUnsigned(s[1..])
      case Some(v) => Some(-v)
      case None => None
    else if |s| > 0 && s[0] == '+' then ParseUnsigned(s[1..])
    else ParseUnsigned(s)
  }

  /** The unsigned parser accepts exactly the unsigned numerals. */
  lemma ParseUnsignedAccepts(s: string)
    ensures ParseUnsigned(s).Some? <==> IsUnsignedNumeral(s)
  {
    match PyStrings.IndexOf(s, '.')
    case None =>
      if IsUnsignedNumeral(s) {
        assert AllDigits(s);
      }
      if |s| > 0 && AllDigits(s) {
        assert IsDigit(s[0]);
      }
    case Some(p) =>
      var whole, frac := s[..p], s[p + 1..];
      if IsUnsignedNumeral(s) {
        forall i | 0 <= i < |whole| ensures IsDigit(whole[i]) {
          assert whole[i] == s[i];
          assert s[i] != '.';
        }
        forall i | 0 <= i < |frac| ensures IsDigit(frac[i]) {
          assert frac[i] == s[p + 1 + i];
          assert s[p] == '.';
        }
        var k :| 0 <= k < |s| && IsDigit(s[k]);
        assert k != p;
      }
      if |whole| + |frac| > 0 && AllDigits(whole) && AllDigits(frac) {
        forall i | 0 <= i < |s| && i != p ensures IsDigit(s[i]) {
          if i < p { assert s[i] == whole[i]; }
          else { assert s[i] == frac[i - p - 1]; }
        }
        if |whole| > 0 {
          assert IsDigit(s[0]) by { assert s[0] == whole[0]; }
        } else {
          assert IsDigit(s[p + 1]) by { assert s[p + 1] == frac[0]; }
        }
      }
  }

  /** The float parser accepts exactly an optional sign followed by an unsigned numeral. */
  lemma ParseFloatAccepts(s: string)
    ensures ParseFloat(s).Some? <==> IsFloatNumeral(s)
  {
    ParseUnsignedAccepts(s);
    if |s| > 0 {
      ParseUnsignedAccepts(s[1..]);
      if s[0] == '+' || s[0] == '-' {
        assert !IsUnsignedNumeral(s) by { assert !IsDigit(s[0]) && s[0] != '.'; }
      }
    }
  }

  /** A sign in front of an unsigned numeral: `+` keeps its value, `-` negates it. */
  lemma ParseFloatSigns(u: string)
    ensures ParseFloat("+" + u) == ParseUnsigned(u)
    ensures ParseFloat("-" + u) == (match ParseUnsigned(u) case Some(v) => Some(-v) case None => None)
  {
    assert ("+" + u)[1..] == u;
    assert ("-" + u)[1..] == u;
  }

  /** A digit run without a leading zero has a positive value. */
  lemma {:induction false} DigitsValuePositive(s: string)
    requires |s| > 0 && AllDigits(s) && s[0] != '0'
    ensures DigitsValue(s) >= 1
    decreases |s|
  {
    if |s| > 1 {
      DigitsValuePositive(s[..|s| - 1]);
    }
  }

  /** `str` is the inverse of reading digits on canonical numerals: every digit
      run without a leading zero is `str` of its value. */
  lemma {:induction false} NatToDecimalCanonical(s: string)
    requires |s| > 0 && AllDigits(s) && (|s| == 1 || s[0] != '0')
    ensures NatToDecimal(DigitsValue(s)) == s
    decreases |s|
  {
    if |s| == 1 {
      assert DigitChar(DigitValue(s[0])) == s[0];
    } else {
      var p := s[..|s| - 1];
      var d := DigitValue(s[|s| - 1]);
      DigitsValuePositive(p);
      NatToDecimalCanonical(p);
      var n := DigitsValue(s);
      assert n == 10 * DigitsValue(p) + d;
      assert n / 10 == DigitsValue(p) && n % 10 == d;
      assert DigitChar(d) == s[|s| - 1];
      assert s == p + [s[|s| - 1]];
    }
  }

  lemma {:induction false} NatToDecimalValue(n: nat)
    ensures DigitsValue(NatToDecimal(n)) == n
  {
    if n >= 10 {
      var s := NatToDecimal(n);
      assert s[..|s| - 1] == NatToDecimal(n / 10);
      NatToDecimalValue(n / 10);
    }
  }

  /** `float(str(i)) == i`: the integer printer and the float parser agree. */
  lemma IntToDecimalRoundTrip(i: int)
    ensures ParseFloat(IntToDecimal(i)) == Some(i as real)
  {
    if i < 0 {
      var d := NatToDecimal(-i);
      assert IntToDecimal(i)[1..] == d;
      NatToDecimalValue(-i);
    } else {
      NatToDecimalValue(i);
    }
  }
}
