/** Which of its forms a printed number takes, by its value (section 7.1.12.1 of ECMA-262). */
module NumberForm {
  import opened Decimal
  import opened Number
  import opened Fields

  lemma ScaleGrows(a: nat, b: nat, e: int)
    requires a <= b
    ensures Scale(a, e) <= Scale(b, e)
  {
    ScaleAdd(a, b - a, e);
    hide Scale;
  }

  lemma {:induction false} PowersGrow(d: int, k: nat)
    ensures Scale(1, d) <= Scale(1, d + k) && (k > 0 ==> Scale(1, d) < Scale(1, d + k))
  {
    if k > 0 {
      PowersGrow(d, k - 1);
      ScaleStep(1, d + k - 1);
    }
    hide Scale;
  }

  lemma PowersOrdered(d: int, e: int)
    ensures Scale(1, d) < Scale(1, e) <==> d < e
  {
    if d <= e {
      PowersGrow(d, e - d);
    } else {
      PowersGrow(e, d - e);
    }
    hide Scale;
  }

  /** 0.d1..dk * 10^n lies between the powers n - 1 and n. */
  lemma Between(digits: string, n: int)
    requires Normal(digits)
    ensures Scale(1, n - 1) <= Decimal.Scaled(digits, n - |digits|) < Scale(1, n)
  {
    var k := |digits|;
    NatOfBounds(digits);
    ScaleBelow(NatOf(digits), k, n - k);
    ScaleShift(1, k - 1, n - k);
    ScaleGrows(1 * PowNat(k - 1), NatOf(digits), n - k);
    hide Scale, NatOf, PowNat;
  }

  /** The range that is printed without an exponent: 10^-6 <= v < 10^21. */
  ghost predicate InPlainRange(v: real) {
    Scale(1, -6) <= v < Scale(1, 21)
  }

  lemma PlainRange(digits: string, n: int)
    requires Normal(digits)
    ensures InPlainRange(Decimal.Scaled(digits, n - |digits|)) <==> -6 < n <= 21
  {
    hide Scale;
    Between(digits, n);
    PowersOrdered(n, -6);
    PowersOrdered(-6, n - 1);
    PowersOrdered(n - 1, 21);
    PowersOrdered(21, n);
  }

  /** One digit, or one digit, a point and digits up to a last one that is not zero. */
  ghost predicate IsMantissa(m: string) {
    && m != "" && IsDigit(m[0]) && m[0] != '0'
    && (|m| > 1 ==> |m| > 2 && m[1] == '.' && AllDigits(m[2..]) && m[|m| - 1] != '0')
  }

  /** A mantissa, `e`, an explicit sign and a power without leading zeros. */
  ghost predicate IsScientific(text: string) {
    exists m: string, sign, power: nat ::
      IsMantissa(m) && sign in ["+", "-"] && power > 0 && text == m + "e" + sign + NatText(power)
  }

  /** Digits, with a fraction that does not end in zero exactly when `fraction` says so. */
  ghost predicate IsPlain(text: string, fraction: bool) {
    if fraction then
      exists i | 0 < i < |text| - 1 ::
        && AllDigits(text[..i]) && text[i] == '.' && AllDigits(text[i + 1..]) && text[|text| - 1] != '0'
        && (text[0] == '0' ==> i == 1)
    else AllDigits(text) && text != "" && text[0] != '0'
  }

  lemma SubDigits(s: string, i: nat, j: nat)
    requires AllDigits(s) && i <= j <= |s|
    ensures AllDigits(s[i..j])
  {
    forall c | c in s[i..j] ensures IsDigit(c) {
      assert c in s;
    }
  }

  function Mantissa(digits: string): string
    requires digits != ""
  {
    if |digits| == 1 then digits else [digits[0]] + "." + digits[1..]
  }

  lemma MantissaForm(digits: string)
    requires Normal(digits)
    ensures IsMantissa(Mantissa(digits))
  {
    var m, k := Mantissa(digits), |digits|;
    assert digits[0] in digits;
    SubDigits(digits, 1, k);
    assert digits[1..k] == digits[1..];
    if k > 1 {
      assert m[2..] == digits[1..] && m[|m| - 1] == digits[k - 1];
    }
  }

  lemma ScientificForm(digits: string, n: int)
    requires Normal(digits) && !(-6 < n <= 21)
    ensures IsScientific(FormatDigits(digits, n))
  {
    hide NatText, AllDigits, IsMantissa;
    MantissaForm(digits);
    var m, sign, power: nat := Mantissa(digits), if n >= 1 then "+" else "-", if n >= 1 then n - 1 else 1 - n;
    SignedPower(m, sign, NatText(power));
    assert FormatDigits(digits, n) == m + "e" + sign + NatText(power);
  }

  lemma SignedPower(m: string, sign: string, power: string)
    requires sign in ["+", "-"]
    ensures m + ((if sign == "+" then "e+" else "e-") + power) == m + "e" + sign + power
  {
    assert (if sign == "+" then "e+" else "e-") == "e" + sign;
  }

  lemma PlainForm(digits: string, n: int)
    requires Normal(digits) && -6 < n <= 21
    ensures IsPlain(FormatDigits(digits, n), n < |digits|)
  {
    var k := |digits|;
    var text := FormatDigits(digits, n);
    if k <= n {
      DigitsConcat(digits, Zeros(n - k));
    } else if 0 < n {
      SubDigits(digits, 0, n);
      SubDigits(digits, n, k);
      assert text[..n] == digits[..n] && text[n] == '.' && text[n + 1..] == digits[n..k];
    } else {
      DigitsConcat(Zeros(-n), digits);
      assert text[..1] == "0" && text[1] == '.' && text[2..] == Zeros(-n) + digits;
    }
  }

  lemma FloorIs(v: real, m: int)
    requires m as real <= v < m as real + 1.0
    ensures v.Floor == m
  {
  }

  lemma WholeMeaning(digits: string, n: int)
    requires Normal(digits)
    ensures var v := Decimal.Scaled(digits, n - |digits|);
            v == v.Floor as real <==> n >= |digits|
  {
    hide Scale, NatOf, Magnitude, Decimal.Scaled;
    MagnitudeTruncates(digits, n);
    FloorIs(Decimal.Scaled(digits, n - |digits|), Magnitude(digits, n));
    if n >= |digits| {
      MagnitudeOfInteger(digits, n);
    } else {
      FractionIsNotInteger(digits, n, Magnitude(digits, n));
    }
  }

  /** The form of 0.d1..dk * 10^n by its value. */
  lemma FormOfDigits(digits: string, n: int)
    requires Normal(digits)
    ensures var v := Decimal.Scaled(digits, n - |digits|);
            && (InPlainRange(v) ==> IsPlain(FormatDigits(digits, n), v != v.Floor as real))
            && (!InPlainRange(v) ==> IsScientific(FormatDigits(digits, n)))
  {
    hide Decimal.Scaled, FormatDigits, IsPlain, IsScientific, InPlainRange;
    PlainRange(digits, n);
    WholeMeaning(digits, n);
    if -6 < n <= 21 {
      PlainForm(digits, n);
    } else {
      ScientificForm(digits, n);
    }
  }

  /**
   * The form of a nonzero number by its value: plain digits, with a fraction exactly when the value
   * is not an integer, from 10^-6 up to but not at 10^21, and scientific everywhere else.
   */
  lemma FormByValue(n: JsonNumber)
    requires n.Scaled?
    ensures var v := if n.negative then -Value(n) else Value(n);
            var text := FormatDigits(n.digits, n.point);
            && Format(n) == (if n.negative then "-" else "") + text
            && (InPlainRange(v) ==> IsPlain(text, v != v.Floor as real))
            && (!InPlainRange(v) ==> IsScientific(text))
  {
    hide Decimal.Scaled, FormatDigits, IsPlain, IsScientific, InPlainRange;
    FormOfDigits(n.digits, n.point);
  }
}
