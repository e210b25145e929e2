/** The number tokens of Python's JSON scanner, and the round trip with `Number.Format`. */
module NumberReader {
  import opened Wrappers
  import opened Bytes
  import opened Decimal
  import opened Number

  /** How many digits `t` starts with. */
  function CountDigits(t: string): (n: nat)
    ensures n <= |t| && AllDigits(t[..n])
    ensures n < |t| ==> !IsDigit(t[n])
  {
    if t == "" || !IsDigit(t[0]) then 0
    else
      var n := CountDigits(t[1..]);
      assert t[..n + 1] == [t[0]] + t[1..][..n];
      n + 1
  }

  function ReadFrac(t: string): (r: (Option<string>, string))
    ensures |r.1| <= |t|
  {
    if |t| >= 2 && t[0] == '.' && IsDigit(t[1]) then
      var n := CountDigits(t[1..]);
      (Some(t[1..][..n]), t[1..][n..])
    else (None, t)
  }

  function ReadExp(t: string): (r: (Exponent, string))
    ensures |r.1| <= |t|
  {
    if t == "" || (t[0] != 'e' && t[0] != 'E') then (NoExponent, t)
    else
      var sign := if |t| >= 2 && (t[1] == '+' || t[1] == '-') then [t[1]] else "";
      var tail := t[1 + |sign|..];
      var n := CountDigits(tail);
      if n == 0 then (NoExponent, t) else (Exponent(t[0], sign, tail[..n]), tail[n..])
  }

  /** The longest unsigned number token at the start of `t`. */
  function ReadLiteral(t: string): (r: Option<(Literal, string)>)
    ensures r.Some? ==> |r.value.1| < |t|
  {
    if t == "" || !IsDigit(t[0]) then None
    else
      var n := if t[0] == '0' then 1 else CountDigits(t);
      var (frac, t1) := ReadFrac(t[n..]);
      var (exp, t2) := ReadExp(t1);
      Some((Literal(t[..n], frac, exp), t2))
  }

  lemma ReadLiteralValid(t: string)
    requires ReadLiteral(t).Some?
    ensures ReadLiteral(t).value.0.JsonValid()
  {
    assert t[0] == '0' ==> AllDigits(t[..1]);
    assert CountDigits(t) > 0;
    assert forall u: string :: u != "" && IsDigit(u[0]) ==> CountDigits(u) > 0;
  }

  function ReadNumber(t: string): (r: Option<(JsonNumber, string)>)
    ensures r.Some? ==> |r.value.1| < |t|
  {
    var negative := t != "" && t[0] == '-';
    var (l, rest) :- ReadLiteral(if negative then t[1..] else t);
    ReadLiteralValid(if negative then t[1..] else t);
    NumberOfExact(negative, l);
    Some((NumberOf(negative, l), rest))
  }

  /** What may follow a value: nothing, white space, the next part of a container or its end. */
  predicate Terminated(rest: string) {
    rest == "" || rest[0] in " \t\n\r,]}"
  }

  lemma {:induction false} CountDigitsExact(digits: string, rest: string)
    requires AllDigits(digits) && (rest == "" || !IsDigit(rest[0]))
    ensures CountDigits(digits + rest) == |digits|
  {
    if digits == "" {
      assert digits + rest == rest;
    } else {
      CountDigitsExact(digits[1..], rest);
      assert (digits + rest)[1..] == digits[1..] + rest;
      assert digits[0] in digits;
    }
  }

  lemma ReadExpText(exp: Exponent, rest: string)
    requires Literal("0", None, exp).Valid() && Terminated(rest)
    ensures ReadExp(ExpText(exp) + rest) == (exp, rest)
  {
    hide NatOf, CountDigits;
    if exp.Exponent? {
      var tail := exp.digits + rest;
      ExpPieces(exp, rest);
      assert exp.digits[0] in exp.digits;
      CountDigitsExact(exp.digits, rest);
      CutTail(exp.digits, rest);
    } else {
      assert ExpText(exp) + rest == rest;
    }
  }

  /** The marker, the sign and the digits of an exponent text, by position. */
  lemma ExpPieces(exp: Exponent, rest: string)
    requires exp.Exponent? && exp.sign in ["", "+", "-"] && exp.digits != ""
    ensures var t := ExpText(exp) + rest;
            && |t| >= 2 && t[0] == exp.marker && t[1] == (exp.sign + exp.digits)[0]
            && t[1 + |exp.sign|..] == exp.digits + rest
  {
    var t := ExpText(exp) + rest;
    assert t == [exp.marker] + exp.sign + (exp.digits + rest);
  }

  lemma ReadFracText(frac: Option<string>, rest: string)
    requires Literal("0", frac, NoExponent).Valid()
    requires rest == "" || (!IsDigit(rest[0]) && rest[0] != '.')
    ensures ReadFrac(FracText(frac) + rest) == (frac, rest)
  {
    var t := FracText(frac) + rest;
    if frac.Some? {
      assert frac.value[0] in frac.value;
      assert t[1..] == frac.value + rest;
      CountDigitsExact(frac.value, rest);
      assert t[1..][..|frac.value|] == frac.value && t[1..][|frac.value|..] == rest;
    } else {
      assert t == rest;
    }
  }

  /** A literal text ends its whole part at a character that is no digit, and its fraction likewise. */
  lemma LiteralSplit(l: Literal, rest: string)
    requires l.Valid() && Terminated(rest)
    ensures var tail := ExpText(l.exp) + rest;
            var after := FracText(l.frac) + tail;
            && l.Text() + rest == l.whole + after
            && (tail == "" || (!IsDigit(tail[0]) && tail[0] != '.'))
            && (after == "" || !IsDigit(after[0]))
  {
    var tail := ExpText(l.exp) + rest;
    Assoc(l.whole + FracText(l.frac), ExpText(l.exp), rest);
    Assoc(l.whole, FracText(l.frac), tail);
    hide NatOf;
    if l.exp.NoExponent? {
      assert tail == rest;
    } else {
      assert tail[0] == l.exp.marker;
    }
    if l.frac.None? {
      assert FracText(l.frac) + tail == tail;
    } else {
      assert (FracText(l.frac) + tail)[0] == '.';
    }
  }

  /** Scanning inverts printing for every JSON number literal. */
  lemma ReadLiteralText(l: Literal, rest: string)
    requires l.JsonValid() && Terminated(rest)
    ensures ReadLiteral(l.Text() + rest) == Some((l, rest))
  {
    hide NatOf, CountDigits, ReadFrac, ReadExp, FracText, ExpText;
    var tail := ExpText(l.exp) + rest;
    var after := FracText(l.frac) + tail;
    LiteralSplit(l, rest);
    assert l.whole[0] in l.whole;
    CountDigitsExact(l.whole, after);
    CutTail(l.whole, after);
    ReadFracText(l.frac, tail);
    ReadExpText(l.exp, rest);
    hide Literal.Text, AllDigits;
  }

  lemma ZeroLiteral(l: Literal)
    requires l == Literal("0", None, NoExponent)
    ensures NumberOf(false, l) == Zero
  {
    ScaleZero(0);
    DigitsExact(l);
  }

  /** Reading back a formatted number gives the same number. */
  lemma ReadFormat(n: JsonNumber, rest: string)
    requires Terminated(rest)
    ensures ReadNumber(Format(n) + rest) == Some((n, rest))
  {
    hide Scale, NatOf, BandLiteral, FormatDigits, Literal.Denotes, ShortestDigits, ReadLiteral;
    match n
    case Zero =>
      var l := Literal("0", None, NoExponent);
      assert l.Text() == "0";
      ReadLiteralText(l, rest);
      ZeroLiteral(l);
    case Scaled(negative, digits, point) =>
      var l := BandLiteral(digits, point);
      BandsExact(digits, point);
      NumberOfFormat(n);
      ReadLiteralText(l, rest);
      var body := l.Text() + rest;
      if negative {
        assert Format(n) + rest == ['-'] + body;
      } else {
        assert Format(n) + rest == body;
        assert IsDigit(body[0]);
      }
  }

  /** Two numbers print alike exactly when they are equal in value. */
  lemma FormatInjective(a: JsonNumber, b: JsonNumber)
    ensures Format(a) == Format(b) <==> Value(a) == Value(b)
  {
    if Format(a) == Format(b) {
      ReadFormat(a, "");
      ReadFormat(b, "");
    }
    if Value(a) == Value(b) {
      ValueInjective(a, b);
    }
  }

  /**
   * A double fails to print exactly when it is not finite. Otherwise reading its text gives the
   * exact value of its digits back, and zero, also the negative one, prints as `0`.
   */
  lemma FormatNumberExact(v: PyNumber)
    ensures FormatNumber(v).Some? <==> v.Finite?
    ensures v.Finite? ==>
              var r := ReadNumber(FormatNumber(v).value);
              && r.Some? && r.value.1 == ""
              && Value(r.value.0) == (if v.negative then -v.magnitude.Denotes() else v.magnitude.Denotes())
              && (FormatNumber(v).value == "0" <==> v.magnitude.Denotes() == 0.0)
  {
    hide ReadNumber, Format, Literal.Denotes, NumberOf, Value;
    if v.Finite? {
      NumberOfExact(v.negative, v.magnitude);
      var n := NumberOf(v.negative, v.magnitude);
      ReadFormat(n, "");
      assert Format(n) + "" == Format(n);
      FormatInjective(n, Zero);
      ZeroFormat();
    }
  }

  lemma ZeroFormat()
    ensures Format(Zero) == "0" && Value(Zero) == 0.0
  {
  }
}
