/**
 * JSON numbers: from the text Python's `repr` gives a double, through digit extraction,
 * to the text of `Number::toString` that section 3.2.2.3 of RFC 8785 asks for, and back.
 */
module Number {
  import opened Wrappers
  import opened Bytes
  import opened Decimal

  /** A decimal value in its one normal form: zero, or ± 0.d1..dk * 10^point. */
  datatype Number = Zero | Scaled(negative: bool, digits: string, point: int) {
    ghost predicate Valid() {
      Scaled? ==> Normal(digits)
    }
  }

  type JsonNumber = n: Number | n.Valid() witness Zero

  ghost function Value(n: JsonNumber): real {
    match n
    case Zero => 0.0
    case Scaled(negative, digits, point) =>
      var v := Decimal.Scaled(digits, point - |digits|);
      if negative then -v else v
  }

  // ----- the grammar of unsigned number texts -----

  datatype Exponent = NoExponent | Exponent(marker: char, sign: string, digits: string)

  /** Digits, an optional fraction, an optional exponent: what `repr` prints and JSON allows. */
  datatype Literal = Literal(whole: string, frac: Option<string>, exp: Exponent) {
    ghost predicate Valid() {
      && whole != "" && AllDigits(whole)
      && (frac.Some? ==> frac.value != "" && AllDigits(frac.value))
      && (exp.Exponent? ==>
            && (exp.marker == 'e' || exp.marker == 'E')
            && (exp.sign == "" || exp.sign == "+" || exp.sign == "-")
            && exp.digits != "" && AllDigits(exp.digits))
    }

    /** JSON forbids a leading zero. */
    ghost predicate JsonValid() {
      Valid() && (whole[0] == '0' ==> |whole| == 1)
    }

    function Text(): string {
      whole + FracText(frac) + ExpText(exp)
    }

    function FracDigits(): string {
      if frac.Some? then frac.value else ""
    }

    function Power(): int {
      if exp.NoExponent? then 0
      else if exp.sign == "-" then 0 - NatOf(exp.digits) else NatOf(exp.digits)
    }

    /** The number the text denotes: whole * 10^power + frac * 10^(power - |frac|). */
    ghost function Denotes(): real {
      Scale(NatOf(whole), Power()) + Scale(NatOf(FracDigits()), Power() - |FracDigits()|)
    }
  }

  function FracText(frac: Option<string>): string {
    if frac.Some? then "." + frac.value else ""
  }

  function ExpText(exp: Exponent): string {
    if exp.Exponent? then [exp.marker] + exp.sign + exp.digits else ""
  }

  /** All digits of a literal, with the decimal point moved behind them. */
  lemma DenotesAllDigits(l: Literal)
    ensures l.Denotes() == Decimal.Scaled(l.whole + l.FracDigits(), l.Power() - |l.FracDigits()|)
  {
    hide Scale, NatOf, PowNat;
    var f := l.FracDigits();
    var e := l.Power() - |f|;
    NatOfConcat(l.whole, f);
    ScaleShift(NatOf(l.whole), |f|, e);
    ScaleAdd(NatOf(l.whole) * PowNat(|f|), NatOf(f), e);
  }

  // ----- `_shortest_digits` -----

  function Lower(s: string): (t: string)
    ensures |t| == |s|
  {
    seq(|s|, i requires 0 <= i < |s| => if s[i] == 'E' then 'e' else s[i])
  }

  /** `int(text)` of an exponent part. */
  function IntOf(text: string): int {
    if text != "" && text[0] == '-' then 0 - NatOf(text[1..])
    else if text != "" && text[0] == '+' then NatOf(text[1..])
    else NatOf(text)
  }

  function LStrip0(s: string): (t: string)
    ensures |t| <= |s| && s == Zeros(|s| - |t|) + t
    ensures t != "" ==> t[0] != '0'
  {
    if s != "" && s[0] == '0' then
      var t := LStrip0(s[1..]);
      assert Zeros(|s| - |t|) == ['0'] + Zeros(|s[1..]| - |t|);
      t
    else s
  }

  function RStrip0(s: string): (t: string)
    ensures |t| <= |s| && s == t + Zeros(|s| - |t|)
    ensures t != "" ==> t[|t| - 1] != '0'
  {
    if s != "" && s[|s| - 1] == '0' then
      var t := RStrip0(s[..|s| - 1]);
      assert Zeros(|s| - |t|) == Zeros(|s| - 1 - |t|) + ['0'];
      t
    else s
  }

  /** The mantissa and the exponent: `text.lower().partition("e")`. */
  function SplitExponent(text: string): (r: (string, int)) {
    if 'e' in text || 'E' in text then
      var i := IndexOf(Lower(text), 'e');
      (Lower(text)[..i], if i < |text| then IntOf(Lower(text)[i + 1..]) else 0)
    else (text, 0)
  }

  /** `mantissa.partition(".")`. */
  function SplitPoint(mantissa: string): (r: (string, string)) {
    var j := IndexOf(mantissa, '.');
    (mantissa[..j], if j < |mantissa| then mantissa[j + 1..] else "")
  }

  /** The significant digits of a number text and its decimal point position. */
  function ShortestDigits(text: string): (r: (string, int)) {
    var (mantissa, exp) := SplitExponent(text);
    var (wholePart, fracPart) := SplitPoint(mantissa);
    var allDigits := wholePart + fracPart;
    var stripped := LStrip0(allDigits);
    (RStrip0(stripped), |wholePart| + exp - (|allDigits| - |stripped|))
  }

  lemma LowerDigits(s: string)
    requires 'E' !in s
    ensures Lower(s) == s
  {
  }

  lemma NotDigits(s: string)
    requires AllDigits(s)
    ensures 'e' !in s && 'E' !in s && '.' !in s && '+' !in s && '-' !in s
  {
  }

  lemma DigitsConcat(a: string, b: string)
    requires AllDigits(a) && AllDigits(b)
    ensures AllDigits(a + b)
  {
  }

  lemma SplitExponentText(mantissa: string, marker: char, tail: string)
    requires marker == 'e' || marker == 'E'
    requires 'e' !in mantissa && 'E' !in mantissa && 'E' !in tail
    ensures SplitExponent(mantissa + [marker] + tail) == (mantissa, IntOf(tail))
  {
    var text := mantissa + [marker] + tail;
    LowerDigits(mantissa);
    LowerDigits(tail);
    assert Lower(text) == mantissa + ['e'] + tail;
    IndexOfAfter(mantissa, 'e', tail);
    assert text[|mantissa|] == marker;
    assert Lower(text)[..|mantissa|] == mantissa && Lower(text)[|mantissa| + 1..] == tail;
  }

  lemma IntOfExponent(exp: Exponent)
    requires exp.Exponent? && AllDigits(exp.digits) && exp.digits != ""
    requires exp.sign == "" || exp.sign == "+" || exp.sign == "-"
    ensures IntOf(exp.sign + exp.digits) == Literal("", None, exp).Power()
    ensures 'E' !in exp.sign + exp.digits
  {
    NotDigits(exp.digits);
    var tail := exp.sign + exp.digits;
    if exp.sign == "" {
      assert tail == exp.digits;
      assert tail[0] in exp.digits;
    } else {
      assert tail[1..] == exp.digits;
    }
  }

  lemma SplitExponentOfLiteral(l: Literal)
    requires l.Valid()
    ensures SplitExponent(l.Text()) == (l.whole + FracText(l.frac), l.Power())
  {
    hide NatOf, IntOf, IndexOf, Lower;
    var mantissa := l.whole + FracText(l.frac);
    NotDigits(l.whole);
    NotDigits(l.FracDigits());
    assert 'e' !in mantissa && 'E' !in mantissa;
    if l.exp.Exponent? {
      IntOfExponent(l.exp);
      assert l.Text() == mantissa + [l.exp.marker] + (l.exp.sign + l.exp.digits);
      SplitExponentText(mantissa, l.exp.marker, l.exp.sign + l.exp.digits);
    } else {
      assert l.Text() == mantissa;
    }
  }

  lemma SplitPointOfLiteral(l: Literal)
    requires l.Valid()
    ensures SplitPoint(l.whole + FracText(l.frac)) == (l.whole, l.FracDigits())
  {
    NotDigits(l.whole);
    var mantissa := l.whole + FracText(l.frac);
    if l.frac.Some? {
      assert mantissa == l.whole + ['.'] + l.frac.value;
      IndexOfAfter(l.whole, '.', l.frac.value);
    } else {
      assert mantissa == l.whole;
      IndexOfAbsent(mantissa, '.');
    }
  }

  /** Splitting the printed literal at `e` and `.` recovers its parts. */
  lemma ShortestDigitsOfLiteral(l: Literal)
    requires l.Valid()
    ensures var allDigits := l.whole + l.FracDigits();
            var stripped := LStrip0(allDigits);
            ShortestDigits(l.Text()) ==
            (RStrip0(stripped), |l.whole| + l.Power() - (|allDigits| - |stripped|))
  {
    hide SplitExponent, SplitPoint, LStrip0, RStrip0, NatOf;
    SplitExponentOfLiteral(l);
    SplitPointOfLiteral(l);
    hide Literal.Text, Literal.Power, Literal.FracDigits, FracText, AllDigits;
  }

  /**
   * Digit extraction keeps the exact value of every number text, and its result is in
   * normal form; it is empty exactly for the texts of zero.
   */
  lemma DigitsExact(l: Literal)
    requires l.Valid()
    ensures var (digits, n) := ShortestDigits(l.Text());
            if l.Denotes() == 0.0 then digits == ""
            else Normal(digits) && Decimal.Scaled(digits, n - |digits|) == l.Denotes()
  {
    hide Scale, NatOf, Literal.Denotes, Literal.Power, ShortestDigits, LStrip0, RStrip0;
    ShortestDigitsOfLiteral(l);
    DenotesAllDigits(l);
    var all := l.whole + l.FracDigits();
    var e := l.Power() - |l.FracDigits()|;
    var digits := RStrip0(LStrip0(all));
    var trail := |LStrip0(all)| - |digits|;
    LiteralDigits(l);
    StripExact(all, e);
    StripNormal(all);
    EmptyIsZero(e + trail);
    if digits != "" {
      NormalPositive(digits, e + trail);
    }
  }

  lemma LiteralDigits(l: Literal)
    requires l.Valid()
    ensures AllDigits(l.whole + l.FracDigits())
    ensures |l.whole + l.FracDigits()| == |l.whole| + |l.FracDigits()|
  {
    DigitsConcat(l.whole, l.FracDigits());
  }

  /** Stripping zeros at both ends keeps the value... */
  lemma StripExact(all: string, e: int)
    ensures Decimal.Scaled(all, e)
         == Decimal.Scaled(RStrip0(LStrip0(all)), e + (|LStrip0(all)| - |RStrip0(LStrip0(all))|))
  {
    hide Scale, NatOf, LStrip0, RStrip0;
    var stripped := LStrip0(all);
    var digits := RStrip0(stripped);
    var lead, trail := |all| - |stripped|, |stripped| - |digits|;
    assert all == Zeros(lead) + digits + Zeros(trail);
    ScaledStrip(lead, digits, trail, e);
  }

  /** ... and leaves nothing or a normal form. */
  lemma StripNormal(all: string)
    requires AllDigits(all)
    ensures RStrip0(LStrip0(all)) != "" ==> Normal(RStrip0(LStrip0(all)))
  {
    hide NatOf, LStrip0, RStrip0;
    var stripped := LStrip0(all);
    var digits := RStrip0(stripped);
    if digits != "" {
      assert stripped[0] == digits[0];
      assert forall c <- digits :: c in stripped;
      assert forall c <- stripped :: c in all;
    }
  }

  lemma EmptyIsZero(e: int)
    ensures Decimal.Scaled("", e) == 0.0
  {
    ScaleZero(e);
  }

  // ----- `_format_number` -----

  datatype Double = NotFinite | Finite(negative: bool, magnitude: Literal)

  /** What `_format_number` is given: the `repr` of a finite magnitude, or no finite double. */
  type PyNumber = v: Double | v.Finite? ==> v.magnitude.Valid() witness NotFinite

  /** The value of a Python number, if it has one: zero loses its sign. */
  function NumberOf(negative: bool, l: Literal): Number {
    var (digits, n) := ShortestDigits(l.Text());
    if digits == "" then Zero else Scaled(negative, digits, n)
  }

  lemma NumberOfExact(negative: bool, l: Literal)
    requires l.Valid()
    ensures NumberOf(negative, l).Valid()
    ensures Value(NumberOf(negative, l)) == if negative then -l.Denotes() else l.Denotes()
  {
    hide Scale, NatOf, Literal.Denotes, ShortestDigits;
    DigitsExact(l);
  }

  /** The four bands of `Number::toString`. */
  function FormatDigits(digits: string, n: int): string
    requires digits != ""
  {
    var k := |digits|;
    if k <= n <= 21 then digits + Zeros(n - k)
    else if 0 < n <= 21 then digits[..n] + "." + digits[n..]
    else if -6 < n <= 0 then "0." + Zeros(-n) + digits
    else
      var exponent := n - 1;
      var expText := if exponent >= 0 then "e+" + NatText(exponent) else "e-" + NatText(-exponent);
      if k == 1 then digits + expText
      else [digits[0]] + "." + digits[1..] + expText
  }

  function Format(n: JsonNumber): string {
    match n
    case Zero => "0"
    case Scaled(negative, digits, point) =>
      if negative then "-" + FormatDigits(digits, point) else FormatDigits(digits, point)
  }

  /** `_format_number`. */
  function FormatNumber(v: PyNumber): Option<string>
  {
    match v
    case NotFinite => None
    case Finite(negative, magnitude) =>
      NumberOfExact(negative, magnitude);
      Some(Format(NumberOf(negative, magnitude)))
  }

  /** The literal that the bands print. */
  function BandLiteral(digits: string, n: int): Literal
    requires digits != ""
  {
    var k := |digits|;
    if k <= n <= 21 then Literal(digits + Zeros(n - k), None, NoExponent)
    else if 0 < n <= 21 then Literal(digits[..n], Some(digits[n..]), NoExponent)
    else if -6 < n <= 0 then Literal("0", Some(Zeros(-n) + digits), NoExponent)
    else
      var exp := if n >= 1 then Exponent('e', "+", NatText(n - 1)) else Exponent('e', "-", NatText(1 - n));
      Literal([digits[0]], if k == 1 then None else Some(digits[1..]), exp)
  }

  /** Each band prints a JSON number whose value is exactly that of the digits. */
  lemma BandsExact(digits: string, n: int)
    requires Normal(digits)
    ensures BandLiteral(digits, n).JsonValid()
    ensures BandLiteral(digits, n).Text() == FormatDigits(digits, n)
    ensures BandLiteral(digits, n).Denotes() == Decimal.Scaled(digits, n - |digits|)
  {
    hide BandLiteral, FormatDigits, Literal.Denotes, Literal.Text, Literal.Power, Literal.FracDigits, AllDigits,
         Scale, NatOf, Decimal.Scaled;
    BandsText(digits, n);
    BandsValue(digits, n);
    DenotesAllDigits(BandLiteral(digits, n));
  }

  lemma BandsValue(digits: string, n: int)
    requires digits != ""
    ensures var l := BandLiteral(digits, n);
            Decimal.Scaled(l.whole + l.FracDigits(), l.Power() - |l.FracDigits()|)
            == Decimal.Scaled(digits, n - |digits|)
  {
    hide Scale, NatOf, NatText;
    var k := |digits|;
    if k <= n <= 21 {
      ScaledStrip(0, digits, n - k, 0);
      assert digits + Zeros(n - k) + "" == Zeros(0) + digits + Zeros(n - k);
    } else if 0 < n <= 21 {
      assert digits[..n] + digits[n..] == digits;
    } else if -6 < n <= 0 {
      ScaledStrip(1 - n, digits, 0, n - k);
      assert "0" + (Zeros(-n) + digits) == Zeros(1 - n) + digits + Zeros(0);
    } else {
      assert [digits[0]] + digits[1..] == digits;
      ScientificPower(digits, n);
    }
  }

  lemma ScientificPower(digits: string, n: int)
    requires digits != "" && (n <= -6 || n > 21)
    ensures BandLiteral(digits, n).Power() == n - 1
  {
    assert NatOf(NatText(if n >= 1 then n - 1 else 1 - n)) == if n >= 1 then n - 1 else 1 - n;
  }

  lemma BandsText(digits: string, n: int)
    requires Normal(digits)
    ensures BandLiteral(digits, n).JsonValid()
    ensures BandLiteral(digits, n).Text() == FormatDigits(digits, n)
  {
    hide NatText, NatOf;
    var k := |digits|;
    if n <= -6 || n > 21 {
      ScientificText(digits, n);
    } else if k <= n {
      DigitsConcat(digits, Zeros(n - k));
    } else if 0 < n {
      assert forall c <- digits[..n] :: c in digits;
      assert forall c <- digits[n..] :: c in digits;
    } else {
      DigitsConcat(Zeros(-n), digits);
    }
  }

  lemma ScientificText(digits: string, n: int)
    requires Normal(digits) && (n <= -6 || n > 21)
    ensures BandLiteral(digits, n).Text() == FormatDigits(digits, n)
    ensures BandLiteral(digits, n).JsonValid()
  {
    hide NatText, NatOf, DigitOf;
    assert digits[0] in digits && forall c <- digits[1..] :: c in digits;
    var sign, power := if n >= 1 then "+" else "-", NatText(if n >= 1 then n - 1 else 1 - n);
    ExponentText(sign, power);
    ScientificPieces(digits, sign, power);
  }

  lemma ExponentText(sign: string, power: string)
    requires sign == "+" || sign == "-"
    ensures ExpText(Exponent('e', sign, power)) == "e" + sign + power
    ensures "e" + sign == if sign == "+" then "e+" else "e-"
  {
  }

  lemma ScientificPieces(digits: string, sign: string, power: string)
    requires digits != ""
    ensures [digits[0]] + FracText(None) + ("e" + sign + power) == [digits[0]] + ("e" + sign + power)
    ensures [digits[0]] + FracText(Some(digits[1..])) + ("e" + sign + power)
         == [digits[0]] + "." + digits[1..] + ("e" + sign + power)
    ensures |digits| == 1 ==> [digits[0]] == digits
  {
  }

  /** Reading the digits of a printed number gives the number back. */
  lemma NumberOfFormat(n: JsonNumber)
    requires n.Scaled?
    ensures NumberOf(n.negative, BandLiteral(n.digits, n.point)) == n
  {
    hide Scale, NatOf, BandLiteral, Literal.Denotes, ShortestDigits;
    var l := BandLiteral(n.digits, n.point);
    BandsExact(n.digits, n.point);
    DigitsExact(l);
    NormalPositive(n.digits, n.point - |n.digits|);
    var (digits, point) := ShortestDigits(l.Text());
    NormalUnique(digits, point - |digits|, n.digits, n.point - |n.digits|);
  }

  lemma ValueInjective(a: JsonNumber, b: JsonNumber)
    requires Value(a) == Value(b)
    ensures a == b
  {
    if a.Scaled? {
      NormalPositive(a.digits, a.point - |a.digits|);
    }
    if b.Scaled? {
      NormalPositive(b.digits, b.point - |b.digits|);
    }
    if a.Scaled? && b.Scaled? {
      NormalUnique(a.digits, a.point - |a.digits|, b.digits, b.point - |b.digits|);
    }
  }

  /** The normal form of a positive integer. */
  lemma PlainDigits(m: nat)
    requires 0 < m
    ensures Normal(RStrip0(NatText(m)))
    ensures Decimal.Scaled(RStrip0(NatText(m)), |NatText(m)| - |RStrip0(NatText(m))|) == m as real
  {
    hide Scale, NatOf, NatText, RStrip0;
    var text := NatText(m);
    var digits := RStrip0(text);
    var trail := |text| - |digits|;
    assert text == Zeros(0) + digits + Zeros(trail);
    ScaledStrip(0, digits, trail, 0);
    ScaleOne(m);
    if digits == "" {
      EmptyIsZero(trail);
    } else {
      assert digits[0] == text[0];
      assert forall c <- digits :: c in text;
    }
  }

  function PlainNumber(negative: bool, m: nat): (n: JsonNumber)
    requires 0 < m
  {
    PlainDigits(m);
    Scaled(negative, RStrip0(NatText(m)), |NatText(m)|)
  }

  lemma PlainNumberValue(negative: bool, m: nat)
    requires 0 < m
    ensures Value(PlainNumber(negative, m)) == if negative then -(m as real) else m as real
  {
    PlainDigits(m);
    hide RStrip0, NatText, Decimal.Scaled;
  }

  lemma PlainNumberText(negative: bool, m: nat)
    requires 0 < m && |NatText(m)| <= 21
    ensures Format(PlainNumber(negative, m)) == (if negative then "-" else "") + NatText(m)
  {
    PlainDigits(m);
    PadDigits(RStrip0(NatText(m)), NatText(m));
    hide RStrip0, NatText, FormatDigits, Decimal.Scaled, Normal;
  }

  /** Whatever text denotes an integer below 10^21, it is printed as the plain decimal. */
  lemma IntegerPlain(negative: bool, l: Literal, m: nat)
    requires l.Valid() && l.Denotes() == m as real && 0 < m
    requires |NatText(m)| <= 21
    ensures FormatNumber(Finite(negative, l)) == Some((if negative then "-" else "") + NatText(m))
  {
    NumberOfExact(negative, l);
    PlainNumberValue(negative, m);
    PlainNumberText(negative, m);
    hide Literal.Denotes, NumberOf, NatText, PlainNumber, Format, Value;
    ValueInjective(NumberOf(negative, l), PlainNumber(negative, m));
  }

  lemma PadDigits(digits: string, text: string)
    requires digits != "" && |text| <= 21
    requires |digits| <= |text| && text == digits + Zeros(|text| - |digits|)
    ensures FormatDigits(digits, |text|) == text == "" + text
  {
  }

  /** The double of an integer up to 2^53 is printed by `repr` as its digits and `.0`. */
  lemma SafeIntegerPlain(negative: bool, m: nat)
    requires 0 < m <= 0x20_0000_0000_0000
    ensures var l := Literal(NatText(m), Some("0"), NoExponent);
            l.Valid() && FormatNumber(Finite(negative, l)) == Some((if negative then "-" else "") + NatText(m))
  {
    var l := Literal(NatText(m), Some("0"), NoExponent);
    ScaleOne(m);
    ScaleZero(-1);
    assert NatOf("0") == 0;
    assert PowNat(16) == 10_000_000_000_000_000 by {
      assert PowNat(4) == 10_000;
      PowNatAdd(4, 4);
      PowNatAdd(8, 8);
    }
    NatTextLength(m, 16);
    IntegerPlain(negative, l, m);
  }

  lemma {:induction false} NatTextLength(m: nat, k: nat)
    requires m < PowNat(k) && k > 0
    ensures |NatText(m)| <= k
  {
    if m >= 10 {
      NatTextLength(m / 10, k - 1);
    }
  }
}
