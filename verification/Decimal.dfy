/** Decimal digit strings and their exact values. */
module Decimal {

  predicate IsDigit(c: char) { '0' <= c <= '9' }

  predicate AllDigits(s: string) { forall c <- s :: IsDigit(c) }

  function DigitOf(c: char): (d: nat)
    ensures d < 10
  {
    if IsDigit(c) then c as int - '0' as int else 0
  }

  function DigitChar(d: nat): (c: char)
    requires d < 10
    ensures IsDigit(c) && DigitOf(c) == d
  {
    ('0' as int + d) as char
  }

  /** `int(s)` of a digit string. */
  function NatOf(s: string): nat {
    if s == "" then 0 else NatOf(s[..|s| - 1]) * 10 + DigitOf(s[|s| - 1])
  }

  /** `str(n)`. */
  function NatText(n: nat): (s: string)
    ensures s != "" && AllDigits(s)
    ensures NatOf(s) == n
    ensures s[0] == '0' <==> n == 0
    ensures n < 10 ==> |s| == 1
  {
    if n < 10 then [DigitChar(n)]
    else
      var s := NatText(n / 10) + [DigitChar(n % 10)];
      assert s[..|s| - 1] == NatText(n / 10);
      s
  }

  function Zeros(n: nat): (s: string)
    ensures |s| == n && AllDigits(s)
  {
    seq(n, i => '0')
  }

  function PowNat(k: nat): (p: nat)
    ensures p > 0
  {
    if k == 0 then 1 else 10 * PowNat(k - 1)
  }

  lemma Associate(a: int, b: int, c: int)
    ensures a * b * c == a * (b * c) == a * (c * b)
  {
  }

  lemma {:induction false} PowNatAdd(a: nat, b: nat)
    ensures PowNat(a + b) == PowNat(a) * PowNat(b)
  {
    if b > 0 {
      PowNatAdd(a, b - 1);
    }
  }

  lemma PowNatUnfold(k: nat)
    ensures PowNat(k) == if k == 0 then 1 else 10 * PowNat(k - 1)
  {
  }

  lemma {:induction false} NatOfConcat(a: string, b: string)
    ensures NatOf(a + b) == NatOf(a) * PowNat(|b|) + NatOf(b)
  {
    if b == "" {
      assert a + b == a;
    } else {
      var b' := b[..|b| - 1];
      hide PowNat;
      NatOfConcat(a, b');
      PowNatUnfold(|b|);
      assert (a + b)[..|a + b| - 1] == a + b';
      Associate(NatOf(a), PowNat(|b'|), 10);
    }
  }

  lemma {:induction false} NatOfZeros(n: nat)
    ensures NatOf(Zeros(n)) == 0
  {
    if n > 0 {
      NatOfZeros(n - 1);
      assert Zeros(n)[..n - 1] == Zeros(n - 1);
    }
  }

  lemma {:induction false} NatOfBounds(s: string)
    requires AllDigits(s)
    ensures NatOf(s) < PowNat(|s|)
    ensures s != "" && s[0] != '0' ==> PowNat(|s| - 1) <= NatOf(s)
  {
    if s != "" {
      NatOfBounds(s[..|s| - 1]);
    }
  }

  /** At one length, digit strings and numbers correspond one to one. */
  lemma {:induction false} NatOfInjective(a: string, b: string)
    requires AllDigits(a) && AllDigits(b) && |a| == |b| && NatOf(a) == NatOf(b)
    ensures a == b
  {
    if a != "" {
      var n := |a| - 1;
      assert NatOf(a) / 10 == NatOf(a[..n]) && NatOf(a) % 10 == DigitOf(a[n]);
      assert NatOf(b) / 10 == NatOf(b[..n]) && NatOf(b) % 10 == DigitOf(b[n]);
      NatOfInjective(a[..n], b[..n]);
      assert a[n] == b[n];
      assert a == a[..n] + [a[n]] && b == b[..n] + [b[n]];
    }
  }

  lemma Longer(a: string, b: string)
    requires AllDigits(a) && AllDigits(b) && |a| < |b| && b[0] != '0'
    ensures NatOf(a) < NatOf(b)
  {
    NatOfBounds(a);
    NatOfBounds(b);
    var k := |b| - 1 - |a|;
    PowNatAdd(|a|, k);
    AtLeast(PowNat(|a|), PowNat(k));
  }

  lemma AtLeast(a: nat, b: nat)
    requires b > 0
    ensures a * b >= a
  {
  }

  /** Digit strings without a leading zero are determined by their number. */
  lemma NatOfCanonical(a: string, b: string)
    requires AllDigits(a) && AllDigits(b) && a != "" && b != ""
    requires a[0] != '0' && b[0] != '0' && NatOf(a) == NatOf(b)
    ensures a == b
  {
    if |a| < |b| {
      Longer(a, b);
    } else if |b| < |a| {
      Longer(b, a);
    } else {
      NatOfInjective(a, b);
    }
  }

  // ----- exact values -----

  /** The number n * 10^e. */
  function Scale(n: nat, e: int): (v: real)
    ensures v >= 0.0 && (n > 0 ==> v > 0.0)
    decreases if e < 0 then -e else e
  {
    if e == 0 then n as real else if e > 0 then 10.0 * Scale(n, e - 1) else 0.1 * Scale(n, e + 1)
  }

  lemma {:induction false} ScaleZero(e: int)
    ensures Scale(0, e) == 0.0
    decreases if e < 0 then -e else e
  {
    if e != 0 {
      ScaleZero(if e > 0 then e - 1 else e + 1);
    }
  }

  lemma ScaleOne(n: nat)
    ensures Scale(n, 0) == n as real
  {
  }

  lemma ScaleStep(n: nat, e: int)
    ensures Scale(n, e + 1) == 10.0 * Scale(n, e)
  {
  }

  lemma {:induction false} ScaleTen(n: nat, e: int)
    ensures Scale(10 * n, e) == Scale(n, e + 1)
    decreases if e < 0 then -e else e
  {
    if e > 0 {
      ScaleTen(n, e - 1);
    } else if e < 0 {
      ScaleTen(n, e + 1);
      ScaleStep(n, e + 1);
    }
  }

  lemma {:induction false} ScaleShift(n: nat, k: nat, e: int)
    ensures Scale(n * PowNat(k), e) == Scale(n, e + k)
  {
    if k > 0 {
      ScaleShift(n, k - 1, e + 1);
      ScaleTen(n * PowNat(k - 1), e);
      Associate(n, 10, PowNat(k - 1));
      Associate(10, n, PowNat(k - 1));
    }
  }

  lemma {:induction false} ScaleAdd(a: nat, b: nat, e: int)
    ensures Scale(a + b, e) == Scale(a, e) + Scale(b, e)
    decreases if e < 0 then -e else e
  {
    if e != 0 {
      ScaleAdd(a, b, if e > 0 then e - 1 else e + 1);
    }
  }

  lemma {:induction false} ScaleInjective(a: nat, b: nat, e: int)
    requires Scale(a, e) == Scale(b, e)
    ensures a == b
    decreases if e < 0 then -e else e
  {
    if e != 0 {
      ScaleInjective(a, b, if e > 0 then e - 1 else e + 1);
    }
  }

  /** The number `digits * 10^e`. */
  function Scaled(digits: string, e: int): real {
    Scale(NatOf(digits), e)
  }

  /** Trailing zeros move into the exponent, leading zeros vanish. */
  lemma ScaledStrip(lead: nat, digits: string, trail: nat, e: int)
    ensures Scaled(Zeros(lead) + digits + Zeros(trail), e) == Scaled(digits, e + trail)
  {
    NatOfZeros(lead);
    NatOfZeros(trail);
    NatOfConcat(Zeros(lead), digits);
    NatOfConcat(Zeros(lead) + digits, Zeros(trail));
    ScaleShift(NatOf(digits), trail, e);
  }

  predicate Normal(digits: string) {
    digits != "" && AllDigits(digits) && digits[0] != '0' && digits[|digits| - 1] != '0'
  }

  lemma NotDivisible(digits: string, n: nat)
    requires Normal(digits)
    ensures NatOf(digits) != 10 * n
  {
    var front, last := NatOf(digits[..|digits| - 1]), DigitOf(digits[|digits| - 1]);
    assert NatOf(digits) == front * 10 + last;
    assert digits[|digits| - 1] in digits;
    LastDigit(front, last, n);
  }

  lemma LastDigit(front: nat, last: nat, n: nat)
    requires 0 < last < 10
    ensures front * 10 + last != 10 * n
  {
  }

  lemma NormalUniqueOrdered(a: string, d: int, b: string, e: int)
    requires Normal(a) && Normal(b) && d <= e
    requires Scaled(a, d) == Scaled(b, e)
    ensures a == b && d == e
  {
    hide Scale, NatOf, PowNat;
    var k := e - d;
    ScaleShift(NatOf(b), k, d);
    ScaleInjective(NatOf(a), NatOf(b) * PowNat(k), d);
    PowNatUnfold(k);
    if k > 0 {
      Associate(10, NatOf(b), PowNat(k - 1));
      NotDivisible(a, NatOf(b) * PowNat(k - 1));
    } else {
      NatOfCanonical(a, b);
    }
  }

  /** A nonzero decimal has one form without leading and trailing zeros. */
  lemma NormalUnique(a: string, d: int, b: string, e: int)
    requires Normal(a) && Normal(b)
    requires Scaled(a, d) == Scaled(b, e)
    ensures a == b && d == e
  {
    if d <= e {
      NormalUniqueOrdered(a, d, b, e);
    } else {
      NormalUniqueOrdered(b, e, a, d);
    }
  }

  lemma NormalPositive(digits: string, e: int)
    requires Normal(digits)
    ensures Scaled(digits, e) > 0.0
  {
    NatOfBounds(digits);
  }
}
