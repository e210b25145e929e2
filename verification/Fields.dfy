/** JSON members as the verifier reads them: presence, declared types, integers. */
module Fields {
  import opened Wrappers
  import opened Decimal
  import opened Number
  import opened KeyMath
  import opened Jcs
  import opened Jws

  const PROTOCOL_VERSION := "aitp/0.3"

  // ----- integers -----

  /** `float.is_integer()`, and true of every `int`. */
  predicate IsInteger(n: JsonNumber) {
    n.Zero? || n.point >= |n.digits|
  }

  /** `int(n)`: truncation toward zero. */
  function Truncate(n: JsonNumber): int {
    match n
    case Zero => 0
    case Scaled(negative, digits, point) =>
      var m: int := Magnitude(digits, point);
      if negative then -m else m
  }

  /** The whole part of 0.d1..dk * 10^point. */
  function Magnitude(digits: string, point: int): nat {
    if point <= 0 then 0
    else if point >= |digits| then NatOf(digits + Zeros(point - |digits|))
    else NatOf(digits[..point])
  }

  lemma MagnitudeOfInteger(digits: string, point: int)
    requires Normal(digits) && point >= |digits|
    ensures Decimal.Scaled(digits, point - |digits|) == Magnitude(digits, point) as real
  {
    var k := point - |digits|;
    ScaledStrip(0, digits, k, 0);
    assert Zeros(0) + digits + Zeros(k) == digits + Zeros(k);
    ScaleOne(NatOf(digits + Zeros(k)));
  }

  lemma ScaleBelow(n: nat, k: nat, e: int)
    requires n < PowNat(k)
    ensures Scale(n, e) < Scale(1, e + k)
  {
    ScaleAdd(n, PowNat(k) - n, e);
    ScaleShift(1, k, e);
    assert 1 * PowNat(k) == PowNat(k);
    hide Scale, PowNat;
  }

  lemma {:induction false} ScaleSmall(e: int)
    requires e <= 0
    ensures Scale(1, e) <= 1.0
    decreases -e
  {
    if e < 0 {
      ScaleSmall(e + 1);
    }
  }

  lemma MagnitudeTruncates(digits: string, point: int)
    requires Normal(digits)
    ensures Magnitude(digits, point) as real <= Decimal.Scaled(digits, point - |digits|)
    ensures Decimal.Scaled(digits, point - |digits|) < Magnitude(digits, point) as real + 1.0
  {
    hide Scale, NatOf, PowNat;
    if point >= |digits| {
      MagnitudeOfInteger(digits, point);
    } else if point <= 0 {
      NatOfBounds(digits);
      ScaleBelow(NatOf(digits), |digits|, point - |digits|);
      ScaleSmall(point);
    } else {
      var a, b := digits[..point], digits[point..];
      NatOfConcat(a, b);
      assert a + b == digits;
      NatOfBounds(b);
      ScaleAdd(NatOf(a) * PowNat(|b|), NatOf(b), -|b|);
      ScaleShift(NatOf(a), |b|, -|b|);
      ScaleOne(NatOf(a));
      ScaleBelow(NatOf(b), |b|, -|b|);
      ScaleSmall(0);
    }
  }

  lemma FractionIsNotInteger(digits: string, point: int, m: nat)
    requires Normal(digits) && point < |digits|
    ensures Decimal.Scaled(digits, point - |digits|) != m as real
  {
    hide Scale, NatOf, PowNat;
    var k := |digits| - point;
    if Decimal.Scaled(digits, -k) == m as real {
      ScaleOne(m);
      ScaleShift(m, k, -k);
      ScaleInjective(NatOf(digits), m * PowNat(k), -k);
      PowNatUnfold(k);
      Associate(m, 10, PowNat(k - 1));
      Associate(10, m, PowNat(k - 1));
      NotDivisible(digits, m * PowNat(k - 1));
    }
  }

  /** `IsInteger` and `Truncate` in terms of the number's value. */
  lemma IntegerMeaning(n: JsonNumber)
    ensures IsInteger(n) <==> Value(n) == Truncate(n) as real
    ensures var v := if Value(n) < 0.0 then -Value(n) else Value(n);
            var t := if Truncate(n) < 0 then -Truncate(n) else Truncate(n);
            t as real <= v < t as real + 1.0
    ensures Truncate(n) > 0 ==> Value(n) > 0.0
    ensures Truncate(n) < 0 ==> Value(n) < 0.0
  {
    match n
    case Zero =>
    case Scaled(negative, digits, point) =>
      hide Magnitude;
      NormalPositive(digits, point - |digits|);
      MagnitudeTruncates(digits, point);
      if point >= |digits| {
        MagnitudeOfInteger(digits, point);
      } else {
        FractionIsNotInteger(digits, point, Magnitude(digits, point));
      }
  }

  /** An `int` as a JSON number. */
  function JsonInt(n: int): Json {
    Num(if n == 0 then Zero else PlainNumber(n < 0, if n < 0 then -n else n))
  }

  lemma JsonIntValue(n: int)
    ensures JsonInt(n).Num? && IsInteger(JsonInt(n).n) && Truncate(JsonInt(n).n) == n
  {
    if n != 0 {
      PlainNumberValue(n < 0, if n < 0 then -n else n);
      hide PlainNumber, Value, Truncate, IsInteger;
      IntegerMeaning(JsonInt(n).n);
    }
  }

  /** `int(v)` on any JSON value, as `TypeError` or `ValueError` or an integer. */
  function PyInt(suite: Suite, v: Json): (r: Outcome<int>)
    ensures !r.Err?
  {
    match v
    case Bool(b) => Ok(if b then 1 else 0)
    case Num(n) => Ok(Truncate(n))
    case Str(s) =>
      (match suite.parseInt(s)
       case None => Crash("ValueError")
       case Some(i) => Ok(i))
    case _ => Crash("TypeError")
  }

  /** The integer that a policy bound of any type stands for: a number loses its fraction, toward zero. */
  lemma PyIntMeaning(suite: Suite, v: Json, n: int)
    ensures PyInt(suite, v) == Ok(n) <==>
            || (v == Bool(false) && n == 0) || (v == Bool(true) && n == 1)
            || (v.Str? && suite.parseInt(v.s) == Some(n))
            || (v.Num? && Value(v.n) >= 0.0 && n == Value(v.n).Floor)
            || (v.Num? && Value(v.n) <= 0.0 && -n == (-Value(v.n)).Floor)
  {
    if v.Num? {
      hide Value, Truncate, IsInteger;
      IntegerMeaning(v.n);
    }
  }

  // ----- members -----

  datatype Kind = Text | Integer | List | Dict

  predicate HasKind(v: Json, kind: Kind) {
    match kind
    case Text => v.Str?
    case Integer => v.Num? && IsInteger(v.n)
    case List => v.Arr?
    case Dict => v.Obj?
  }

  /** `require_members` and `check_types`, which raise the same code. */
  predicate WellTyped(obj: Claims, required: set<string>, kinds: map<string, Kind>) {
    required <= obj.Keys && forall k <- kinds :: k in obj ==> HasKind(obj[k], kinds[k])
  }

  predicate AllStrings(items: seq<Json>) {
    forall v <- items :: v.Str?
  }

  function Strings(items: seq<Json>): (ss: seq<string>)
    requires AllStrings(items)
  {
    seq(|items|, i requires 0 <= i < |items| => items[i].s)
  }

  /** `reject_unknown_fields` on an object. */
  function KnownOnly(obj: Claims, allowed: set<string>): Outcome<()> {
    Need(obj.Keys <= allowed, "UNKNOWN_FIELD")
  }

  /** `str(v)` as an AID text: what is not a string never reads as an AID. */
  function TextOf(v: Json): string {
    if v.Str? then v.s else ""
  }

  /** The integer of a member already known to be one. */
  function IntOf(v: Json): int
    requires HasKind(v, Integer)
  {
    Truncate(v.n)
  }

  // ----- the same, said of the JSON itself -----

  /** A list of exactly these strings. */
  ghost predicate IsTexts(v: Json, ss: seq<string>) {
    v.Arr? && |v.items| == |ss| && forall i | 0 <= i < |ss| :: v.items[i] == Str(ss[i])
  }

  /** A number whose value is this integer. */
  ghost predicate IsInt(v: Json, n: int) {
    v.Num? && Value(v.n) == n as real
  }

  /** A number whose value is some integer. */
  ghost predicate IsWhole(v: Json) {
    v.Num? && Value(v.n) == Value(v.n).Floor as real
  }

  lemma TextsMeaning(v: Json, ss: seq<string>)
    ensures v.Arr? && AllStrings(v.items) && Strings(v.items) == ss <==> IsTexts(v, ss)
  {
    if v.Arr? && AllStrings(v.items) && Strings(v.items) == ss {
      forall i | 0 <= i < |ss| ensures v.items[i] == Str(ss[i]) {
        assert v.items[i] in v.items && ss[i] == v.items[i].s;
      }
    }
    if IsTexts(v, ss) {
      forall x | x in v.items ensures x.Str? {
        var i :| 0 <= i < |v.items| && v.items[i] == x;
      }
      assert Strings(v.items) == ss;
    }
  }

  lemma IntMeaning(v: Json, n: int)
    ensures HasKind(v, Integer) && IntOf(v) == n <==> IsInt(v, n)
    ensures HasKind(v, Integer) <==> IsWhole(v)
  {
    if v.Num? {
      hide Value, Truncate, IsInteger;
      IntegerMeaning(v.n);
      SameInteger(Value(v.n), Truncate(v.n), n);
    }
  }

  lemma ZeroMeaning(n: JsonNumber)
    ensures n.Zero? <==> IsInt(Num(n), 0)
  {
    if n.Scaled? {
      NormalPositive(n.digits, n.point - |n.digits|);
    }
  }

  lemma SameInteger(v: real, t: int, n: int)
    requires var a := if v < 0.0 then -v else v;
             var b := if t < 0 then -t else t;
             b as real <= a < b as real + 1.0
    requires (t > 0 ==> v > 0.0) && (t < 0 ==> v < 0.0)
    ensures v == n as real ==> t == n
    ensures v == t as real <==> v == v.Floor as real
  {
    if v == v.Floor as real {
      WholeTruncates(v, t, v.Floor);
    }
    if v == n as real {
      WholeTruncates(v, t, n);
    }
  }

  lemma WholeTruncates(v: real, t: int, n: int)
    requires var a := if v < 0.0 then -v else v;
             var b := if t < 0 then -t else t;
             b as real <= a < b as real + 1.0
    requires (t > 0 ==> v > 0.0) && (t < 0 ==> v < 0.0) && v == n as real
    ensures t == n
  {
  }
}
