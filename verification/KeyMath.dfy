/** The signature and key arithmetic of `crypto.py`; curve and RSA operations are parameters. */
module KeyMath {
  import opened Wrappers
  import opened Bytes

  /** The library operations the verifier calls, any functions whatever. */
  datatype Suite = Suite(
    parseInt: string -> Option<int>,
    sha256: bytes -> bytes,
    p256Point: bytes -> bool,
    p256Coordinates: bytes -> (bytes, bytes),
    p256Affine: (bytes, bytes) -> bool,
    rsaKey: (nat, nat) -> bool,
    ed25519Verify: (bytes, bytes, bytes) -> bool,
    ecdsaVerify: (bytes, bytes, nat, nat) -> bool,
    ecdsaVerifyDigest: (bytes, bytes, nat, nat) -> bool)

  // ----- P-256 signatures in their raw form -----

  /** The order of the P-256 group. */
  const P256_N: nat := 0xFFFFFFFF00000000FFFFFFFFFFFFFFFFBCE6FAADA7179E84F3B9CAC2FC632551

  predicate InRange(x: nat) { 0 < x < P256_N }

  function Raw(r: nat, s: nat): (sig: bytes)
    ensures |sig| == 64
  {
    ToBytes(r, 32) + ToBytes(s, 32)
  }

  /** `_p256_raw_to_der`, up to the DER encoding; `None` is its `ValueError`. */
  function RawToDer(sig: bytes, allowHighS: bool): Option<(nat, nat)> {
    if |sig| != 64 then None
    else
      var r, s := FromBytes(sig[..32]), FromBytes(sig[32..]);
      if !(InRange(r) && InRange(s)) then None
      else if s > P256_N / 2 && !allowHighS then None
      else Some((r, s))
  }

  /** `_p256_der_to_raw` on a decoded signature. */
  function DerToRaw(r: nat, s: nat): (sig: bytes)
    requires InRange(r) && InRange(s)
    ensures |sig| == 64
  {
    var low := if s > P256_N / 2 then P256_N - s else s;
    Raw(r, low)
  }

  lemma {:induction false} Pow256Add(a: nat, b: nat)
    ensures Pow256(a + b) == Pow256(a) * Pow256(b)
  {
    if b > 0 {
      Pow256Add(a, b - 1);
      Times256(Pow256(a), Pow256(b - 1));
    }
  }

  lemma Times256(a: nat, b: nat)
    ensures 256 * (a * b) == a * (256 * b)
  {
  }

  lemma OrderFits()
    ensures P256_N < Pow256(32)
  {
    assert Pow256(4) == 0x1_0000_0000;
    Pow256Add(4, 4);
    Pow256Add(8, 8);
    Pow256Add(16, 16);
  }

  lemma RawParts(r: nat, s: nat)
    requires r < P256_N && s < P256_N
    ensures FromBytes(Raw(r, s)[..32]) == r && FromBytes(Raw(r, s)[32..]) == s
  {
    OrderFits();
    FromToBytes(r, 32);
    FromToBytes(s, 32);
    CutTail(ToBytes(r, 32), ToBytes(s, 32));
  }

  /**
   * A signature and its twin (r, n - s) differ, and the strict check takes exactly one of them;
   * the lax check takes both, and neither takes an r or s that is 0 or at least n.
   */
  lemma LowSExactlyOne(r: nat, s: nat)
    requires InRange(r) && InRange(s)
    ensures RawToDer(Raw(r, s), false).Some? <==> RawToDer(Raw(r, P256_N - s), false).None?
    ensures RawToDer(Raw(r, s), true) == Some((r, s))
    ensures RawToDer(Raw(r, P256_N - s), true) == Some((r, P256_N - s))
  {
    RawParts(r, s);
    RawParts(r, P256_N - s);
  }

  /** What the conversion accepts, and as what: two numbers in range in 32 bytes each, low-S unless lax. */
  lemma RawMeaning(sig: bytes, allowHighS: bool, r: nat, s: nat)
    ensures RawToDer(sig, allowHighS) == Some((r, s)) <==>
            InRange(r) && InRange(s) && sig == Raw(r, s) && (allowHighS || 2 * s <= P256_N)
  {
    hide Raw, FromBytes, ToBytes;
    if InRange(r) && InRange(s) {
      RawParts(r, s);
    }
    if RawToDer(sig, allowHighS).Some? {
      RangeEnforced(sig, allowHighS);
    }
  }

  lemma RangeEnforced(sig: bytes, allowHighS: bool)
    requires RawToDer(sig, allowHighS).Some?
    ensures var (r, s) := RawToDer(sig, allowHighS).value;
            InRange(r) && InRange(s) && sig == Raw(r, s) && (allowHighS || 2 * s <= P256_N)
  {
    ToFromBytes(sig[..32]);
    ToFromBytes(sig[32..]);
    GlueTail(sig, 32);
  }

  /** The normaliser's output passes the strict check, as (r, min(s, n - s)), and is a fixed point. */
  lemma NormalisedIsStrict(r: nat, s: nat)
    requires InRange(r) && InRange(s)
    ensures var low := if s <= P256_N - s then s else P256_N - s;
            && RawToDer(DerToRaw(r, s), false) == Some((r, low))
            && DerToRaw(r, low) == DerToRaw(r, s) == DerToRaw(r, P256_N - s)
  {
    var low := if s <= P256_N - s then s else P256_N - s;
    RawParts(r, low);
  }

  // ----- RSA numbers -----

  const MIN_RSA_MODULUS_BITS: nat := 2048
  const MAX_RSA_MODULUS_BITS: nat := 8192
  const MAX_RSA_EXPONENT_BITS: nat := 33

  /** `int.bit_length`. */
  function BitLength(n: nat): nat {
    if n == 0 then 0 else 1 + BitLength(n / 2)
  }

  function Pow2(k: nat): (p: nat)
    ensures p > 0
  {
    if k == 0 then 1 else 2 * Pow2(k - 1)
  }

  /** The bound checks of `from_rsa_numbers`, before the library builds the key. */
  function FromRsaNumbers(n: bytes, e: bytes): Option<(nat, nat)> {
    var modulus, exponent := FromBytes(n), FromBytes(e);
    if !(MIN_RSA_MODULUS_BITS <= BitLength(modulus) <= MAX_RSA_MODULUS_BITS) then None
    else if |n| > 1 && n[0] == 0 then None
    else if BitLength(exponent) > MAX_RSA_EXPONENT_BITS then None
    else if |e| > 1 && e[0] == 0 then None
    else Some((modulus, exponent))
  }

  lemma {:induction false} BitLengthBound(n: nat, k: nat)
    ensures BitLength(n) > k <==> n >= Pow2(k)
  {
    if n > 0 && k > 0 {
      BitLengthBound(n / 2, k - 1);
    }
  }

  lemma Pow2Eight(m: nat)
    ensures Pow2(m + 8) == 256 * Pow2(m)
  {
    assert Pow2(m + 2) == 4 * Pow2(m);
    assert Pow2(m + 4) == 4 * Pow2(m + 2);
    assert Pow2(m + 6) == 4 * Pow2(m + 4);
  }

  lemma {:induction false} Pow256IsPow2(k: nat)
    ensures Pow256(k) == Pow2(8 * k)
  {
    if k > 0 {
      Pow256IsPow2(k - 1);
      Pow2Eight(8 * (k - 1));
    }
  }

  /** A value of `bits` significant bits takes exactly ceil(bits / 8) bytes without a leading zero. */
  lemma MinimalLength(b: bytes)
    requires b != [] && b[0] != 0
    ensures 8 * (|b| - 1) < BitLength(FromBytes(b)) <= 8 * |b|
  {
    FromBytesBound(b);
    FromBytesLower(b);
    Pow256IsPow2(|b|);
    Pow256IsPow2(|b| - 1);
    BitLengthBound(FromBytes(b), 8 * |b|);
    BitLengthBound(FromBytes(b), 8 * (|b| - 1));
  }

  /** Without leading zeros a byte string is determined by its number. */
  lemma MinimalUnique(a: bytes, b: bytes)
    requires a != [] && b != [] && a[0] != 0 && b[0] != 0
    requires FromBytes(a) == FromBytes(b)
    ensures a == b
  {
    MinimalLength(a);
    MinimalLength(b);
    ToFromBytes(a);
    ToFromBytes(b);
  }

  lemma NonzeroFirst(b: bytes)
    requires FromBytes(b) > 0 && !(|b| > 1 && b[0] == 0)
    ensures b != [] && b[0] != 0
  {
    if |b| == 1 {
      assert b[..0] == [];
    }
  }

  lemma FirstByteZero(b: bytes)
    requires |b| > 1 && b[0] == 0
    ensures exists c: bytes :: |c| == |b| - 1 && FromBytes(c) == FromBytes(b)
  {
    LeadingZero(b);
    assert |b[1..]| == |b| - 1;
  }

  lemma {:induction false} LeadingZero(b: bytes)
    requires b != [] && b[0] == 0
    ensures FromBytes(b[1..]) == FromBytes(b)
  {
    if |b| > 1 {
      LeadingZero(b[..|b| - 1]);
      assert b[..|b| - 1][1..] == b[1..][..|b| - 2];
    } else {
      assert b[..0] == [] && b[1..] == [];
    }
  }

  /** No byte string shorter than `b` has its number. */
  ghost predicate Minimal(b: bytes) {
    forall c: bytes :: FromBytes(c) == FromBytes(b) ==> |b| <= |c|
  }

  /** The leading-zero test is minimality, the one byte zero apart. */
  lemma MinimalMeaning(b: bytes)
    requires FromBytes(b) > 0
    ensures Minimal(b) <==> !(|b| > 1 && b[0] == 0)
  {
    hide FromBytes;
    if |b| > 1 && b[0] == 0 {
      FirstByteZero(b);
    } else {
      NonzeroFirst(b);
      forall c: bytes | FromBytes(c) == FromBytes(b) ensures |b| <= |c| {
        FromBytesLower(b);
        FromBytesBound(c);
        if |c| < |b| {
          Pow256Grows(|c|, |b| - 1);
        }
      }
    }
  }

  lemma {:induction false} Pow256Grows(a: nat, b: nat)
    requires a <= b
    ensures Pow256(a) <= Pow256(b)
  {
    if a < b {
      Pow256Grows(a, b - 1);
    }
  }

  /**
   * Exactly which byte strings pass the bound checks, for a positive exponent: a minimally encoded
   * modulus of 2048 to 8192 bits and a minimally encoded exponent of at most 33.
   */
  lemma RsaMeaning(n: bytes, e: bytes, modulus: nat, exponent: nat)
    requires FromBytes(e) > 0
    ensures FromRsaNumbers(n, e) == Some((modulus, exponent)) <==>
            && modulus == FromBytes(n) && exponent == FromBytes(e)
            && Pow2(2047) <= modulus < Pow2(8192) && exponent < Pow2(33)
            && Minimal(n) && Minimal(e)
  {
    hide Pow2, BitLength, FromBytes, Minimal;
    BitLengthBound(FromBytes(n), MIN_RSA_MODULUS_BITS - 1);
    BitLengthBound(FromBytes(n), MAX_RSA_MODULUS_BITS);
    BitLengthBound(FromBytes(e), MAX_RSA_EXPONENT_BITS);
    BitLengthZero();
    if FromBytes(n) > 0 {
      MinimalMeaning(n);
    }
    MinimalMeaning(e);
  }

  /**
   * What an accepted RSA key looks like: 2^2047 <= n < 2^8192 and e < 2^33, n in 256 to 1024
   * bytes and e in at most 5, and no other byte strings with these numbers are accepted.
   */
  lemma RsaBounds(n: bytes, e: bytes)
    requires FromRsaNumbers(n, e).Some? && FromBytes(e) > 0
    ensures Pow2(MIN_RSA_MODULUS_BITS - 1) <= FromBytes(n) < Pow2(MAX_RSA_MODULUS_BITS)
    ensures FromBytes(e) < Pow2(MAX_RSA_EXPONENT_BITS)
    ensures 256 <= |n| <= 1024 && 1 <= |e| <= 5
    ensures forall n': bytes, e': bytes ::
              FromRsaNumbers(n', e') == FromRsaNumbers(n, e) ==> n' == n && e' == e
  {
    hide Pow2, BitLength, FromBytes;
    BitLengthBound(FromBytes(n), MIN_RSA_MODULUS_BITS - 1);
    BitLengthBound(FromBytes(n), MAX_RSA_MODULUS_BITS);
    BitLengthBound(FromBytes(e), MAX_RSA_EXPONENT_BITS);
    BitLengthZero();
    NonzeroFirst(n);
    NonzeroFirst(e);
    MinimalLength(n);
    MinimalLength(e);
    forall n': bytes, e': bytes | FromRsaNumbers(n', e') == FromRsaNumbers(n, e)
      ensures n' == n && e' == e
    {
      NonzeroFirst(n');
      NonzeroFirst(e');
      MinimalUnique(n', n);
      MinimalUnique(e', e);
    }
  }

  lemma BitLengthZero()
    ensures BitLength(0) == 0
  {
  }

  /** The exponent zero is the one value with two accepted encodings here; the library refuses it. */
  lemma ZeroExponentTwice(n: bytes)
    requires FromRsaNumbers(n, []).Some?
    ensures FromRsaNumbers(n, [0]) == FromRsaNumbers(n, [])
  {
    assert FromBytes([0]) == 0 by {
      assert [0][..0] == [];
    }
  }
}
