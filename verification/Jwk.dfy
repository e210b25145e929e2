/** One candidate issuer key: a JWK object or a legacy config string (RFC 7517, RFC 7518). */
module Jwk {
  import opened Wrappers
  import opened Bytes
  import opened KeyMath
  import opened PyHeap
  import Base64Url

  const MAX_B64_MEMBER_CHARS := 8192

  datatype Material = Okp(raw: bytes) | Point(bytes, bytes) | CompressedPoint(raw: bytes) | Rsa(n: nat, e: nat)

  /** The algorithm follows from the material, never from a declared `alg`. */
  datatype IssuerKey = IssuerKey(kid: Option<string>, key: Material) {
    function JoseAlg(): string {
      match key
      case Okp(_) => "EdDSA"
      case Point(_, _) => "ES256"
      case CompressedPoint(_) => "ES256"
      case Rsa(_, _) => "RS256"
    }
  }

  /** The shapes of a dict's values. */
  type Fields = map<string, Shape>

  predicate IsText(fields: Fields, name: string, text: string) {
    name in fields && fields[name] == StrShape(text)
  }

  /** The text of a member that `decode_jwk_member` hands to the decoder. */
  function MemberText(fields: Fields, name: string): Option<string> {
    if name in fields && fields[name].StrShape? && |fields[name].s| <= MAX_B64_MEMBER_CHARS then Some(fields[name].s)
    else None
  }

  /** What parsing a candidate gives, and the texts it handed to the base64url decoder on the way. */
  datatype Work<+T> = Work(result: Option<T>, decoded: seq<string>)

  /** `decode_jwk_member`: the length is checked before the text is decoded. */
  function DecodeMember(fields: Fields, name: string): Work<bytes> {
    match MemberText(fields, name)
    case None => Work(None, [])
    case Some(text) => Work(Base64Url.Decode(text), [text])
  }

  /** `kid`: absent or `None` is none, a string is itself, anything else is refused. */
  function KidOf(fields: Fields): Option<Option<string>> {
    if "kid" !in fields then Some(None)
    else
      match fields["kid"]
      case NoneShape => Some(None)
      case StrShape(s) => Some(Some(s))
      case _ => None
  }

  /** Two members, the second decoded only when the first is. */
  function DecodePair(fields: Fields, a: string, b: string): Work<(bytes, bytes)> {
    var x := DecodeMember(fields, a);
    if x.result.None? then Work(None, x.decoded)
    else
      var y := DecodeMember(fields, b);
      Work(if y.result.Some? then Some((x.result.value, y.result.value)) else None, x.decoded + y.decoded)
  }

  function OkpKey(kid: Option<string>, x: Option<bytes>): Option<IssuerKey> {
    if x.Some? && |x.value| == 32 then Some(IssuerKey(kid, Okp(x.value))) else None
  }

  function EcKey(suite: Suite, kid: Option<string>, xy: Option<(bytes, bytes)>): Option<IssuerKey> {
    if xy.Some? && |xy.value.0| == |xy.value.1| == 32 && suite.p256Affine(xy.value.0, xy.value.1) then
      Some(IssuerKey(kid, Point(xy.value.0, xy.value.1)))
    else None
  }

  function RsaKey(suite: Suite, kid: Option<string>, ne: Option<(bytes, bytes)>): Option<IssuerKey> {
    if ne.None? then None
    else
      var (modulus, exponent) :- FromRsaNumbers(ne.value.0, ne.value.1);
      if suite.rsaKey(modulus, exponent) then Some(IssuerKey(kid, Rsa(modulus, exponent))) else None
  }

  /** `issuer_key_from_jwk` on a dict. Whether it succeeds or not, it decodes at most two bounded members. */
  function ReadJwk(suite: Suite, fields: Fields): (w: Work<IssuerKey>)
    ensures |w.decoded| <= 2
    ensures forall text <- w.decoded :: |text| <= MAX_B64_MEMBER_CHARS
    ensures forall text <- w.decoded :: exists name :: name in fields && fields[name] == StrShape(text)
  {
    var kid := KidOf(fields);
    if kid.None? then Work(None, [])
    else if IsText(fields, "kty", "OKP") then
      if !IsText(fields, "crv", "Ed25519") then Work(None, [])
      else
        var x := DecodeMember(fields, "x");
        Work(OkpKey(kid.value, x.result), x.decoded)
    else if IsText(fields, "kty", "EC") then
      if !IsText(fields, "crv", "P-256") then Work(None, [])
      else
        var xy := DecodePair(fields, "x", "y");
        Work(EcKey(suite, kid.value, xy.result), xy.decoded)
    else if IsText(fields, "kty", "RSA") then
      var ne := DecodePair(fields, "n", "e");
      Work(RsaKey(suite, kid.value, ne.result), ne.decoded)
    else Work(None, [])
  }

  /** `issuer_key_from_config`: the length is checked before the text is decoded. */
  function ReadConfig(suite: Suite, text: string): Work<IssuerKey> {
    if |text| == 43 then
      var raw := Base64Url.Decode(text);
      Work(OkpKey(None, raw), [text])
    else if |text| == 44 then
      var raw := Base64Url.Decode(text);
      var key := if raw.Some? && |raw.value| == 33 && suite.p256Point(raw.value) then
                   Some(IssuerKey(None, CompressedPoint(raw.value)))
                 else None;
      Work(key, [text])
    else Work(None, [])
  }

  // ----- what one candidate costs -----

  lemma {:induction false} ConcatBound(texts: seq<string>, most: nat)
    requires forall text <- texts :: |text| <= most
    ensures |Concat(texts)| <= |texts| * most
  {
    if texts != [] {
      ConcatBound(texts[1..], most);
      assert |texts| * most == most + |texts[1..]| * most;
    }
  }

  /** One candidate costs at most 2 * 8192 decoded characters, whether it parses or not. */
  lemma CandidateCost(suite: Suite, fields: Fields, text: string)
    ensures |Concat(ReadJwk(suite, fields).decoded)| <= 2 * 8192
    ensures |Concat(ReadConfig(suite, text).decoded)| <= 2 * 8192
  {
    hide ReadJwk, Base64Url.Decode;
    var texts := ReadJwk(suite, fields).decoded;
    ConcatBound(texts, 8192);
    assert |texts| * 8192 <= 2 * 8192;
    ConcatBound(ReadConfig(suite, text).decoded, 44);
  }

  // ----- what a candidate stands for -----

  /** The JWK's `kid`: none if it is absent or `None`, otherwise its text. */
  ghost predicate HasKid(fields: Fields, kid: Option<string>) {
    if kid.Some? then "kid" in fields && fields["kid"] == StrShape(kid.value)
    else "kid" !in fields || fields["kid"] == NoneShape
  }

  /** The member is a text of at most 8192 characters that decodes to these bytes. */
  ghost predicate HasBytes(fields: Fields, name: string, data: bytes) {
    && name in fields && fields[name].StrShape? && |fields[name].s| <= 8192
    && Base64Url.Decode(fields[name].s) == Some(data)
  }

  lemma BytesMeaning(fields: Fields, name: string, data: bytes)
    ensures DecodeMember(fields, name).result == Some(data) <==> HasBytes(fields, name, data)
    ensures HasBytes(fields, name, data) ==> DecodeMember(fields, name).decoded == [fields[name].s]
  {
    hide Base64Url.Decode;
  }

  lemma KidMeaning(fields: Fields, kid: Option<string>)
    ensures KidOf(fields) == Some(kid) <==> HasKid(fields, kid)
  {
  }

  /** Structure and members of a JWK for this key, the library's own checks included. */
  ghost predicate Describes(suite: Suite, fields: Fields, key: Material) {
    match key
    case Okp(x) =>
      IsText(fields, "kty", "OKP") && IsText(fields, "crv", "Ed25519") && HasBytes(fields, "x", x) && |x| == 32
    case Point(x, y) =>
      && IsText(fields, "kty", "EC") && IsText(fields, "crv", "P-256")
      && HasBytes(fields, "x", x) && HasBytes(fields, "y", y) && |x| == 32 && |y| == 32 && suite.p256Affine(x, y)
    case CompressedPoint(_) => false
    case Rsa(n, e) =>
      && IsText(fields, "kty", "RSA") && suite.rsaKey(n, e)
      && exists nBytes, eBytes ::
           HasBytes(fields, "n", nBytes) && HasBytes(fields, "e", eBytes) && FromRsaNumbers(nBytes, eBytes) == Some((n, e))
  }

  lemma PairMeaning(fields: Fields, a: string, b: string, x: bytes, y: bytes)
    ensures DecodePair(fields, a, b).result == Some((x, y)) <==> HasBytes(fields, a, x) && HasBytes(fields, b, y)
  {
    hide DecodeMember, HasBytes;
    var p, q := DecodeMember(fields, a).result, DecodeMember(fields, b).result;
    BytesMeaning(fields, a, x);
    BytesMeaning(fields, b, y);
    if p.Some? {
      BytesMeaning(fields, a, p.value);
    }
    if q.Some? {
      BytesMeaning(fields, b, q.value);
    }
  }

  lemma OkpMeaning(suite: Suite, fields: Fields, key: IssuerKey, x: bytes)
    requires key.key == Okp(x)
    ensures ReadJwk(suite, fields).result == Some(key) <==>
            KidOf(fields) == Some(key.kid) && Describes(suite, fields, key.key)
  {
    hide DecodeMember, DecodePair, HasBytes, KidOf, IsText, FromRsaNumbers;
    BytesMeaning(fields, "x", x);
    var r := DecodeMember(fields, "x").result;
    if r.Some? {
      BytesMeaning(fields, "x", r.value);
    }
    KtyOnce(fields);
  }

  lemma PointMeaning(suite: Suite, fields: Fields, key: IssuerKey, x: bytes, y: bytes)
    requires key.key == Point(x, y)
    ensures ReadJwk(suite, fields).result == Some(key) <==>
            KidOf(fields) == Some(key.kid) && Describes(suite, fields, key.key)
  {
    hide DecodeMember, DecodePair, HasBytes, KidOf, IsText, FromRsaNumbers;
    PairMeaning(fields, "x", "y", x, y);
    KtyOnce(fields);
  }

  lemma RsaStep(suite: Suite, kid: Option<string>, a: bytes, b: bytes, n: nat, e: nat)
    ensures RsaKey(suite, kid, Some((a, b))) == Some(IssuerKey(kid, Rsa(n, e))) <==>
            FromRsaNumbers(a, b) == Some((n, e)) && suite.rsaKey(n, e)
    ensures forall key :: RsaKey(suite, kid, Some((a, b))) == Some(key) ==> key.kid == kid
    ensures RsaKey(suite, kid, None) == None
  {
    hide FromRsaNumbers;
    var r := FromRsaNumbers(a, b);
    if r.Some? {
      var (m, x) := r.value;
      assert r == Some((m, x));
    }
  }

  lemma RsaKeyMeaning(suite: Suite, fields: Fields, key: IssuerKey, n: nat, e: nat)
    requires key.key == Rsa(n, e)
    ensures ReadJwk(suite, fields).result == Some(key) <==>
            KidOf(fields) == Some(key.kid) && Describes(suite, fields, key.key)
  {
    hide DecodeMember, DecodePair, HasBytes, KidOf, IsText, FromRsaNumbers;
    var r := DecodePair(fields, "n", "e").result;
    if r.Some? {
      PairMeaning(fields, "n", "e", r.value.0, r.value.1);
      RsaStep(suite, key.kid, r.value.0, r.value.1, n, e);
      assert r == Some((r.value.0, r.value.1));
    }
    hide RsaKey;
    forall a, b | HasBytes(fields, "n", a) && HasBytes(fields, "e", b) ensures r == Some((a, b)) {
      PairMeaning(fields, "n", "e", a, b);
    }
    KtyOnce(fields);
  }

  lemma NeverCompressed(suite: Suite, fields: Fields)
    ensures ReadJwk(suite, fields).result.Some? ==> !ReadJwk(suite, fields).result.value.key.CompressedPoint?
  {
    hide DecodeMember, DecodePair, KidOf, IsText, FromRsaNumbers;
  }

  lemma DescribesCompressed(suite: Suite, fields: Fields, key: Material)
    ensures key.CompressedPoint? ==> !Describes(suite, fields, key)
  {
  }

  /** A JWK has one `kty`. */
  lemma KtyOnce(fields: Fields)
    ensures !(IsText(fields, "kty", "OKP") && IsText(fields, "kty", "EC"))
    ensures !(IsText(fields, "kty", "OKP") && IsText(fields, "kty", "RSA"))
    ensures !(IsText(fields, "kty", "EC") && IsText(fields, "kty", "RSA"))
  {
    assert "OKP"[0] != "RSA"[0];
  }

  /** A JWK parses exactly to the key and the `kid` that its members describe. */
  lemma JwkMeaning(suite: Suite, fields: Fields, key: IssuerKey)
    ensures ReadJwk(suite, fields).result == Some(key) <==>
            HasKid(fields, key.kid) && Describes(suite, fields, key.key)
  {
    hide ReadJwk, Describes, HasKid, KidOf;
    KidMeaning(fields, key.kid);
    match key.key
    case Okp(x) =>
      OkpMeaning(suite, fields, key, x);
    case Point(x, y) =>
      PointMeaning(suite, fields, key, x, y);
    case CompressedPoint(_) =>
      NeverCompressed(suite, fields);
      DescribesCompressed(suite, fields, key.key);
    case Rsa(n, e) =>
      RsaKeyMeaning(suite, fields, key, n, e);
  }

  /** A config string parses exactly to the key of its length: 43 characters Ed25519, 44 P-256, never with a `kid`. */
  lemma ConfigMeaning(suite: Suite, text: string, key: IssuerKey)
    ensures ReadConfig(suite, text).result == Some(key) <==>
            && key.kid == None
            && match key.key
               case Okp(raw) => |text| == 43 && Base64Url.Decode(text) == Some(raw) && |raw| == 32
               case CompressedPoint(raw) =>
                 |text| == 44 && Base64Url.Decode(text) == Some(raw) && |raw| == 33 && suite.p256Point(raw)
               case _ => false
  {
    hide Base64Url.Decode;
  }

  /** The JOSE algorithm of a key is that of its structure. */
  lemma AlgMeaning(suite: Suite, fields: Fields)
    requires ReadJwk(suite, fields).result.Some?
    ensures var alg := ReadJwk(suite, fields).result.value.JoseAlg();
            && (alg == "EdDSA" <==> IsText(fields, "kty", "OKP"))
            && (alg == "ES256" <==> IsText(fields, "kty", "EC"))
            && (alg == "RS256" <==> IsText(fields, "kty", "RSA"))
  {
    hide DecodeMember, DecodePair, KidOf, IsText, FromRsaNumbers;
    KtyOnce(fields);
    assert "EdDSA"[1] != "ES256"[1] && "EdDSA"[0] != "RS256"[0] && "ES256"[0] != "RS256"[0];
  }

  /**
   * An accepted RSA key, when the library refuses the exponent zero: 2^2047 <= n < 2^8192 in 256 to
   * 1024 bytes, e < 2^33 in at most 5, and no other byte strings give the same numbers.
   */
  lemma RsaJwk(suite: Suite, fields: Fields)
    requires forall n: nat :: !suite.rsaKey(n, 0)
    requires ReadJwk(suite, fields).result.Some? && ReadJwk(suite, fields).result.value.key.Rsa?
    ensures var key := ReadJwk(suite, fields).result.value.key;
            var n, e := DecodeMember(fields, "n").result, DecodeMember(fields, "e").result;
            && n.Some? && e.Some? && FromBytes(n.value) == key.n && FromBytes(e.value) == key.e
            && Pow2(2047) <= key.n < Pow2(8192) && 0 < key.e < Pow2(33)
            && 256 <= |n.value| <= 1024 && 1 <= |e.value| <= 5
            && forall n': bytes, e': bytes ::
                 FromRsaNumbers(n', e') == Some((key.n, key.e)) ==> n' == n.value && e' == e.value
  {
    hide Pow2, BitLength, FromBytes, DecodeMember;
    var n, e := DecodeMember(fields, "n").result.value, DecodeMember(fields, "e").result.value;
    assert FromRsaNumbers(n, e) == Some((FromBytes(n), FromBytes(e)));
    RsaBounds(n, e);
  }

  /** The algorithm comes from the structure alone: a declared `alg` changes neither the key nor the work. */
  lemma AlgIgnored(suite: Suite, fields: Fields, declared: Shape)
    ensures ReadJwk(suite, fields["alg" := declared]) == ReadJwk(suite, fields)
  {
    hide DecodeMember, FromRsaNumbers, IsText, KidOf, OkpKey, EcKey, RsaKey;
    MemberKept(fields, declared, "x", "");
    MemberKept(fields, declared, "y", "");
    MemberKept(fields, declared, "n", "");
    MemberKept(fields, declared, "e", "");
    MemberKept(fields, declared, "kid", "");
    MemberKept(fields, declared, "crv", "Ed25519");
    MemberKept(fields, declared, "crv", "P-256");
    MemberKept(fields, declared, "kty", "OKP");
    MemberKept(fields, declared, "kty", "EC");
    MemberKept(fields, declared, "kty", "RSA");
  }

  lemma MemberKept(fields: Fields, declared: Shape, name: string, text: string)
    requires name != "alg"
    ensures DecodeMember(fields["alg" := declared], name) == DecodeMember(fields, name)
    ensures IsText(fields["alg" := declared], name, text) == IsText(fields, name, text)
    ensures name == "kid" ==> KidOf(fields["alg" := declared]) == KidOf(fields)
  {
    hide Base64Url.Decode;
  }
}
