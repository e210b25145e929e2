/** Agent IDs (section 5.3 of RFC-AITP-0001), their keys, and tagged signature fields. */
module Aids {
  import opened Wrappers
  import opened Bytes
  import opened KeyMath
  import Base64Url
  import Utf8

  datatype Alg = Ed25519 | P256

  function AlgName(alg: Alg): string {
    match alg
    case Ed25519 => "ed25519"
    case P256 => "p256"
  }

  /** The one JOSE `alg` an AID's key verifies. */
  function JoseAlg(alg: Alg): string {
    match alg
    case Ed25519 => "EdDSA"
    case P256 => "ES256"
  }

  datatype Aid = Aid(text: string, alg: Alg, rawKey: bytes)

  const PREFIX := "aid:pubkey:"

  /** The algorithm an AID text names and its identifier part. */
  function AidParts(text: string): Option<(Alg, string)> {
    if !(PREFIX <= text) then None
    else
      var rest := text[|PREFIX|..];
      if "ed25519:" <= rest then Some((Ed25519, rest[8..]))
      else if "p256:" <= rest then Some((P256, rest[5..]))
      else Some((Ed25519, rest))
  }

  function IdentLength(alg: Alg): nat { if alg.Ed25519? then 43 else 44 }

  function KeyLength(alg: Alg): nat { if alg.Ed25519? then 32 else 33 }

  /** `PublicKey.from_raw`: the length check, then the library's own. */
  predicate KeyAccepted(suite: Suite, alg: Alg, raw: bytes) {
    |raw| == KeyLength(alg) && (alg.P256? ==> suite.p256Point(raw))
  }

  /** `parse_aid`; `None` is its `ValueError`. */
  function ParseAid(suite: Suite, text: string): Option<Aid> {
    var (alg, ident) :- AidParts(text);
    if |ident| != IdentLength(alg) then None
    else
      var raw :- Base64Url.Decode(ident);
      if KeyAccepted(suite, alg, raw) then Some(Aid(text, alg, raw)) else None
  }

  /** The length gate always yields a key of the right size: only the alphabet and the curve can object. */
  lemma AidGate(suite: Suite, text: string, alg: Alg, ident: string)
    requires AidParts(text) == Some((alg, ident)) && |ident| == IdentLength(alg)
    ensures Base64Url.Decode(ident).Some? <==> Base64Url.AllInAlphabet(ident)
    ensures Base64Url.Decode(ident).Some? ==> |Base64Url.Decode(ident).value| == KeyLength(alg)
    ensures ParseAid(suite, text).Some? <==>
            Base64Url.AllInAlphabet(ident)
            && (alg.P256? ==> suite.p256Point(Base64Url.Decode(ident).value))
  {
    Base64Url.DecodeDomain(ident);
  }

  /** The texts of an AID: the tagged form, or for Ed25519 also the bare one. */
  ghost predicate AidText(text: string, alg: Alg, ident: string) {
    || text == "aid:pubkey:" + AlgName(alg) + ":" + ident
    || (alg == Ed25519 && text == "aid:pubkey:" + ident)
  }

  lemma TaggedParts(alg: Alg, ident: string)
    ensures AidParts("aid:pubkey:" + AlgName(alg) + ":" + ident) == Some((alg, ident))
  {
    var head := AlgName(alg) + ":";
    assert "aid:pubkey:" + AlgName(alg) + ":" + ident == PREFIX + (head + ident);
    CutTail(PREFIX, head + ident);
    CutTail(head, ident);
    if alg == Ed25519 {
      assert head == "ed25519:";
    } else {
      assert head == "p256:" && (head + ident)[0] == 'p';
    }
  }

  lemma BareParts(ident: string)
    requires ':' !in ident
    ensures AidParts("aid:pubkey:" + ident) == Some((Ed25519, ident))
  {
    CutTail(PREFIX, ident);
    assert |ident| > 7 ==> ident[7] in ident;
    assert |ident| > 4 ==> ident[4] in ident;
  }

  lemma PartsText(text: string)
    requires AidParts(text).Some?
    ensures AidText(text, AidParts(text).value.0, AidParts(text).value.1)
  {
    var (alg, ident) := AidParts(text).value;
    var rest := text[|PREFIX|..];
    GlueTail(text, |PREFIX|);
    if "ed25519:" <= rest {
      GlueTail(rest, 8);
      Assoc("aid:pubkey:" + AlgName(alg), ":", ident);
      assert text == "aid:pubkey:" + (AlgName(alg) + ":" + ident);
    } else if "p256:" <= rest {
      GlueTail(rest, 5);
      assert text == "aid:pubkey:" + (AlgName(alg) + ":" + ident);
    }
  }

  lemma AidPartsMeaning(text: string, alg: Alg, ident: string)
    requires ':' !in ident
    ensures AidParts(text) == Some((alg, ident)) <==> AidText(text, alg, ident)
  {
    hide AidParts;
    if AidParts(text) == Some((alg, ident)) {
      PartsText(text);
    }
    TaggedParts(alg, ident);
    BareParts(ident);
  }

  /**
   * Which texts are AIDs, and what they stand for: the algorithm they name, or Ed25519 if they name
   * none, with a base64url key of 32 bytes, or of 33 bytes on the curve.
   */
  lemma AidMeaning(suite: Suite, text: string, aid: Aid)
    ensures ParseAid(suite, text) == Some(aid) <==>
            && aid.text == text
            && (exists ident :: AidText(text, aid.alg, ident) && Base64Url.Decode(ident) == Some(aid.rawKey)
                                && |ident| == if aid.alg == Ed25519 then 43 else 44)
            && |aid.rawKey| == (if aid.alg == Ed25519 then 32 else 33)
            && (aid.alg == P256 ==> suite.p256Point(aid.rawKey))
  {
    hide AidParts, AidText, Base64Url.Decode;
    if ParseAid(suite, text) == Some(aid) {
      var ident := AidParts(text).value.1;
      AlphabetOnly(ident);
      AidPartsMeaning(text, aid.alg, ident);
    }
    forall ident | AidText(text, aid.alg, ident) && Base64Url.Decode(ident) == Some(aid.rawKey)
      ensures AidParts(text) == Some((aid.alg, ident))
    {
      AlphabetOnly(ident);
      AidPartsMeaning(text, aid.alg, ident);
    }
  }

  lemma AlphabetOnly(ident: string)
    ensures Base64Url.Decode(ident).Some? ==> ':' !in ident && '.' !in ident
  {
    Base64Url.DecodeDomain(ident);
  }

  // ----- signatures -----

  /**
   * A JOSE signature verifies exactly when the library accepts it; for P-256 it must be two numbers in
   * range in 32 bytes each, with the low s unless it is an identity provider's token.
   */
  lemma JoseMeaning(suite: Suite, aid: Aid, input: bytes, sig: bytes, idpToken: bool)
    ensures aid.alg == Ed25519 ==>
              (VerifyJose(suite, aid, input, sig, idpToken) <==> suite.ed25519Verify(aid.rawKey, input, sig))
    ensures aid.alg == P256 ==>
              (VerifyJose(suite, aid, input, sig, idpToken) <==>
               exists r: nat, s: nat ::
                 && 0 < r < P256_N && 0 < s < P256_N && sig == Raw(r, s) && (idpToken || 2 * s <= P256_N)
                 && suite.ecdsaVerify(aid.rawKey, input, r, s))
  {
    hide RawToDer, Raw;
    forall r: nat, s: nat
      ensures RawToDer(sig, idpToken) == Some((r, s)) <==>
              0 < r < P256_N && 0 < s < P256_N && sig == Raw(r, s) && (idpToken || 2 * s <= P256_N)
    {
      RawMeaning(sig, idpToken, r, s);
    }
  }

  /** The digest profile, likewise; there the low s is always required. */
  lemma DigestMeaning(suite: Suite, aid: Aid, digest: bytes, sig: bytes)
    ensures aid.alg == Ed25519 ==>
              (VerifyDigest(suite, aid, digest, sig) <==> suite.ed25519Verify(aid.rawKey, digest, sig))
    ensures aid.alg == P256 ==>
              (VerifyDigest(suite, aid, digest, sig) <==>
               exists r: nat, s: nat ::
                 && 0 < r < P256_N && 0 < s < P256_N && sig == Raw(r, s) && 2 * s <= P256_N
                 && suite.ecdsaVerifyDigest(aid.rawKey, digest, r, s))
  {
    hide RawToDer, Raw;
    forall r: nat, s: nat
      ensures RawToDer(sig, false) == Some((r, s)) <==>
              0 < r < P256_N && 0 < s < P256_N && sig == Raw(r, s) && 2 * s <= P256_N
    {
      RawMeaning(sig, false, r, s);
    }
  }

  function Quoted(s: string): string { "\"" + s + "\"" }

  function QuotedMember(name: string, value: string): string {
    Quoted(name) + ":" + Quoted(value)
  }

  /** `_canonical_jwk`. */
  function CanonicalJwk(suite: Suite, aid: Aid): string {
    match aid.alg
    case Ed25519 =>
      "{" + QuotedMember("crv", "Ed25519") + "," + QuotedMember("kty", "OKP")
      + "," + QuotedMember("x", Base64Url.Encode(aid.rawKey)) + "}"
    case P256 =>
      var (x, y) := suite.p256Coordinates(aid.rawKey);
      "{" + QuotedMember("crv", "P-256") + "," + QuotedMember("kty", "EC")
      + "," + QuotedMember("x", Base64Url.Encode(x)) + "," + QuotedMember("y", Base64Url.Encode(y)) + "}"
  }

  /** `thumbprint`. */
  function Thumbprint(suite: Suite, aid: Aid): string {
    Base64Url.Encode(suite.sha256(Utf8.Encode(CanonicalJwk(suite, aid))))
  }

  /** `verify_jose`; `idpToken` admits high-S signatures. */
  predicate VerifyJose(suite: Suite, aid: Aid, input: bytes, sig: bytes, idpToken: bool) {
    match aid.alg
    case Ed25519 => suite.ed25519Verify(aid.rawKey, input, sig)
    case P256 =>
      match RawToDer(sig, idpToken)
      case None => false
      case Some((r, s)) => suite.ecdsaVerify(aid.rawKey, input, r, s)
  }

  /** `verify_digest`. */
  predicate VerifyDigest(suite: Suite, aid: Aid, digest: bytes, sig: bytes) {
    match aid.alg
    case Ed25519 => suite.ed25519Verify(aid.rawKey, digest, sig)
    case P256 =>
      match RawToDer(sig, false)
      case None => false
      case Some((r, s)) => suite.ecdsaVerifyDigest(aid.rawKey, digest, r, s)
  }

  // ----- tagged signature fields -----

  /** `decode_tagged_signature_for` on a string. */
  function DecodeTagged(sig: string, alg: Alg, code: string): Outcome<bytes> {
    var dot := IndexOf(sig, '.');
    var tag := if dot < |sig| then sig[..dot] else "ed25519";
    var body := if dot < |sig| then sig[dot + 1..] else sig;
    if tag != "ed25519" && tag != "p256" then Err(code)
    else if tag != AlgName(alg) then Err(code)
    else
      var raw :- OrErr(Base64Url.Decode(body), code);
      if |raw| != 64 then Err(code) else Ok(raw)
  }

  /** The tag a signature inside the envelope pattern declares. */
  datatype SignaturePattern = Untagged(body: string) | Tagged(alg: Alg, body: string) {
    predicate Valid() { |body| == 86 && Base64Url.AllInAlphabet(body) }

    function Text(): string {
      match this
      case Untagged(body) => body
      case Tagged(alg, body) => AlgName(alg) + "." + body
    }

    function Declares(): Alg {
      match this
      case Untagged(_) => Ed25519
      case Tagged(alg, _) => alg
    }
  }

  /** `_SIGNATURE_PATTERN.fullmatch`: an optional tag, then 86 alphabet characters. */
  function ReadPattern(sig: string): Option<SignaturePattern> {
    var p := if "ed25519." <= sig then Tagged(Ed25519, sig[8..])
             else if "p256." <= sig then Tagged(P256, sig[5..])
             else Untagged(sig);
    if p.Valid() then Some(p) else None
  }

  /** The pattern has at most one reading of a text, and `ReadPattern` finds it. */
  lemma PatternUnique(sig: string, p: SignaturePattern)
    requires p.Valid()
    ensures p.Text() == sig <==> ReadPattern(sig) == Some(p)
  {
    if p.Text() == sig {
      match p
      case Untagged(body) =>
        assert sig[4] in body && sig[7] in body;
      case Tagged(alg, body) =>
        TagFirst(alg, body);
    } else if "ed25519." <= sig {
      GlueTail(sig, 8);
    } else if "p256." <= sig {
      GlueTail(sig, 5);
    }
  }

  /** A tag and its point in front of a text, read back by prefix. */
  lemma TagFirst(alg: Alg, body: string)
    ensures var sig := AlgName(alg) + "." + body;
            if alg == Ed25519 then "ed25519." <= sig && sig[8..] == body
            else !("ed25519." <= sig) && "p256." <= sig && sig[5..] == body
  {
    var head := AlgName(alg) + ".";
    CutTail(head, body);
    if alg == Ed25519 {
      assert head == "ed25519.";
    } else {
      assert head == "p256." && (head + body)[0] == 'p';
    }
  }

  /** Inside the pattern a field fails to decode only when its tag names another algorithm. */
  lemma PatternDecodes(sig: string, p: SignaturePattern, alg: Alg, code: string)
    requires p.Valid() && p.Text() == sig
    ensures DecodeTagged(sig, alg, code).Ok? <==> p.Declares() == alg
    ensures DecodeTagged(sig, alg, code).Ok? ==> |DecodeTagged(sig, alg, code).value| == 64
    ensures !DecodeTagged(sig, alg, code).Ok? ==> DecodeTagged(sig, alg, code) == Err(code)
  {
    hide Base64Url.Decode, Base64Url.Encode, Base64Url.UnusedBitsZero, DecodeTagged, AlgName;
    Base64Url.DecodeDomain(p.body);
    assert '.' !in p.body;
    TaggedStep(sig, alg, code);
    Ed25519Only(alg);
    match p
    case Untagged(body) =>
      IndexOfAbsent(body, '.');
    case Tagged(a, body) =>
      Ed25519Only(a);
      NoPoint(a);
      assert sig == AlgName(a) + ['.'] + body;
      IndexOfAfter(AlgName(a), '.', body);
      CutAt(AlgName(a), '.', body);
  }

  lemma NoPoint(alg: Alg)
    ensures '.' !in AlgName(alg)
  {
  }

  /** A signature field stands for 64 bytes, tagged with the signer's algorithm or, for Ed25519, untagged. */
  lemma TaggedMeaning(sig: string, alg: Alg, code: string, raw: bytes)
    ensures DecodeTagged(sig, alg, code) == Ok(raw) <==>
            && |raw| == 64
            && exists body ::
                 && Base64Url.Decode(body) == Some(raw)
                 && (sig == AlgName(alg) + "." + body || (alg == Ed25519 && sig == body))
    ensures DecodeTagged(sig, alg, code).Ok? || DecodeTagged(sig, alg, code) == Err(code)
  {
    hide Base64Url.Decode, DecodeTagged, AlgName;
    TaggedStep(sig, alg, code);
    Ed25519Name();
    Ed25519Only(alg);
    if DecodeTagged(sig, alg, code) == Ok(raw) {
      var dot := IndexOf(sig, '.');
      if dot < |sig| {
        GlueAt(sig, dot);
        assert sig == AlgName(alg) + "." + sig[dot + 1..];
      }
    }
    forall body | Base64Url.Decode(body) == Some(raw) && |raw| == 64
                  && (sig == AlgName(alg) + "." + body || (alg == Ed25519 && sig == body))
      ensures DecodeTagged(sig, alg, code) == Ok(raw)
    {
      TaggedReads(sig, alg, code, body);
    }
  }

  lemma Ed25519Only(alg: Alg)
    ensures AlgName(alg) == "ed25519" <==> alg == Ed25519
  {
    assert "p256"[0] != "ed25519"[0];
  }

  lemma Ed25519Name()
    ensures AlgName(Ed25519) == "ed25519"
  {
  }

  /** What the field decoder does once the tag and the body are apart. */
  lemma TaggedStep(sig: string, alg: Alg, code: string)
    ensures var dot := IndexOf(sig, '.');
            var tag := if dot < |sig| then sig[..dot] else "ed25519";
            var body := if dot < |sig| then sig[dot + 1..] else sig;
            && (tag == AlgName(alg) ==>
                  DecodeTagged(sig, alg, code)
                  == match Base64Url.Decode(body)
                     case None => Err(code)
                     case Some(raw) => if |raw| == 64 then Ok(raw) else Err(code))
            && (tag != AlgName(alg) ==> DecodeTagged(sig, alg, code) == Err(code))
  {
    hide Base64Url.Decode, IndexOf;
  }

  lemma TaggedReads(sig: string, alg: Alg, code: string, body: string)
    requires Base64Url.Decode(body).Some? && |Base64Url.Decode(body).value| == 64
    requires sig == AlgName(alg) + "." + body || (alg == Ed25519 && sig == body)
    ensures DecodeTagged(sig, alg, code) == Ok(Base64Url.Decode(body).value)
  {
    hide Base64Url.Decode, DecodeTagged, AlgName;
    TaggedStep(sig, alg, code);
    Ed25519Name();
    AlphabetOnly(body);
    if sig == AlgName(alg) + "." + body {
      NoPoint(alg);
      assert sig == AlgName(alg) + ['.'] + body;
      IndexOfAfter(AlgName(alg), '.', body);
      CutAt(AlgName(alg), '.', body);
    } else {
      IndexOfAbsent(body, '.');
      assert IndexOf(sig, '.') == |sig|;
    }
  }
}
