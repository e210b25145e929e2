/** The compact JWS profile (section 5.4.5 of RFC-AITP-0001). */
module Jws {
  import opened Wrappers
  import opened Bytes
  import opened KeyMath
  import opened Aids
  import opened Jcs
  import opened JsonReader
  import opened JsonText
  import Base64Url
  import Utf8

  type Claims = map<string, Json>

  /** `claims.get(name)`. */
  function Get(claims: Claims, name: string): Json {
    if name in claims then claims[name] else Null
  }

  datatype ParsedJws = ParsedJws(header: Claims, claims: Claims, signingInput: bytes, signature: bytes)

  /** `parse_compact` on a string. */
  function ParseCompact(token: string, code: string): Outcome<ParsedJws> {
    var parts := Split(token, '.');
    if |parts| != 3 || parts[0] == "" || parts[1] == "" || parts[2] == "" then Err(code)
    else
      var headerBytes :- OrErr(Base64Url.Decode(parts[0]), code);
      var payloadBytes :- OrErr(Base64Url.Decode(parts[1]), code);
      var signature :- OrErr(Base64Url.Decode(parts[2]), code);
      var header :- OrErr(LoadsBytes(headerBytes), code);
      var claims :- OrErr(LoadsBytes(payloadBytes), code);
      if !header.Obj? || !claims.Obj? then Err(code)
      else
        Ok(ParsedJws(header.members, claims.members, Utf8.Encode(parts[0] + "." + parts[1]), signature))
  }

  /**
   * `verify_jws`. A malformed issuer AID is a `ValueError` that this function does not catch.
   * `afterTyp` is its `after_typ_check` hook.
   */
  function VerifyJws(suite: Suite, token: string, issAid: string, typ: string,
                     typErr: string, algErr: string, sigErr: string,
                     afterTyp: Claims -> Outcome<()>): (r: Outcome<Claims>)
  {
    var parsed :- ParseCompact(token, sigErr);
    if parsed.header.Keys != {"alg", "typ"} then Err(algErr)
    else if parsed.header["typ"] != Str(typ) then Err(typErr)
    else
      var _ :- afterTyp(parsed.claims);
      match ParseAid(suite, issAid)
      case None => Crash("ValueError")
      case Some(aid) =>
        if parsed.header["alg"] != Str(JoseAlg(aid.alg)) then Err(algErr)
        else if !VerifyJose(suite, aid, parsed.signingInput, parsed.signature, false) then Err(sigErr)
        else Ok(parsed.claims)
  }

  function NoCheck(): Claims -> Outcome<()> {
    (c: Claims) => Ok(())
  }

  /** What acceptance by `verify_jws` means, whatever the codes. */
  ghost predicate Verified(suite: Suite, token: string, issAid: string, typ: string, claims: Claims) {
    var p := ParseCompact(token, "");
    && p.Ok? && p.value.claims == claims
    && ParseAid(suite, issAid).Some?
    && VerifyJose(suite, ParseAid(suite, issAid).value, p.value.signingInput, p.value.signature, false)
    && var alg := if ParseAid(suite, issAid).value.alg == Ed25519 then "EdDSA" else "ES256";
       p.value.header == map["alg" := Str(alg), "typ" := Str(typ)]
  }

  lemma ParseCompactCode(token: string, a: string, b: string)
    ensures ParseCompact(token, a).Ok? <==> ParseCompact(token, b).Ok?
    ensures ParseCompact(token, a).Ok? ==> ParseCompact(token, a) == ParseCompact(token, b)
    ensures !ParseCompact(token, a).Ok? ==> ParseCompact(token, a) == Err(a)
  {
    hide LoadsBytes, Base64Url.Decode, Utf8.Encode, Split;
  }

  lemma JoinThree(a: string, b: string, c: string)
    ensures Join([a, b, c], '.') == a + "." + b + "." + c
  {
    assert [a, b, c][1..] == [b, c] && [b, c][1..] == [c];
    assert Join([b, c], '.') == b + ['.'] + Join([c], '.');
    assert a + ['.'] + (b + ['.'] + c) == a + "." + b + "." + c;
  }

  /** A segment that decodes to a JSON object. */
  ghost predicate ObjectSegment(segment: string, members: Claims) {
    segment != "" && Base64Url.Decode(segment).Some? && LoadsBytes(Base64Url.Decode(segment).value) == Some(Obj(members))
  }

  /** The three segments of a compact token and what they hold. */
  ghost predicate Segments(token: string, p: ParsedJws, header: string, payload: string, signature: string) {
    && token == header + "." + payload + "." + signature
    && ObjectSegment(header, p.header) && ObjectSegment(payload, p.claims)
    && signature != "" && Base64Url.Decode(signature) == Some(p.signature)
    && p.signingInput == Utf8.Encode(header + "." + payload)
  }

  /** A token parses exactly when it is three such segments between two points. */
  lemma ParseCompactMeaning(token: string, code: string, p: ParsedJws)
    ensures ParseCompact(token, code) == Ok(p) <==>
            exists header, payload, signature :: Segments(token, p, header, payload, signature)
  {
    hide LoadsBytes, Base64Url.Decode, Utf8.Encode, Split, Join;
    if ParseCompact(token, code) == Ok(p) {
      var parts := Split(token, '.');
      JoinSplit(token, '.');
      assert parts == [parts[0], parts[1], parts[2]];
      JoinThree(parts[0], parts[1], parts[2]);
      assert Segments(token, p, parts[0], parts[1], parts[2]);
    }
    forall header, payload, signature | Segments(token, p, header, payload, signature)
      ensures ParseCompact(token, code) == Ok(p)
    {
      SegmentsParse(token, code, p, header, payload, signature);
    }
  }

  lemma SegmentsParse(token: string, code: string, p: ParsedJws, header: string, payload: string, signature: string)
    requires Segments(token, p, header, payload, signature)
    ensures ParseCompact(token, code) == Ok(p)
  {
    hide LoadsBytes, Base64Url.Decode, Utf8.Encode, Split;
    AlphabetOnly(header);
    AlphabetOnly(payload);
    AlphabetOnly(signature);
    SplitThree(header, payload, signature);
  }

  /** `verify_jws` accepts exactly the tokens of the expected type signed under the issuer's key. */
  lemma VerifyJwsMeaning(suite: Suite, token: string, issAid: string, typ: string,
                         typErr: string, algErr: string, sigErr: string,
                         afterTyp: Claims -> Outcome<()>, claims: Claims)
    ensures VerifyJws(suite, token, issAid, typ, typErr, algErr, sigErr, afterTyp) == Ok(claims)
            <==> Verified(suite, token, issAid, typ, claims) && afterTyp(claims).Ok?
  {
    hide ParseCompact, ParseAid, VerifyJose;
    ParseCompactCode(token, sigErr, "");
    var p := ParseCompact(token, "");
    if p.Ok? {
      var h := p.value.header;
      if h.Keys == {"alg", "typ"} {
        assert h == map["alg" := h["alg"], "typ" := h["typ"]];
      }
    }
  }

  /**
   * When something other than an `AitpError` leaves `verify_jws`: a token of the expected type whose
   * claims pass the hook names an issuer that is not an AID. A caller can test that beforehand.
   */
  lemma VerifyJwsEscapes(suite: Suite, token: string, issAid: string, typ: string,
                         typErr: string, algErr: string, sigErr: string, afterTyp: Claims -> Outcome<()>)
    requires forall c :: !afterTyp(c).Crash?
    ensures var r := VerifyJws(suite, token, issAid, typ, typErr, algErr, sigErr, afterTyp);
            var p := ParseCompact(token, "");
            && (r.Crash? ==> r == Crash("ValueError"))
            && (r.Crash? <==>
                && p.Ok? && p.value.header.Keys == {"alg", "typ"} && p.value.header["typ"] == Str(typ)
                && afterTyp(p.value.claims).Ok? && ParseAid(suite, issAid).None?)
  {
    hide ParseCompact, ParseAid, VerifyJose;
    ParseCompactCode(token, sigErr, "");
  }

  /** Each kind of failure has its code, and an earlier one hides a later one. */
  lemma VerifyJwsCodes(suite: Suite, token: string, issAid: string, typ: string,
                       typErr: string, algErr: string, sigErr: string, afterTyp: Claims -> Outcome<()>)
    requires typErr != algErr && algErr != sigErr && typErr != sigErr
    requires forall c, e :: afterTyp(c) == Err(e) ==> e != typErr && e != algErr
    ensures var r := VerifyJws(suite, token, issAid, typ, typErr, algErr, sigErr, afterTyp);
            var p := ParseCompact(token, "");
            var framed := p.Ok? && p.value.header.Keys == {"alg", "typ"};
            && (!p.Ok? ==> r == Err(sigErr))
            && (r == Err(typErr) <==> framed && p.value.header["typ"] != Str(typ))
            && (r == Err(algErr) <==>
                || (p.Ok? && !framed)
                || (framed && p.value.header["typ"] == Str(typ) && afterTyp(p.value.claims).Ok?
                    && ParseAid(suite, issAid).Some?
                    && p.value.header["alg"] != Str(JoseAlg(ParseAid(suite, issAid).value.alg))))
  {
    hide ParseCompact, ParseAid, VerifyJose, JoseAlg;
    ParseCompactCode(token, sigErr, "");
  }

  /**
   * No second wire form: of two tokens that differ only in that one carries the P-256 signature (r, s)
   * and the other its twin (r, n - s), at most one is accepted.
   */
  lemma TwinTokens(suite: Suite, input: string, r: nat, s: nat, issAid: string, typ: string,
                   typErr: string, algErr: string, sigErr: string, afterTyp: Claims -> Outcome<()>)
    requires 0 < r < P256_N && 0 < s < P256_N
    requires ParseAid(suite, issAid).Some? && ParseAid(suite, issAid).value.alg == P256
    ensures var one := input + "." + Base64Url.Encode(Raw(r, s));
            var other := input + "." + Base64Url.Encode(Raw(r, P256_N - s));
            !(&& VerifyJws(suite, one, issAid, typ, typErr, algErr, sigErr, afterTyp).Ok?
              && VerifyJws(suite, other, issAid, typ, typErr, algErr, sigErr, afterTyp).Ok?)
  {
    hide ParseAid, VerifyJws, Raw, Base64Url.Encode;
    LowSExactlyOne(r, s);
    SignatureCarried(suite, input, Raw(r, s), issAid, typ, typErr, algErr, sigErr, afterTyp);
    SignatureCarried(suite, input, Raw(r, P256_N - s), issAid, typ, typErr, algErr, sigErr, afterTyp);
  }

  /** An accepted token of a P-256 issuer carries a signature that passes the strict check. */
  lemma SignatureCarried(suite: Suite, input: string, sig: bytes, issAid: string, typ: string,
                         typErr: string, algErr: string, sigErr: string, afterTyp: Claims -> Outcome<()>)
    requires sig != [] && ParseAid(suite, issAid).Some? && ParseAid(suite, issAid).value.alg == P256
    ensures VerifyJws(suite, input + "." + Base64Url.Encode(sig), issAid, typ, typErr, algErr, sigErr, afterTyp).Ok?
            ==> RawToDer(sig, false).Some?
  {
    hide ParseAid, VerifyJws, ParseCompact, Base64Url.Encode, Base64Url.Decode;
    var token := input + "." + Base64Url.Encode(sig);
    var v := VerifyJws(suite, token, issAid, typ, typErr, algErr, sigErr, afterTyp);
    if v.Ok? {
      VerifyJwsMeaning(suite, token, issAid, typ, typErr, algErr, sigErr, afterTyp, v.value);
      LastSegment(token, input, sig);
    }
  }

  lemma LastSegment(token: string, input: string, sig: bytes)
    requires sig != [] && token == input + "." + Base64Url.Encode(sig) && ParseCompact(token, "").Ok?
    ensures ParseCompact(token, "").value.signature == sig
  {
    hide LoadsBytes, Base64Url.Encode, Base64Url.Decode, Utf8.Encode, ParseCompact;
    var p := ParseCompact(token, "").value;
    ParseCompactMeaning(token, "", p);
    var header, payload, signature :| Segments(token, p, header, payload, signature);
    Base64Url.EncodeShape(sig);
    Base64Url.DecodeEncode(sig);
    AlphabetOnly(signature);
    AlphabetOnly(Base64Url.Encode(sig));
    SameLast(header + "." + payload, signature, input, Base64Url.Encode(sig));
  }

  lemma PointInside(a: string, b: string, c: string, d: string)
    requires a + "." + b == c + "." + d && |b| < |d|
    ensures '.' in d
  {
    var t := a + "." + b;
    assert t[|a|] == '.' && t[|a|] == d[|a| - |c| - 1];
  }

  lemma SameLast(a: string, b: string, c: string, d: string)
    requires '.' !in b && '.' !in d && a + "." + b == c + "." + d
    ensures b == d
  {
    if |b| < |d| {
      PointInside(a, b, c, d);
    } else if |d| < |b| {
      PointInside(c, d, a, b);
    } else {
      CutTail(a + ".", b);
      CutTail(c + ".", d);
    }
  }

  // ----- minting -----

  /** `json.dumps({"alg": alg, "typ": typ}, separators=(",", ":"))`. */
  function HeaderText(alg: string, typ: string): string {
    "{\"alg\":\"" + EscapeAscii(alg) + "\",\"typ\":\"" + EscapeAscii(typ) + "\"}"
  }

  function SigningText(typ: string, alg: string, payload: bytes): string {
    Base64Url.Encode(Utf8.Encode(HeaderText(alg, typ))) + "." + Base64Url.Encode(payload)
  }

  /** `encode_jws` with the signer `sign`; `None` is the payload's `JcsError`. */
  function EncodeJws(typ: string, claims: Claims, sign: bytes -> bytes, alg: string): Option<string> {
    var payload :- Canonicalize(Obj(claims));
    var input := SigningText(typ, alg, payload);
    Some(input + "." + Base64Url.Encode(sign(Utf8.Encode(input))))
  }

  lemma ReadStringValue(s: string, rest: string)
    ensures ReadValue("\"" + EscapeAscii(s) + "\"" + rest) == Some((Str(s), rest))
  {
    hide ReadString, EscapeAscii, ReadItems, ReadMembers;
    var t := "\"" + EscapeAscii(s) + "\"" + rest;
    assert t[1..] == EscapeAscii(s) + "\"" + rest;
    ReadFormatted(s, rest);
  }

  /** A member of the header text and what follows it. */
  function HeaderMember(name: string, value: string, tail: string): string {
    "\"" + name + "\":\"" + EscapeAscii(value) + "\"" + tail
  }

  lemma ReadHeaderMember(name: string, value: string, tail: string, seen: Claims)
    requires name !in seen && EscapeAscii(name) == name
    requires tail != "" && (tail[0] == '}' || tail[0] == ',')
    ensures ReadMembers(HeaderMember(name, value, tail), seen)
         == if tail[0] == '}' then Some((seen[name := Str(value)], tail[1..]))
            else ReadMembers(SkipSpace(tail[1..]), seen[name := Str(value)])
  {
    hide ReadString, ReadValue, ReadMembers, SkipSpace, EscapeAscii;
    var t := HeaderMember(name, value, tail);
    var text := "\"" + EscapeAscii(value) + "\"" + tail;
    var afterKey := ":" + text;
    assert t[1..] == EscapeAscii(name) + "\"" + afterKey;
    ReadFormatted(name, afterKey);
    assert afterKey[1..] == text;
    NoSpace(text);
    ReadStringValue(value, tail);
    MembersStep(t, name, afterKey, Str(value), tail, seen);
  }

  lemma LoadsObject(body: string, members: Claims)
    requires body != "" && body[0] == '"' && ReadMembers(body, map[]) == Some((members, ""))
    ensures Loads("{" + body) == Some(Obj(members))
  {
    hide ReadMembers, ReadValue;
    NoSpace("{" + body);
    ReadObject(body);
    NoSpace("");
  }

  lemma {:induction false} PlainName(name: string)
    requires forall c <- name :: 'a' <= c <= 'z'
    ensures EscapeAscii(name) == name
  {
    hide EscapeCharAscii;
    if name != "" {
      assert name[0] in name && forall c <- name[1..] :: c in name;
      PlainName(name[1..]);
      PlainLetter(name[0]);
      assert name == [name[0]] + name[1..];
    }
  }

  lemma PlainLetter(c: char)
    requires 'a' <= c <= 'z'
    ensures EscapeCharAscii(c) == [c]
  {
  }

  lemma ReadHeader(alg: string, typ: string)
    ensures ReadMembers(HeaderMember("alg", alg, "," + HeaderMember("typ", typ, "}")), map[])
         == Some((map["alg" := Str(alg), "typ" := Str(typ)], ""))
  {
    PlainName("alg");
    PlainName("typ");
    ReadHeaderMember("alg", alg, "," + HeaderMember("typ", typ, "}"), map[]);
    ReadHeaderMember("typ", typ, "}", map["alg" := Str(alg)]);
    AfterComma(HeaderMember("typ", typ, "}"));
    hide ReadMembers, EscapeAscii, HeaderMember;
  }

  lemma AfterComma(t: string)
    ensures ("," + t)[1..] == t && ("," + t)[0] == ','
    ensures t != "" && t[0] == '"' ==> SkipSpace(t) == t
  {
  }

  lemma HeaderPieces(alg: string, typ: string)
    ensures HeaderText(alg, typ) == "{" + HeaderMember("alg", alg, "," + HeaderMember("typ", typ, "}"))
  {
    hide EscapeAscii;
  }

  lemma LoadsHeader(alg: string, typ: string)
    ensures LoadsBytes(Utf8.Encode(HeaderText(alg, typ))) == Some(Obj(map["alg" := Str(alg), "typ" := Str(typ)]))
  {
    Utf8.DecodeEncode(HeaderText(alg, typ));
    HeaderPieces(alg, typ);
    ReadHeader(alg, typ);
    LoadsObject(HeaderMember("alg", alg, "," + HeaderMember("typ", typ, "}")),
                map["alg" := Str(alg), "typ" := Str(typ)]);
  }

  lemma EncodedNonEmpty(data: bytes)
    requires data != []
    ensures Base64Url.Encode(data) != "" && '.' !in Base64Url.Encode(data)
  {
    Base64Url.EncodeShape(data);
  }

  /** Parsing what was minted returns the header, the claims, the signing input and the signature. */
  lemma ParseMinted(typ: string, claims: Claims, sign: bytes -> bytes, alg: string, code: string)
    requires Canonicalize(Obj(claims)).Some?
    requires sign(Utf8.Encode(SigningText(typ, alg, Canonicalize(Obj(claims)).value))) != []
    ensures var payload := Canonicalize(Obj(claims)).value;
            var input := Utf8.Encode(SigningText(typ, alg, payload));
            var token := EncodeJws(typ, claims, sign, alg).value;
            && |Split(token, '.')| == 3
            && ParseCompact(token, code)
               == Ok(ParsedJws(map["alg" := Str(alg), "typ" := Str(typ)], claims, input, sign(input)))
  {
    var headerBytes, payload := Utf8.Encode(HeaderText(alg, typ)), Canonicalize(Obj(claims)).value;
    var input := SigningText(typ, alg, payload);
    var sig := sign(Utf8.Encode(input));
    assert headerBytes != [] by {
      Utf8.EncodeAscii(HeaderText(alg, typ));
    }
    assert payload != [] by {
      CanonStart(Obj(claims));
      Utf8.EncodeAscii(Canon(Obj(claims)));
    }
    hide Canonicalize, LoadsBytes, Utf8.Encode, HeaderText, Base64Url.Encode, Base64Url.Decode, Split, Join;
    LoadsHeader(alg, typ);
    LoadsCanonicalized(Obj(claims));
    EncodedNonEmpty(headerBytes);
    EncodedNonEmpty(payload);
    EncodedNonEmpty(sig);
    Base64Url.DecodeEncode(headerBytes);
    Base64Url.DecodeEncode(payload);
    Base64Url.DecodeEncode(sig);
    SplitThree(Base64Url.Encode(headerBytes), Base64Url.Encode(payload), Base64Url.Encode(sig));
  }

  lemma SplitThree(a: string, b: string, c: string)
    requires '.' !in a && '.' !in b && '.' !in c
    ensures Split(a + "." + b + "." + c, '.') == [a, b, c]
  {
    JoinThree(a, b, c);
    SplitJoin([a, b, c], '.');
  }

  /** A minted token verifies under the key of its issuer, when `typ` and `alg` are the expected ones. */
  lemma VerifyMinted(suite: Suite, typ: string, claims: Claims, sign: bytes -> bytes, issAid: string,
                     typErr: string, algErr: string, sigErr: string)
    requires Canonicalize(Obj(claims)).Some? && ParseAid(suite, issAid).Some?
    requires var aid := ParseAid(suite, issAid).value;
             var input := Utf8.Encode(SigningText(typ, JoseAlg(aid.alg), Canonicalize(Obj(claims)).value));
             sign(input) != [] && VerifyJose(suite, aid, input, sign(input), false)
    ensures var token := EncodeJws(typ, claims, sign, JoseAlg(ParseAid(suite, issAid).value.alg)).value;
            VerifyJws(suite, token, issAid, typ, typErr, algErr, sigErr, NoCheck()) == Ok(claims)
  {
    hide ParseCompact, ParseAid, VerifyJose, EncodeJws, Canonicalize, SigningText, Utf8.Encode, VerifyJws;
    var alg := JoseAlg(ParseAid(suite, issAid).value.alg);
    ParseMinted(typ, claims, sign, alg, "");
    MintedToken(typ, claims, sign, alg);
    var token := EncodeJws(typ, claims, sign, alg).value;
    VerifyJwsMeaning(suite, token, issAid, typ, typErr, algErr, sigErr, NoCheck(), claims);
  }

  /** Every minted token of the expected type does that when it is verified under a malformed issuer. */
  lemma MalformedIssuerEscapes(suite: Suite, typ: string, claims: Claims, sign: bytes -> bytes, alg: string,
                               issAid: string, typErr: string, algErr: string, sigErr: string)
    requires Canonicalize(Obj(claims)).Some? && ParseAid(suite, issAid).None?
    requires sign(Utf8.Encode(SigningText(typ, alg, Canonicalize(Obj(claims)).value))) != []
    ensures var token := EncodeJws(typ, claims, sign, alg).value;
            VerifyJws(suite, token, issAid, typ, typErr, algErr, sigErr, NoCheck()) == Crash("ValueError")
  {
    hide ParseCompact, ParseAid, VerifyJose, EncodeJws, Canonicalize, SigningText, Utf8.Encode, VerifyJws;
    ParseMinted(typ, claims, sign, alg, "");
    MintedToken(typ, claims, sign, alg);
    VerifyJwsEscapes(suite, EncodeJws(typ, claims, sign, alg).value, issAid, typ, typErr, algErr, sigErr, NoCheck());
  }

  lemma MintedToken(typ: string, claims: Claims, sign: bytes -> bytes, alg: string)
    requires Canonicalize(Obj(claims)).Some?
    ensures EncodeJws(typ, claims, sign, alg).Some?
  {
  }
}
