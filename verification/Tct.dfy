/** Trust Context Tokens (sections 6, 7.2 and 10 of RFC-AITP-0005). */
module Tct {
  import opened Wrappers
  import opened KeyMath
  import opened Aids
  import opened Jcs
  import opened Jws
  import opened Fields
  import opened Revocation

  const BAD_TOKEN := "TCT_SIGNATURE_INVALID"
  const ATTESTATION_MARKER := "aitp.attestation"

  // ----- the claims -----

  predicate IsLowerHex(c: char) { '0' <= c <= '9' || 'a' <= c <= 'f' }

  /** `_JTI_V4.fullmatch`: a lowercase UUID of version 4 and variant 10. */
  predicate IsUuidV4(s: string) {
    && |s| == 36
    && (forall i | 0 <= i < 36 :: if i in {8, 13, 18, 23} then s[i] == '-' else IsLowerHex(s[i]))
    && s[14] == '4' && s[19] in "89ab"
  }

  ghost predicate HexGroup(s: string, length: nat) {
    |s| == length && forall c <- s :: c in "0123456789abcdef"
  }

  lemma HexDigit(c: char)
    ensures c in "0123456789abcdef" <==> IsLowerHex(c)
  {
    var digits := "0123456789abcdef";
    assert forall i | 0 <= i < 10 :: digits[i] as int == '0' as int + i;
    assert forall i | 10 <= i < 16 :: digits[i] as int == 'a' as int + i - 10;
    if '0' <= c <= '9' {
      assert digits[c as int - '0' as int] == c;
    } else if 'a' <= c <= 'f' {
      assert digits[c as int - 'a' as int + 10] == c;
    }
  }

  /** Five lower-case hexadecimal groups between hyphens, the version and the variant in place. */
  ghost predicate UuidGroups(s: string, a: string, b: string, c: string, d: string, e: string) {
    && s == a + "-" + (b + "-" + (c + "-" + (d + "-" + e)))
    && HexGroup(a, 8) && HexGroup(b, 4) && HexGroup(c, 4) && HexGroup(d, 4) && HexGroup(e, 12)
    && c[0] == '4' && d[0] in "89ab"
  }

  lemma UuidMeaning(s: string)
    ensures IsUuidV4(s) <==>
            exists a: string, b: string, c: string, d: string, e: string :: UuidGroups(s, a, b, c, d, e)
  {
    if IsUuidV4(s) {
      UuidSplits(s);
    }
    forall a: string, b: string, c: string, d: string, e: string | UuidGroups(s, a, b, c, d, e)
      ensures IsUuidV4(s)
    {
      GroupsUuid(s, a, b, c, d, e);
    }
    hide IsUuidV4, UuidGroups;
  }

  lemma HexPart(s: string, i: nat, j: nat)
    requires i <= j <= |s| && forall k | i <= k < j :: IsLowerHex(s[k])
    ensures HexGroup(s[i..j], j - i)
  {
    hide IsLowerHex;
    forall c | c in s[i..j] ensures c in "0123456789abcdef" {
      var k :| i <= k < j && s[k] == c;
      HexDigit(c);
    }
  }

  lemma UuidSplits(s: string)
    requires IsUuidV4(s)
    ensures UuidGroups(s, s[0..8], s[9..13], s[14..18], s[19..23], s[24..36])
  {
    hide IsLowerHex, HexGroup;
    HexPart(s, 0, 8);
    HexPart(s, 9, 13);
    HexPart(s, 14, 18);
    HexPart(s, 19, 23);
    HexPart(s, 24, 36);
    assert s[19..] == s[19..23] + "-" + s[24..36];
    assert s[14..] == s[14..18] + "-" + s[19..];
    assert s[9..] == s[9..13] + "-" + s[14..];
    assert s == s[0..8] + "-" + s[9..];
  }

  lemma GroupsUuid(s: string, a: string, b: string, c: string, d: string, e: string)
    requires UuidGroups(s, a, b, c, d, e)
    ensures IsUuidV4(s)
  {
    hide IsLowerHex;
    forall c: char ensures c in "0123456789abcdef" <==> IsLowerHex(c) {
      HexDigit(c);
    }
    var t1 := d + "-" + e;
    var t2 := c + "-" + t1;
    var t3 := b + "-" + t2;
    assert forall i | 0 <= i < 17 :: t1[i] == if i < 4 then d[i] else if i == 4 then '-' else e[i - 5];
    assert forall i | 0 <= i < 22 :: t2[i] == if i < 4 then c[i] else if i == 4 then '-' else t1[i - 5];
    assert forall i | 0 <= i < 27 :: t3[i] == if i < 4 then b[i] else if i == 4 then '-' else t2[i - 5];
    assert forall i | 0 <= i < 36 :: s[i] == if i < 8 then a[i] else if i == 8 then '-' else t3[i - 9];
  }

  predicate TctTyped(c: Claims) {
    && WellTyped(c, {"ver", "jti", "iss", "sub", "aud", "iat", "exp", "grants", "cnf"},
                 map["ver" := Text, "jti" := Text, "iss" := Text, "sub" := Text, "aud" := Text,
                     "iat" := Integer, "exp" := Integer, "grants" := List, "cnf" := Dict])
    && c["grants"].Arr? && AllStrings(c["grants"].items)
  }

  /** The members of a well-formed claims object that the checks read. */
  datatype Grant = Grant(ver: string, jti: string, iss: string, sub: string, aud: string, exp: int,
                         grants: seq<string>, jkt: Json)

  function GrantOf(c: Claims): Grant
    requires TctTyped(c)
  {
    Grant(c["ver"].s, c["jti"].s, c["iss"].s, c["sub"].s, c["aud"].s, IntOf(c["exp"]),
          Strings(c["grants"].items), Get(c["cnf"].members, "jkt"))
  }

  /** `check_tct_claims_shape`, with what later checks read of the claims. */
  function ReadTct(c: Claims): Outcome<Grant> {
    if !TctTyped(c) then Err(BAD_TOKEN)
    else
      var _ :- KnownOnly(c, {"ver", "jti", "iss", "sub", "aud", "iat", "exp", "grants", "cnf", "ext"});
      var _ :- KnownOnly(c["cnf"].members, {"jkt"});
      if IsUuidV4(c["jti"].s) then Ok(GrantOf(c)) else Err(BAD_TOKEN)
  }

  /** The claims are a TCT's, with no other member, and say this. */
  ghost predicate GrantSays(c: Claims, g: Grant) {
    && c.Keys <= {"ver", "jti", "iss", "sub", "aud", "iat", "exp", "grants", "cnf", "ext"}
    && Get(c, "ver") == Str(g.ver) && Get(c, "jti") == Str(g.jti) && IsUuidV4(g.jti)
    && Get(c, "iss") == Str(g.iss) && Get(c, "sub") == Str(g.sub) && Get(c, "aud") == Str(g.aud)
    && IsWhole(Get(c, "iat")) && IsInt(Get(c, "exp"), g.exp) && IsTexts(Get(c, "grants"), g.grants)
    && Get(c, "cnf").Obj? && Get(c, "cnf").members.Keys <= {"jkt"} && g.jkt == Get(Get(c, "cnf").members, "jkt")
  }

  lemma TctTypedMembers(c: Claims)
    ensures TctTyped(c) <==>
            && Get(c, "ver").Str? && Get(c, "jti").Str? && Get(c, "iss").Str? && Get(c, "sub").Str?
            && Get(c, "aud").Str? && HasKind(Get(c, "iat"), Integer) && HasKind(Get(c, "exp"), Integer)
            && Get(c, "grants").Arr? && AllStrings(Get(c, "grants").items) && Get(c, "cnf").Obj?
  {
    hide IsInteger, AllStrings;
  }

  lemma GrantOfMembers(c: Claims)
    requires TctTyped(c)
    ensures Get(c, "grants").Arr? && AllStrings(Get(c, "grants").items) && HasKind(Get(c, "exp"), Integer)
    ensures Get(c, "cnf").Obj? && Get(c, "jti").Str? && c["jti"] == Get(c, "jti") && c["cnf"] == Get(c, "cnf")
    ensures GrantOf(c) == Grant(TextOf(Get(c, "ver")), TextOf(Get(c, "jti")), TextOf(Get(c, "iss")),
                                TextOf(Get(c, "sub")), TextOf(Get(c, "aud")), IntOf(Get(c, "exp")),
                                Strings(Get(c, "grants").items), Get(Get(c, "cnf").members, "jkt"))
  {
    hide IsInteger, AllStrings, Truncate;
  }

  /** Reading the claims succeeds exactly when they say so, with what they say. */
  lemma ReadTctMeaning(c: Claims, g: Grant)
    ensures ReadTct(c) == Ok(g) <==> GrantSays(c, g)
  {
    hide TctTyped, GrantOf, HasKind, IsUuidV4, AllStrings, Strings, IsInt, IsWhole, IsTexts, IntOf;
    TctTypedMembers(c);
    if TctTyped(c) {
      GrantOfMembers(c);
    }
    IntMeaning(Get(c, "iat"), 0);
    IntMeaning(Get(c, "exp"), g.exp);
    TextsMeaning(Get(c, "grants"), g.grants);
  }

  function CheckTctClaimsShape(c: Claims): Outcome<()> {
    var _ :- ReadTct(c);
    Ok(())
  }

  /** `check_grant_context`. */
  function CheckGrantContext(g: Grant): Outcome<()> {
    Need(g.iss != g.sub && ATTESTATION_MARKER !in g.grants, BAD_TOKEN)
  }

  /** `outlives_manifest` on a manifest that is not `None`. */
  function OutlivesManifest(suite: Suite, exp: int, manifest: Json): Outcome<bool> {
    if !manifest.Obj? then Crash("TypeError")
    else if "expires_at" !in manifest.members then Crash("KeyError")
    else
      var limit :- PyInt(suite, manifest.members["expires_at"]);
      Ok(exp > limit)
  }

  /** `cnf.jkt` names the key in `sub`. */
  function CheckBinding(suite: Suite, g: Grant): Outcome<()> {
    var sub :- OrErr(ParseAid(suite, g.sub), BAD_TOKEN);
    Need(g.jkt == Str(Thumbprint(suite, sub)), "TCT_CNF_MISMATCH")
  }

  // ----- revocation -----

  /** `_apply_absence`. */
  function ApplyAbsence(mode: string): Outcome<()> {
    Need(mode != FAIL_CLOSED, "TCT_REVOKED")
  }

  /** `_check_revocation`. */
  function CheckRevocation(suite: Suite, g: Grant, inp: Claims, now: int): Outcome<()> {
    var mode := PolicyFailMode(inp);
    var revlist := Get(inp, "issuer_revocation_list");
    if !revlist.Obj? then ApplyAbsence(mode)
    else
      match VerifySnapshotTrust(suite, Get(revlist.members, "snapshot"))
      case Err(_) => ApplyAbsence(mode)
      case Crash(kind) => Crash(kind)
      case Ok(body) =>
        if body.issuer != g.iss then ApplyAbsence(mode)
        else if SnapshotIsStale(suite, body, PolicyOf(inp), now) then ApplyAbsence(mode)
        else Need(g.jti !in body.jtis, "TCT_REVOKED")
  }

  /** The supplied snapshot, when it is trusted, signed by `iss` and fresh at `now`. */
  function UsableSnapshot(suite: Suite, inp: Claims, iss: string, now: int): Option<Body> {
    var revlist := Get(inp, "issuer_revocation_list");
    if !revlist.Obj? then None
    else
      match VerifySnapshotTrust(suite, Get(revlist.members, "snapshot"))
      case Ok(body) =>
        if body.issuer == iss && !SnapshotIsStale(suite, body, PolicyOf(inp), now) then Some(body) else None
      case _ => None
  }

  /** The snapshot that came with the token, as JSON. */
  function SuppliedSnapshot(inp: Claims): Json {
    var revlist := Get(inp, "issuer_revocation_list");
    if revlist.Obj? then Get(revlist.members, "snapshot") else Null
  }

  /** A usable snapshot none of whose entries is for the grant, or none and a permissive mode. */
  ghost predicate Unrevoked(suite: Suite, inp: Claims, g: Grant, now: int) {
    if UsableSnapshot(suite, inp, g.iss, now).Some? then !Lists(SuppliedSnapshot(inp), g.jti)
    else PolicyFailMode(inp) != FAIL_CLOSED
  }

  lemma UsableLists(suite: Suite, inp: Claims, iss: string, jti: string, now: int)
    requires UsableSnapshot(suite, inp, iss, now).Some?
    ensures jti in UsableSnapshot(suite, inp, iss, now).value.jtis <==> Lists(SuppliedSnapshot(inp), jti)
  {
    hide VerifySnapshotTrust, SnapshotIsStale, PolicyOf, Lists;
    ListedMeaning(suite, SuppliedSnapshot(inp), UsableSnapshot(suite, inp, iss, now).value, jti);
  }

  /** Only a usable snapshot speaks; without one only the mode does. */
  lemma RevocationMeaning(suite: Suite, g: Grant, inp: Claims, now: int)
    ensures CheckRevocation(suite, g, inp, now)
         == if Unrevoked(suite, inp, g, now) then Ok(()) else Err("TCT_REVOKED")
  {
    hide VerifySnapshotTrust, SnapshotIsStale, PolicyFailMode, PolicyOf, Lists;
    if UsableSnapshot(suite, inp, g.iss, now).Some? {
      UsableLists(suite, inp, g.iss, g.jti, now);
    }
  }

  // ----- verify_tct -----

  /** `inp["tct_token"]` and its unverified claims. */
  function TokenOf(inp: Claims): Outcome<(string, Claims)> {
    if "tct_token" !in inp then Crash("KeyError")
    else if !inp["tct_token"].Str? then Err(BAD_TOKEN)
    else
      var p :- ParseCompact(inp["tct_token"].s, BAD_TOKEN);
      Ok((inp["tct_token"].s, p.claims))
  }

  function VerifyTctJws(suite: Suite, token: string, iss: string): Outcome<Grant> {
    var c :- VerifyJws(suite, token, iss, "aitp-tct+jwt", "TOKEN_TYP_MISMATCH", "TOKEN_ALG_MISMATCH", BAD_TOKEN,
                       CheckTctClaimsShape);
    ReadTct(c)
  }

  /** The semantic checks, in order: version, audience, expiry, context, binding, manifest bound. */
  function CheckTctClaims(suite: Suite, g: Grant, audience: Json, manifest: Json, now: int): Outcome<()> {
    var _ :- Need(g.ver == PROTOCOL_VERSION, "UNKNOWN_VERSION");
    var _ :- Need(audience == Null || audience == Str(g.aud), "AUDIENCE_MISMATCH");
    var _ :- Need(now < g.exp, "TCT_EXPIRED");
    var _ :- CheckGrantContext(g);
    var _ :- CheckBinding(suite, g);
    if manifest == Null then Ok(())
    else
      var outlives :- OutlivesManifest(suite, g.exp, manifest);
      Need(!outlives, "TCT_EXPIRES_AFTER_MANIFEST")
  }

  /** The checks of `verify_tct` that come before revocation. */
  function VerifyTctClaims(suite: Suite, inp: Claims, now: int): Outcome<Grant> {
    var (token, unverified) :- TokenOf(inp);
    var g :- VerifyTctJws(suite, token, TextOf(Get(unverified, "iss")));
    var _ :- CheckTctClaims(suite, g, Get(inp, "expected_audience"), Get(inp, "issuer_manifest"), now);
    Ok(g)
  }

  /** `verify_tct`. */
  function VerifyTct(suite: Suite, inp: Claims, now: int): Outcome<seq<string>> {
    var g :- VerifyTctClaims(suite, inp, now);
    var _ :- CheckRevocation(suite, g, inp, now);
    Ok(g.grants)
  }

  /** `token` is a TCT that the key in its own `iss` signed over these claims. */
  ghost predicate SignedGrant(suite: Suite, token: string, g: Grant) {
    exists c: Claims :: GrantSays(c, g) && Verified(suite, token, g.iss, "aitp-tct+jwt", c)
  }

  /** The Manifest has an expiry, and the grant's is not later. */
  ghost predicate WithinManifest(suite: Suite, exp: int, manifest: Json) {
    && manifest.Obj? && "expires_at" in manifest.members
    && PyInt(suite, manifest.members["expires_at"]).Ok?
    && exp <= PyInt(suite, manifest.members["expires_at"]).value
  }

  lemma ManifestMeaning(suite: Suite, exp: int, manifest: Json)
    ensures OutlivesManifest(suite, exp, manifest) == Ok(false) <==> WithinManifest(suite, exp, manifest)
  {
    hide PyInt;
  }

  /** A signed, live, audience-bound and key-bound grant, inside its issuer's manifest if one is given. */
  ghost predicate ValidGrant(suite: Suite, inp: Claims, now: int, g: Grant) {
    && Get(inp, "tct_token").Str?
    && SignedGrant(suite, Get(inp, "tct_token").s, g)
    && g.ver == PROTOCOL_VERSION
    && Get(inp, "expected_audience") in {Null, Str(g.aud)}
    && now < g.exp
    && g.iss != g.sub && "aitp.attestation" !in g.grants
    && ParseAid(suite, g.sub).Some?
    && g.jkt == Str(Thumbprint(suite, ParseAid(suite, g.sub).value))
    && (Get(inp, "issuer_manifest") == Null
        || WithinManifest(suite, g.exp, Get(inp, "issuer_manifest")))
  }

  lemma ReadIssuer(c: Claims)
    requires ReadTct(c).Ok?
    ensures TextOf(Get(c, "iss")) == ReadTct(c).value.iss
  {
  }

  lemma VerifiedClaims(suite: Suite, token: string, iss: string, typ: string, c: Claims)
    requires Verified(suite, token, iss, typ, c)
    ensures ParseCompact(token, BAD_TOKEN).Ok? && ParseCompact(token, BAD_TOKEN).value.claims == c
  {
    ParseCompactCode(token, BAD_TOKEN, "");
    hide ParseCompact, ParseAid, VerifyJose;
  }

  /** The JWS step takes the issuer from the unverified claims, and that is the verified one. */
  lemma TctJwsMeaning(suite: Suite, token: string, g: Grant)
    requires ParseCompact(token, BAD_TOKEN).Ok?
    ensures var iss := TextOf(Get(ParseCompact(token, BAD_TOKEN).value.claims, "iss"));
            VerifyTctJws(suite, token, iss) == Ok(g) <==> SignedGrant(suite, token, g)
  {
    hide ParseCompact, ReadTct, GrantSays, Verified, VerifyJws;
    forall x: Claims ensures ReadTct(x) == Ok(g) <==> GrantSays(x, g) {
      ReadTctMeaning(x, g);
    }
    var c := ParseCompact(token, BAD_TOKEN).value.claims;
    var iss := TextOf(Get(c, "iss"));
    var r := VerifyJws(suite, token, iss, "aitp-tct+jwt", "TOKEN_TYP_MISMATCH", "TOKEN_ALG_MISMATCH", BAD_TOKEN,
                       CheckTctClaimsShape);
    if VerifyTctJws(suite, token, iss) == Ok(g) {
      VerifyJwsMeaning(suite, token, iss, "aitp-tct+jwt", "TOKEN_TYP_MISMATCH", "TOKEN_ALG_MISMATCH", BAD_TOKEN,
                       CheckTctClaimsShape, r.value);
      VerifiedClaims(suite, token, iss, "aitp-tct+jwt", r.value);
      ReadIssuer(c);
    }
    if SignedGrant(suite, token, g) {
      var x: Claims :| GrantSays(x, g) && Verified(suite, token, g.iss, "aitp-tct+jwt", x);
      VerifiedClaims(suite, token, g.iss, "aitp-tct+jwt", x);
      ReadIssuer(c);
      VerifyJwsMeaning(suite, token, iss, "aitp-tct+jwt", "TOKEN_TYP_MISMATCH", "TOKEN_ALG_MISMATCH", BAD_TOKEN,
                       CheckTctClaimsShape, x);
    }
  }

  lemma TctClaimsMeaning(suite: Suite, inp: Claims, now: int, g: Grant)
    ensures VerifyTctClaims(suite, inp, now) == Ok(g) <==> ValidGrant(suite, inp, now, g)
  {
    hide ParseCompact, ParseAid, VerifyTctJws, OutlivesManifest, WithinManifest, Thumbprint, SignedGrant;
    ManifestMeaning(suite, g.exp, Get(inp, "issuer_manifest"));
    var token := Get(inp, "tct_token");
    if token.Str? {
      if ParseCompact(token.s, BAD_TOKEN).Ok? {
        TctJwsMeaning(suite, token.s, g);
      } else if SignedGrant(suite, token.s, g) {
        SignedParses(suite, token.s, g);
      }
    }
  }

  lemma SignedParses(suite: Suite, token: string, g: Grant)
    requires SignedGrant(suite, token, g)
    ensures ParseCompact(token, BAD_TOKEN).Ok?
  {
    hide ParseCompact, GrantSays, Verified;
    var x: Claims :| GrantSays(x, g) && Verified(suite, token, g.iss, "aitp-tct+jwt", x);
    VerifiedClaims(suite, token, g.iss, "aitp-tct+jwt", x);
  }

  /** `verify_tct` returns the grants of a valid, unrevoked grant and accepts nothing else. */
  lemma VerifyTctMeaning(suite: Suite, inp: Claims, now: int, grants: seq<string>)
    ensures VerifyTct(suite, inp, now) == Ok(grants) <==>
            exists g: Grant ::
              ValidGrant(suite, inp, now, g) && Unrevoked(suite, inp, g, now) && grants == g.grants
    ensures forall g | ValidGrant(suite, inp, now, g) && !Unrevoked(suite, inp, g, now) ::
              VerifyTct(suite, inp, now) == Err("TCT_REVOKED")
    ensures forall g | ValidGrant(suite, inp, now, g) && Unrevoked(suite, inp, g, now) ::
              VerifyTct(suite, inp, now) == Ok(g.grants)
  {
    hide ValidGrant, CheckRevocation, Unrevoked, VerifyTctClaims;
    var r := VerifyTctClaims(suite, inp, now);
    if r.Ok? {
      TctClaimsMeaning(suite, inp, now, r.value);
      RevocationMeaning(suite, r.value, inp, now);
    }
    forall g | ValidGrant(suite, inp, now, g) ensures r == Ok(g) {
      TctClaimsMeaning(suite, inp, now, g);
    }
  }

  /**
   * The signature comes first: a token that its issuer did not sign over well-formed claims fails
   * with a code of that step and never with a later one, so it never reaches a deny list.
   */
  lemma SignatureFirst(suite: Suite, inp: Claims, now: int)
    requires Get(inp, "tct_token").Str? && forall g :: !SignedGrant(suite, Get(inp, "tct_token").s, g)
    ensures VerifyTct(suite, inp, now) in {
              Err("TCT_SIGNATURE_INVALID"), Err("TOKEN_TYP_MISMATCH"), Err("TOKEN_ALG_MISMATCH"), Err("UNKNOWN_FIELD"),
              Crash("ValueError")}
  {
    hide SignedGrant, CheckTctClaims, CheckRevocation, TctTyped, ParseCompact, VerifyTctJws;
    var token := Get(inp, "tct_token").s;
    ParseCompactCode(token, BAD_TOKEN, "");
    if ParseCompact(token, BAD_TOKEN).Ok? {
      var iss := TextOf(Get(ParseCompact(token, BAD_TOKEN).value.claims, "iss"));
      JwsCodes(suite, token, iss);
      if VerifyTctJws(suite, token, iss).Ok? {
        TctJwsMeaning(suite, token, VerifyTctJws(suite, token, iss).value);
      }
    }
  }

  lemma JwsCodes(suite: Suite, token: string, iss: string)
    ensures var r := VerifyTctJws(suite, token, iss);
            r.Ok? || r in {Err("TCT_SIGNATURE_INVALID"), Err("TOKEN_TYP_MISMATCH"), Err("TOKEN_ALG_MISMATCH"),
                           Err("UNKNOWN_FIELD"), Crash("ValueError")}
  {
    hide TctTyped, ParseCompact, ParseAid, VerifyJose, IsUuidV4;
    ParseCompactCode(token, BAD_TOKEN, "");
  }

  /** The version and the audience are right. */
  ghost predicate Addressed(inp: Claims, g: Grant) {
    g.ver == PROTOCOL_VERSION && Get(inp, "expected_audience") in {Null, Str(g.aud)}
  }

  /** A capability grant: not self-issued and without the attestation marker. */
  ghost predicate InGrantContext(g: Grant) {
    g.iss != g.sub && "aitp.attestation" !in g.grants
  }

  /** Each defect of a signed grant has its own code, and an earlier defect hides a later one. */
  lemma GrantErrors(suite: Suite, inp: Claims, now: int, g: Grant)
    requires Get(inp, "tct_token").Str? && SignedGrant(suite, Get(inp, "tct_token").s, g)
    ensures var r := VerifyTct(suite, inp, now);
            && (r == Err("UNKNOWN_VERSION") <==> g.ver != PROTOCOL_VERSION)
            && (r == Err("AUDIENCE_MISMATCH") <==> g.ver == PROTOCOL_VERSION && !Addressed(inp, g))
            && (r == Err("TCT_EXPIRED") <==> Addressed(inp, g) && g.exp <= now)
            && (r == Err("TCT_CNF_MISMATCH") <==>
                && Addressed(inp, g) && now < g.exp && InGrantContext(g) && ParseAid(suite, g.sub).Some?
                && g.jkt != Str(Thumbprint(suite, ParseAid(suite, g.sub).value)))
            && (r == Err("TCT_REVOKED") <==> ValidGrant(suite, inp, now, g) && !Unrevoked(suite, inp, g, now))
  {
    hide SignedGrant, VerifyTct, VerifyTctClaims, CheckTctClaims, ValidGrant, Unrevoked, CheckRevocation, ParseAid,
         Thumbprint;
    RevokedApart();
    GrantVerdict(suite, inp, now, g);
    TctClaimsMeaning(suite, inp, now, g);
    RevocationMeaning(suite, g, inp, now);
    ClaimsErrors(suite, g, Get(inp, "expected_audience"), Get(inp, "issuer_manifest"), now);
  }

  lemma RevokedApart()
    ensures "TCT_REVOKED" !in {"UNKNOWN_VERSION", "AUDIENCE_MISMATCH", "TCT_EXPIRED", "TCT_CNF_MISMATCH"}
  {
    assert "TCT_REVOKED"[4] != "TCT_EXPIRED"[4];
  }

  lemma GrantVerdict(suite: Suite, inp: Claims, now: int, g: Grant)
    requires Get(inp, "tct_token").Str? && SignedGrant(suite, Get(inp, "tct_token").s, g)
    ensures var checked := CheckTctClaims(suite, g, Get(inp, "expected_audience"), Get(inp, "issuer_manifest"), now);
            && (checked.Ok? ==> VerifyTctClaims(suite, inp, now) == Ok(g))
            && (checked.Ok? && CheckRevocation(suite, g, inp, now).Ok? ==> VerifyTct(suite, inp, now) == Ok(g.grants))
            && (checked.Ok? && !CheckRevocation(suite, g, inp, now).Ok? ==>
                  VerifyTct(suite, inp, now) == CheckRevocation(suite, g, inp, now).PropagateFailure())
            && (!checked.Ok? ==>
                  !VerifyTctClaims(suite, inp, now).Ok? && VerifyTct(suite, inp, now) == checked.PropagateFailure())
  {
    hide SignedGrant, ParseCompact, VerifyTctJws, CheckTctClaims, CheckRevocation;
    SignedParses(suite, Get(inp, "tct_token").s, g);
    TctJwsMeaning(suite, Get(inp, "tct_token").s, g);
  }

  lemma ClaimsErrors(suite: Suite, g: Grant, audience: Json, manifest: Json, now: int)
    ensures var r := CheckTctClaims(suite, g, audience, manifest, now);
            var addressed := g.ver == PROTOCOL_VERSION && audience in {Null, Str(g.aud)};
            && r != Err("TCT_REVOKED")
            && (r == Err("UNKNOWN_VERSION") <==> g.ver != PROTOCOL_VERSION)
            && (r == Err("AUDIENCE_MISMATCH") <==> g.ver == PROTOCOL_VERSION && !addressed)
            && (r == Err("TCT_EXPIRED") <==> addressed && g.exp <= now)
            && (r == Err("TCT_CNF_MISMATCH") <==>
                && addressed && now < g.exp && InGrantContext(g) && ParseAid(suite, g.sub).Some?
                && g.jkt != Str(Thumbprint(suite, ParseAid(suite, g.sub).value)))
  {
    hide ParseAid, Thumbprint, PyInt;
    RevokedApart();
  }

  // ----- what the policy, the snapshot and the clock can change -----

  /** The inputs that the checks before revocation read. */
  ghost predicate SameToken(a: Claims, b: Claims) {
    && ("tct_token" in a <==> "tct_token" in b)
    && Get(a, "tct_token") == Get(b, "tct_token")
    && Get(a, "expected_audience") == Get(b, "expected_audience")
    && Get(a, "issuer_manifest") == Get(b, "issuer_manifest")
  }

  lemma ClaimsFrame(suite: Suite, a: Claims, b: Claims, now: int)
    requires SameToken(a, b)
    ensures VerifyTctClaims(suite, a, now) == VerifyTctClaims(suite, b, now)
  {
    hide VerifyTctJws, CheckTctClaims, ParseCompact;
  }

  lemma ModeFrame(suite: Suite, inp: Claims, mode: string, now: int)
    requires mode in ["fail_closed", "fail_open", "soft_fail"]
    ensures var changed := WithFailMode(inp, mode);
            && VerifyTctClaims(suite, changed, now) == VerifyTctClaims(suite, inp, now)
            && PolicyFailMode(changed) == mode
            && forall iss, t :: UsableSnapshot(suite, changed, iss, t) == UsableSnapshot(suite, inp, iss, t)
  {
    hide VerifyTctClaims, WithFailMode, VerifySnapshotTrust, SnapshotIsStale, PolicyFailMode, PolicyOf;
    OnlyTheMode(suite, inp, mode);
    ClaimsFrame(suite, WithFailMode(inp, mode), inp, now);
  }

  /**
   * Fail-mode refinement: the permissive modes agree, they accept whatever `fail_closed` accepts
   * and with the same grants, and what they add is exactly the grants without a usable snapshot.
   */
  lemma FailModes(suite: Suite, inp: Claims, now: int)
    ensures var closed := VerifyTct(suite, WithFailMode(inp, "fail_closed"), now);
            var soft := VerifyTct(suite, WithFailMode(inp, "soft_fail"), now);
            var open := VerifyTct(suite, WithFailMode(inp, "fail_open"), now);
            var g := VerifyTctClaims(suite, inp, now);
            && soft == open
            && (closed.Ok? ==> open == closed)
            && (closed.Ok? <==> open.Ok? && g.Ok? && UsableSnapshot(suite, inp, g.value.iss, now).Some?)
  {
    hide VerifyTctClaims, CheckRevocation;
    ModeFrame(suite, inp, "fail_closed", now);
    ModeFrame(suite, inp, "soft_fail", now);
    ModeFrame(suite, inp, "fail_open", now);
    hide UsableSnapshot, WithFailMode, PolicyFailMode;
    var g := VerifyTctClaims(suite, inp, now);
    if g.Ok? {
      RevocationMeaning(suite, g.value, WithFailMode(inp, "fail_closed"), now);
      RevocationMeaning(suite, g.value, WithFailMode(inp, "soft_fail"), now);
      RevocationMeaning(suite, g.value, WithFailMode(inp, "fail_open"), now);
    }
  }

  /**
   * Non-interference: a snapshot that is not usable for the token's issuer has no effect at all,
   * whatever it lists. The verdict is the one without any revocation source.
   */
  lemma UnusableIgnored(suite: Suite, inp: Claims, now: int)
    requires var g := VerifyTctClaims(suite, inp, now);
             g.Ok? ==> UsableSnapshot(suite, inp, g.value.iss, now).None?
    ensures VerifyTct(suite, inp, now) == VerifyTct(suite, inp - {"issuer_revocation_list"}, now)
  {
    var without := inp - {"issuer_revocation_list"};
    ClaimsFrame(suite, inp, without, now);
    assert PolicyFailMode(without) == PolicyFailMode(inp);
    var g := VerifyTctClaims(suite, inp, now);
    if g.Ok? {
      assert UsableSnapshot(suite, without, g.value.iss, now).None?;
      RevocationMeaning(suite, g.value, inp, now);
      RevocationMeaning(suite, g.value, without, now);
    }
    hide VerifyTctClaims, CheckRevocation, UsableSnapshot, PolicyFailMode;
  }

  lemma ClaimsEarlier(suite: Suite, inp: Claims, now: int, earlier: int)
    requires earlier <= now && VerifyTctClaims(suite, inp, now).Ok?
    ensures VerifyTctClaims(suite, inp, earlier) == VerifyTctClaims(suite, inp, now)
  {
    hide TokenOf, VerifyTctJws, CheckBinding, CheckGrantContext, OutlivesManifest;
  }

  /**
   * Time: a grant accepted now was accepted at an earlier time exactly when no snapshot that was
   * already usable then lists it. Under `fail_closed` that always holds.
   */
  lemma AcceptedEarlier(suite: Suite, inp: Claims, now: int, earlier: int)
    requires earlier <= now && VerifyTct(suite, inp, now).Ok?
    ensures VerifyTctClaims(suite, inp, now).Ok?
    ensures var g := VerifyTctClaims(suite, inp, now).value;
            VerifyTct(suite, inp, earlier) == VerifyTct(suite, inp, now)
            <==> !(UsableSnapshot(suite, inp, g.iss, earlier).Some? && Lists(SuppliedSnapshot(inp), g.jti))
    ensures PolicyFailMode(inp) == FAIL_CLOSED ==> VerifyTct(suite, inp, earlier) == VerifyTct(suite, inp, now)
  {
    ClaimsEarlier(suite, inp, now, earlier);
    var g := VerifyTctClaims(suite, inp, now).value;
    if UsableSnapshot(suite, inp, g.iss, now).Some? {
      UsableEarlier(suite, inp, g.iss, now, earlier);
    }
    RevocationMeaning(suite, g, inp, now);
    RevocationMeaning(suite, g, inp, earlier);
    hide VerifyTctClaims, CheckRevocation, UsableSnapshot, PolicyFailMode, Lists;
  }

  lemma UsableEarlier(suite: Suite, inp: Claims, iss: string, now: int, earlier: int)
    requires earlier <= now && UsableSnapshot(suite, inp, iss, now).Some?
    ensures UsableSnapshot(suite, inp, iss, earlier) == UsableSnapshot(suite, inp, iss, now)
  {
    FreshEarlier(suite, UsableSnapshot(suite, inp, iss, now).value, PolicyOf(inp), now, earlier);
    hide VerifySnapshotTrust;
  }
}
