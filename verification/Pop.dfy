/** Proof of possession (section 6.2 of RFC-AITP-0005) and the issuer's own verification (section 10.5). */
module Pop {
  import opened Wrappers
  import opened Bytes
  import opened KeyMath
  import opened Aids
  import opened Jcs
  import opened Jws
  import opened Fields
  import opened Envelopes
  import opened Tct
  import Base64Url

  const BAD_RESPONSE := "POP_RESPONSE_INVALID"
  const BAD_CHALLENGE := "POP_CHALLENGE_INVALID"

  /** An outstanding challenge; `expiresAt` is `None` when it is not an integer. */
  datatype Challenge = Challenge(jti: Json, nonce: Json, expiresAt: Option<int>)

  /** The challenge that a response with this jti and nonce answers: the first that matches. */
  function FirstMatch(challenges: seq<Challenge>, jti: string, nonce: string): (r: Option<Challenge>)
    ensures r.Some? ==>
              exists i | 0 <= i < |challenges| ::
                && challenges[i] == r.value && r.value.jti == Str(jti) && r.value.nonce == Str(nonce)
                && forall j | 0 <= j < i :: challenges[j].jti != Str(jti) || challenges[j].nonce != Str(nonce)
    ensures r.None? ==> forall c <- challenges :: c.jti != Str(jti) || c.nonce != Str(nonce)
  {
    if challenges == [] then None
    else if challenges[0].jti == Str(jti) && challenges[0].nonce == Str(nonce) then Some(challenges[0])
    else
      var r := FirstMatch(challenges[1..], jti, nonce);
      assert forall j | 0 < j < |challenges| :: challenges[j] == challenges[1..][j - 1];
      r
  }

  /** The text members of a `pop_response` payload. */
  datatype Response = Response(jti: string, nonceEcho: string, signature: string)

  /** The first block of `presenter_from_pop`: shape, sender, payload. */
  function ReadResponse(suite: Suite, envelope: Json): (r: Outcome<(Claims, Aid, Response)>)
    ensures r.Ok? ==> EnvelopeTyped(r.value.0)
  {
    match ValidateEnvelopeShape(envelope)
    case Err(_) => Err(BAD_RESPONSE)
    case Crash(kind) => Crash(kind)
    case Ok(env) =>
      var sender :- OrErr(ParseAid(suite, env["sender"].members["agent_id"].s), BAD_RESPONSE);
      var payload := env["payload"].members;
      var jti, echo, sig := Get(payload, "tct_jti"), Get(payload, "nonce_echo"), Get(payload, "pop_signature");
      if env["message_type"] != Str("pop_response") || !jti.Str? || !echo.Str? || !sig.Str? then Err(BAD_RESPONSE)
      else Ok((env, sender, Response(jti.s, echo.s, sig.s)))
  }

  /** The envelope is a `pop_response` from this sender, and its payload says this. */
  ghost predicate ResponseSays(suite: Suite, envelope: Json, env: Claims, sender: Aid, r: Response) {
    && envelope == Obj(env) && EnvelopeSays(env) && Get(env, "message_type") == Str("pop_response")
    && ParseAid(suite, TextOf(Get(Get(env, "sender").members, "agent_id"))) == Some(sender)
    && var payload := Get(env, "payload").members;
       && Get(payload, "tct_jti") == Str(r.jti) && Get(payload, "nonce_echo") == Str(r.nonceEcho)
       && Get(payload, "pop_signature") == Str(r.signature)
  }

  lemma ReadResponseMeaning(suite: Suite, envelope: Json, env: Claims, sender: Aid, r: Response)
    ensures ReadResponse(suite, envelope) == Ok((env, sender, r)) <==> ResponseSays(suite, envelope, env, sender, r)
  {
    hide EnvelopeTyped, SenderTyped, EnvelopeShape, EnvelopeSays, ParseAid;
    if envelope.Obj? {
      EnvelopeMeaning(envelope.members);
      ShapeParts(envelope.members);
    }
  }

  lemma ShapeParts(env: Claims)
    ensures EnvelopeShape(env) ==>
              && EnvelopeTyped(env) && SenderTyped(env["sender"].members)
              && env["sender"] == Get(env, "sender") && env["payload"] == Get(env, "payload")
              && env["message_type"] == Get(env, "message_type") && Get(env, "sender").Obj? && Get(env, "payload").Obj?
              && env["sender"].members["agent_id"] == Get(Get(env, "sender").members, "agent_id")
              && Get(Get(env, "sender").members, "agent_id").Str?
  {
    EnvelopeTypedMembers(env);
    hide EnvelopeTyped, ReadPattern, IsInteger;
    if EnvelopeShape(env) {
      SenderTypedMembers(env["sender"].members);
    }
  }

  /** The live challenge that the response answers, as nonce bytes. */
  function AnsweredNonce(outstanding: Outcome<seq<Challenge>>, r: Response, now: int): Outcome<bytes> {
    var challenges :- outstanding;
    var c :- OrErr(FirstMatch(challenges, r.jti, r.nonceEcho), BAD_RESPONSE);
    if c.expiresAt.None? || now >= c.expiresAt.value then Err(BAD_CHALLENGE)
    else OrErr(Base64Url.Decode(r.nonceEcho), BAD_CHALLENGE)
  }

  /**
   * `presenter_from_pop` on claims that may not have been verified. The outstanding challenges are
   * looked at, and may turn out not to be a list, only after the envelope and the jti.
   */
  function PresenterFromPop(suite: Suite, envelope: Json, outstanding: Outcome<seq<Challenge>>, claims: Claims, now: int)
    : Outcome<string>
  {
    var (env, sender, r) :- ReadResponse(suite, envelope);
    var _ :- VerifySender(suite, env, sender, BAD_RESPONSE);
    if "jti" !in claims then Crash("KeyError")
    else if Str(r.jti) != claims["jti"] then Err(BAD_RESPONSE)
    else
      var nonce :- AnsweredNonce(outstanding, r, now);
      ProvenSub(suite, claims, r.signature, nonce)
  }

  /** The last steps: the nonce is signed by the key in `sub`. */
  function ProvenSub(suite: Suite, claims: Claims, signature: string, nonce: bytes): Outcome<string> {
    if "sub" !in claims then Crash("KeyError")
    else if !claims["sub"].Str? then Crash("AttributeError")
    else
      match ParseAid(suite, claims["sub"].s)
      case None => Crash("ValueError")
      case Some(sub) =>
        var sig :- DecodeTagged(signature, sub.alg, BAD_RESPONSE);
        var _ :- Need(VerifyDigest(suite, sub, suite.sha256(nonce), sig), BAD_RESPONSE);
        Ok(claims["sub"].s)
  }

  /** The key in `sub` signed the nonce. */
  ghost predicate SignsNonce(suite: Suite, sub: string, signature: string, nonce: bytes) {
    && ParseAid(suite, sub).Some?
    && var aid := ParseAid(suite, sub).value;
       var raw := DecodeTagged(signature, aid.alg, BAD_RESPONSE);
       raw.Ok? && VerifyDigest(suite, aid, suite.sha256(nonce), raw.value)
  }

  lemma ProvenSubMeaning(suite: Suite, claims: Claims, signature: string, nonce: bytes, presenter: string)
    ensures ProvenSub(suite, claims, signature, nonce) == Ok(presenter)
            <==> Get(claims, "sub") == Str(presenter) && SignsNonce(suite, presenter, signature, nonce)
  {
    hide ParseAid, DecodeTagged, VerifyDigest;
  }

  /** The key in `sub` signed the nonce of a challenge that was live at `now`. */
  ghost predicate Proves(suite: Suite, c: Challenge, jti: string, sub: string, sig: string, now: int) {
    && c.jti == Str(jti) && c.nonce.Str?
    && c.expiresAt.Some? && now < c.expiresAt.value
    && Base64Url.Decode(c.nonce.s).Some? && SignsNonce(suite, sub, sig, Base64Url.Decode(c.nonce.s).value)
  }

  /** The envelope is a signed response for this jti, and the first challenge it matches proves `sub`. */
  ghost predicate ValidResponse(suite: Suite, envelope: Json, outstanding: Outcome<seq<Challenge>>,
                                jti: string, sub: string, now: int)
  {
    exists env: Claims, sender: Aid, r: Response ::
      && ResponseSays(suite, envelope, env, sender, r) && EnvelopeTyped(env)
      && VerifySender(suite, env, sender, BAD_RESPONSE).Ok?
      && r.jti == jti && outstanding.Ok?
      && var c := FirstMatch(outstanding.value, jti, r.nonceEcho);
         c.Some? && Proves(suite, c.value, jti, sub, r.signature, now)
  }

  /** The same in terms of the one reading there is. */
  lemma ValidResponseRead(suite: Suite, envelope: Json, outstanding: Outcome<seq<Challenge>>,
                          jti: string, sub: string, now: int)
    ensures ValidResponse(suite, envelope, outstanding, jti, sub, now) <==>
            var r := ReadResponse(suite, envelope);
            && r.Ok? && VerifySender(suite, r.value.0, r.value.1, BAD_RESPONSE).Ok?
            && r.value.2.jti == jti && outstanding.Ok?
            && var c := FirstMatch(outstanding.value, jti, r.value.2.nonceEcho);
               c.Some? && Proves(suite, c.value, jti, sub, r.value.2.signature, now)
  {
    hide ReadResponse, ResponseSays, EnvelopeTyped, VerifySender, FirstMatch, Proves;
    forall env: Claims, sender: Aid, r: Response
      ensures ReadResponse(suite, envelope) == Ok((env, sender, r)) <==> ResponseSays(suite, envelope, env, sender, r)
    {
      ReadResponseMeaning(suite, envelope, env, sender, r);
    }
    var r := ReadResponse(suite, envelope);
    if r.Ok? {
      assert ResponseSays(suite, envelope, r.value.0, r.value.1, r.value.2);
    }
  }

  /** The first outstanding challenge that the response matches proves `sub`. */
  ghost predicate AnswersOne(suite: Suite, outstanding: Outcome<seq<Challenge>>, r: Response, sub: string, now: int) {
    && outstanding.Ok?
    && var c := FirstMatch(outstanding.value, r.jti, r.nonceEcho);
       c.Some? && Proves(suite, c.value, r.jti, sub, r.signature, now)
  }

  lemma AnsweredMeaning(suite: Suite, outstanding: Outcome<seq<Challenge>>, r: Response, sub: string, now: int)
    ensures AnswersOne(suite, outstanding, r, sub, now) <==>
            var nonce := AnsweredNonce(outstanding, r, now);
            nonce.Ok? && SignsNonce(suite, sub, r.signature, nonce.value)
  {
    hide SignsNonce, Base64Url.Decode, AnsweredNonce, FirstMatch;
    NonceMeaning(outstanding, r, now);
  }

  lemma PresenterSteps(suite: Suite, envelope: Json, outstanding: Outcome<seq<Challenge>>, claims: Claims, now: int,
                       presenter: string)
    ensures PresenterFromPop(suite, envelope, outstanding, claims, now) == Ok(presenter) <==>
            var x := ReadResponse(suite, envelope);
            && x.Ok? && VerifySender(suite, x.value.0, x.value.1, BAD_RESPONSE).Ok?
            && Get(claims, "jti") == Str(x.value.2.jti)
            && var nonce := AnsweredNonce(outstanding, x.value.2, now);
               nonce.Ok? && ProvenSub(suite, claims, x.value.2.signature, nonce.value) == Ok(presenter)
  {
    hide ProvenSub, VerifySender, ReadResponse, AnsweredNonce;
  }

  lemma ProvenAnswer(suite: Suite, outstanding: Outcome<seq<Challenge>>, r: Response, claims: Claims, now: int,
                     presenter: string)
    ensures AnswersOne(suite, outstanding, r, presenter, now) && Get(claims, "sub") == Str(presenter) <==>
            var nonce := AnsweredNonce(outstanding, r, now);
            nonce.Ok? && ProvenSub(suite, claims, r.signature, nonce.value) == Ok(presenter)
  {
    hide SignsNonce, ProvenSub, AnsweredNonce, AnswersOne;
    AnsweredMeaning(suite, outstanding, r, presenter, now);
    var nonce := AnsweredNonce(outstanding, r, now);
    if nonce.Ok? {
      ProvenSubMeaning(suite, claims, r.signature, nonce.value, presenter);
    }
  }

  /** A presenter is exactly the token's own `sub`, proved by a valid response for the token's jti. */
  lemma PresenterMeaning(suite: Suite, envelope: Json, outstanding: Outcome<seq<Challenge>>, claims: Claims, now: int,
                         presenter: string)
    ensures PresenterFromPop(suite, envelope, outstanding, claims, now) == Ok(presenter)
            <==>
            && Get(claims, "sub") == Str(presenter) && Get(claims, "jti").Str?
            && ValidResponse(suite, envelope, outstanding, Get(claims, "jti").s, presenter, now)
  {
    hide PresenterFromPop, ProvenSub, VerifySender, ReadResponse, AnsweredNonce, FirstMatch, ValidResponse, Proves, Get;
    PresenterSteps(suite, envelope, outstanding, claims, now, presenter);
    if Get(claims, "jti").Str? {
      ValidResponseRead(suite, envelope, outstanding, Get(claims, "jti").s, presenter, now);
    }
    var x := ReadResponse(suite, envelope);
    if x.Ok? {
      ProvenAnswer(suite, outstanding, x.value.2, claims, now, presenter);
    }
  }

  lemma NonceMeaning(outstanding: Outcome<seq<Challenge>>, r: Response, now: int)
    ensures var nonce := AnsweredNonce(outstanding, r, now);
            if outstanding.Ok? && FirstMatch(outstanding.value, r.jti, r.nonceEcho).Some? then
              var c := FirstMatch(outstanding.value, r.jti, r.nonceEcho).value;
              && c.jti == Str(r.jti) && c.nonce == Str(r.nonceEcho)
              && (nonce.Ok? <==>
                  c.expiresAt.Some? && now < c.expiresAt.value && Base64Url.Decode(r.nonceEcho).Some?)
              && (nonce.Ok? ==> Some(nonce.value) == Base64Url.Decode(r.nonceEcho))
            else !nonce.Ok?
  {
    hide Base64Url.Decode;
  }

  // ----- verify_tct_as_issuer -----

  /** `inp.get("outstanding_pop_challenges") or []`, the objects of it. */
  function OutstandingChallenges(v: Json): Outcome<seq<Challenge>> {
    match v
    case Arr(items) => Ok(ReadChallenges(items))
    case Bool(true) => Crash("TypeError")
    case Num(n) => if n.Zero? then Ok([]) else Crash("TypeError")
    case _ => Ok([])
  }

  /** A list is read; anything else counts as none, but what is true and cannot be iterated raises. */
  lemma OutstandingMeaning(v: Json)
    ensures OutstandingChallenges(v) ==
            if v.Arr? then Ok(ReadChallenges(v.items))
            else if v == Bool(true) || (v.Num? && !IsInt(v, 0)) then Crash("TypeError")
            else Ok([])
  {
    if v.Num? {
      ZeroMeaning(v.n);
    }
    hide IsInt;
  }

  function ChallengeOf(m: Claims): Challenge {
    var at := Get(m, "expires_at");
    Challenge(Get(m, "tct_jti"), Get(m, "nonce"), if HasKind(at, Integer) then Some(IntOf(at)) else None)
  }

  function ReadChallenges(items: seq<Json>): seq<Challenge> {
    if items == [] then []
    else (if items[0].Obj? then [ChallengeOf(items[0].members)] else []) + ReadChallenges(items[1..])
  }

  lemma OneChallenge(v: Json)
    ensures ReadChallenges([v]) == if v.Obj? then [ChallengeOf(v.members)] else []
  {
    hide ChallengeOf;
    assert [v][1..] == [] && ReadChallenges([]) == [];
  }

  /** Every object of the list is read, in order, and nothing else. */
  lemma {:induction false} ChallengesMeaning(items: seq<Json>, v: Json)
    ensures ReadChallenges(items + [v]) == ReadChallenges(items) + (if v.Obj? then [ChallengeOf(v.members)] else [])
  {
    hide ChallengeOf;
    if items == [] {
      OneChallenge(v);
      assert items + [v] == [v];
    } else {
      assert (items + [v])[1..] == items[1..] + [v];
      ChallengesMeaning(items[1..], v);
      Assoc(if items[0].Obj? then [ChallengeOf(items[0].members)] else [], ReadChallenges(items[1..]),
            if v.Obj? then [ChallengeOf(v.members)] else []);
    }
  }

  /** What one challenge says: its jti, its nonce and, if it is an integer, its expiry. */
  lemma ChallengeMeaning(m: Claims, n: int)
    ensures ChallengeOf(m).jti == Get(m, "tct_jti") && ChallengeOf(m).nonce == Get(m, "nonce")
    ensures ChallengeOf(m).expiresAt == Some(n) <==> IsInt(Get(m, "expires_at"), n)
  {
    IntMeaning(Get(m, "expires_at"), n);
    hide IsInt, IntOf, IsInteger;
  }

  /** The presenter's authenticated source: an envelope, else a channel binding, else none. */
  function Presenter(suite: Suite, inp: Claims, g: Grant, now: int): Outcome<Json> {
    var envelope := Get(inp, "envelope");
    if envelope != Null then
      var outstanding := OutstandingChallenges(Get(inp, "outstanding_pop_challenges"));
      var p :- PresenterFromPop(suite, envelope, outstanding, map["jti" := Str(g.jti), "sub" := Str(g.sub)], now);
      Ok(Str(p))
    else if Get(inp, "channel_bound_aid") != Null then Ok(inp["channel_bound_aid"])
    else Err(BAD_RESPONSE)
  }

  /** The semantic checks of the issuer's side, in order. */
  function CheckIssuedClaims(suite: Suite, g: Grant, now: int): Outcome<()> {
    var _ :- Need(g.ver == PROTOCOL_VERSION, "UNKNOWN_VERSION");
    var _ :- Need(g.aud == g.sub, BAD_TOKEN);
    var _ :- Need(now < g.exp, "TCT_EXPIRED");
    var _ :- CheckGrantContext(g);
    CheckBinding(suite, g)
  }

  /** `verify_tct_as_issuer`: the presenter and the grants. */
  function VerifyTctAsIssuer(suite: Suite, inp: Claims, now: int): Outcome<(string, seq<string>)> {
    if "tct_token" !in inp || "self_aid" !in inp then Crash("KeyError")
    else
      var (token, unverified) :- TokenOf(inp);
      var _ :- Need(Get(unverified, "iss") == inp["self_aid"], BAD_TOKEN);
      var g :- VerifyTctJws(suite, token, TextOf(inp["self_aid"]));
      var _ :- CheckIssuedClaims(suite, g, now);
      var p :- Presenter(suite, inp, g, now);
      var _ :- Need(p == Str(g.sub), BAD_RESPONSE);
      var _ :- CheckRevocation(suite, g, inp, now);
      Ok((g.sub, g.grants))
  }

  /** `sub` answered an outstanding challenge, or the channel is bound to it. An envelope decides. */
  ghost predicate PresentedBySub(suite: Suite, inp: Claims, g: Grant, now: int) {
    if Get(inp, "envelope") == Null then Get(inp, "channel_bound_aid") == Str(g.sub)
    else
      ValidResponse(suite, Get(inp, "envelope"), OutstandingChallenges(Get(inp, "outstanding_pop_challenges")),
                    g.jti, g.sub, now)
  }

  lemma PresenterSource(suite: Suite, inp: Claims, g: Grant, now: int)
    ensures Presenter(suite, inp, g, now) == Ok(Str(g.sub)) <==> PresentedBySub(suite, inp, g, now)
  {
    hide PresenterFromPop, ValidResponse, OutstandingChallenges, ReadResponse;
    if Get(inp, "envelope") != Null {
      var outstanding := OutstandingChallenges(Get(inp, "outstanding_pop_challenges"));
      var claims := map["jti" := Str(g.jti), "sub" := Str(g.sub)];
      PresenterMeaning(suite, Get(inp, "envelope"), outstanding, claims, now, g.sub);
    }
  }

  /** The issuer's own live, key-bound grant with `aud` = `sub`. */
  ghost predicate OwnGrant(suite: Suite, inp: Claims, now: int, g: Grant) {
    && Get(inp, "tct_token").Str? && SignedGrant(suite, Get(inp, "tct_token").s, g)
    && Get(inp, "self_aid") == Str(g.iss)
    && g.ver == PROTOCOL_VERSION && g.aud == g.sub && now < g.exp
    && g.iss != g.sub && "aitp.attestation" !in g.grants
    && ParseAid(suite, g.sub).Some?
    && g.jkt == Str(Thumbprint(suite, ParseAid(suite, g.sub).value))
  }

  lemma OwnGrantMeaning(suite: Suite, inp: Claims, now: int, g: Grant)
    ensures OwnGrant(suite, inp, now, g) <==>
            && TokenOf(inp).Ok? && "self_aid" in inp && Get(TokenOf(inp).value.1, "iss") == inp["self_aid"]
            && VerifyTctJws(suite, TokenOf(inp).value.0, TextOf(inp["self_aid"])) == Ok(g)
            && CheckIssuedClaims(suite, g, now).Ok?
  {
    hide VerifyTctJws, ParseCompact, SignedGrant, ParseAid, Thumbprint;
    var token := Get(inp, "tct_token");
    if token.Str? {
      if SignedGrant(suite, token.s, g) {
        SignedIssuer(suite, token.s, g);
      }
      if ParseCompact(token.s, BAD_TOKEN).Ok? {
        TctJwsMeaning(suite, token.s, g);
      }
    }
  }

  /** What the issuer accepts: exactly its own unrevoked grants, presented by the grant's `sub`. */
  lemma IssuerSideMeaning(suite: Suite, inp: Claims, now: int, presenter: string, grants: seq<string>)
    ensures VerifyTctAsIssuer(suite, inp, now) == Ok((presenter, grants)) <==>
            exists g: Grant ::
              && OwnGrant(suite, inp, now, g) && PresentedBySub(suite, inp, g, now) && Unrevoked(suite, inp, g, now)
              && presenter == g.sub && grants == g.grants
  {
    if VerifyTctAsIssuer(suite, inp, now).Ok? {
      IssuerSound(suite, inp, now);
    }
    forall g: Grant | OwnGrant(suite, inp, now, g) && PresentedBySub(suite, inp, g, now) && Unrevoked(suite, inp, g, now)
      ensures VerifyTctAsIssuer(suite, inp, now) == Ok((g.sub, g.grants))
    {
      IssuerComplete(suite, inp, now, g);
    }
    hide VerifyTctAsIssuer, OwnGrant, PresentedBySub, Unrevoked;
  }

  lemma IssuerSound(suite: Suite, inp: Claims, now: int)
    requires VerifyTctAsIssuer(suite, inp, now).Ok?
    ensures exists g: Grant ::
              && OwnGrant(suite, inp, now, g) && PresentedBySub(suite, inp, g, now) && Unrevoked(suite, inp, g, now)
              && VerifyTctAsIssuer(suite, inp, now) == Ok((g.sub, g.grants))
  {
    hide VerifyTctJws, TokenOf, CheckRevocation, Unrevoked, CheckIssuedClaims, Presenter, PresentedBySub, OwnGrant;
    var g := VerifyTctJws(suite, TokenOf(inp).value.0, TextOf(inp["self_aid"])).value;
    OwnGrantMeaning(suite, inp, now, g);
    RevocationMeaning(suite, g, inp, now);
    PresenterSource(suite, inp, g, now);
  }

  lemma IssuerComplete(suite: Suite, inp: Claims, now: int, g: Grant)
    requires OwnGrant(suite, inp, now, g) && PresentedBySub(suite, inp, g, now) && Unrevoked(suite, inp, g, now)
    ensures VerifyTctAsIssuer(suite, inp, now) == Ok((g.sub, g.grants))
  {
    OwnGrantMeaning(suite, inp, now, g);
    TokenPresent(inp);
    hide VerifyTctJws, TokenOf, CheckRevocation, Unrevoked, CheckIssuedClaims, Presenter, PresentedBySub, OwnGrant;
    RevocationMeaning(suite, g, inp, now);
    PresenterSource(suite, inp, g, now);
  }

  lemma TokenPresent(inp: Claims)
    ensures TokenOf(inp).Ok? ==> "tct_token" in inp
  {
  }

  lemma SignedIssuer(suite: Suite, token: string, g: Grant)
    requires SignedGrant(suite, token, g)
    ensures ParseCompact(token, BAD_TOKEN).Ok?
    ensures Get(ParseCompact(token, BAD_TOKEN).value.claims, "iss") == Str(g.iss)
  {
    hide ParseCompact, IsWhole, IsInt, IsTexts, IsUuidV4, Verified;
    var x: Claims :| GrantSays(x, g) && Verified(suite, token, g.iss, "aitp-tct+jwt", x);
    VerifiedClaims(suite, token, g.iss, "aitp-tct+jwt", x);
  }
}
