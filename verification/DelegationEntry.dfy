/** What `verify_delegation_token` accepts, from its input alone. */
module DelegationEntry {
  import opened Wrappers
  import opened KeyMath
  import opened Jcs
  import opened Jws
  import opened Fields
  import opened Revocation
  import opened Snapshots
  import opened Delegation
  import opened DelegationSafety
  import opened DelegationPolicy

  /** A verifier set up from the input: its own AID, the clock, and the Manifests exactly where supplied. */
  ghost predicate SetUp(suite: Suite, inp: Claims, now: int, resolve: Resolver, v: Verifier) {
    && v.suite == suite && v.now == now && v.resolve == resolve && Get(inp, "self_aid") == Str(v.selfAid)
    && (if v.manifests.Some? then "issuer_manifests" in inp && inp["issuer_manifests"] == v.manifests.value
        else "issuer_manifests" !in inp)
  }

  /** A live hop to this verifier under the verifier's own voucher, with nothing against the source token. */
  ghost predicate SingleGranted(v: Verifier, inp: Claims, token: string, grants: seq<string>) {
    exists h: Hop, voucher: Voucher, bodies: seq<Body> ::
      && Signed(v, token, h) && h.iss != h.sub && h.aud == v.selfAid && v.now < h.exp
      && Authorises(v, voucher, h)
      && VerifiedBodies(v.suite, inp, v.selfAid) == Ok(bodies)
      && Clear(v.suite, inp, bodies, v.selfAid, voucher.srcJti, v.now)
      && grants == h.scope
  }

  /** A committed chain of such hops up to this token, in a verifier that opted in. */
  ghost predicate ChainGranted(v: Verifier, inp: Claims, token: string, grants: seq<string>) {
    && Get(inp, "_feature") == Str("experimental-multihop-delegation")
    && exists e: Evidence :: Accepts(v, inp, token, ClaimsOf(token), e) && grants == e.Last().scope
  }

  ghost predicate Granted(v: Verifier, inp: Claims, token: string, grants: seq<string>) {
    if "chain" in ClaimsOf(token) then ChainGranted(v, inp, token, grants) else SingleGranted(v, inp, token, grants)
  }

  lemma SetUpOne(suite: Suite, inp: Claims, now: int, resolve: Resolver, v: Verifier)
    ensures SetUp(suite, inp, now, resolve, v) <==>
            Get(inp, "self_aid").Str? && v == VerifierOf(suite, inp, now, resolve)
  {
  }

  /** The single-hop path with its revocation step. */
  lemma SingleMeaning(v: Verifier, inp: Claims, token: string, grants: seq<string>)
    ensures SingleGranted(v, inp, token, grants) <==>
            var p := SingleHopClaims(v, token);
            p.Ok? && CheckDelegationRevocation(inp, p.value).Ok? && p.value.grants == grants
  {
    hide SingleHopClaims, Signed, Authorises, VerifiedBodies, Clear, CheckDelegationRevocation, HopClear;
    var p := SingleHopClaims(v, token);
    if p.Ok? {
      SingleHopMeaning(v, token, p.value);
      RevocationMeaning(inp, p.value);
    }
    forall h: Hop, voucher: Voucher |
      && Signed(v, token, h) && h.iss != h.sub && h.aud == v.selfAid && v.now < h.exp
      && Authorises(v, voucher, h)
      ensures p == Ok(Pending(v, [], voucher.srcJti, h.scope))
    {
      SingleHopMeaning(v, token, Pending(v, [], voucher.srcJti, h.scope));
    }
  }

  lemma ChainGrantedMeaning(v: Verifier, inp: Claims, token: string, grants: seq<string>)
    ensures ChainGranted(v, inp, token, grants) <==>
            && Get(inp, "_feature") == Str("experimental-multihop-delegation")
            && var p := MultihopClaims(v, token, ClaimsOf(token));
               p.Ok? && CheckDelegationRevocation(inp, p.value).Ok? && p.value.grants == grants
  {
    hide MultihopClaims, Accepts, CheckDelegationRevocation, ClaimsOf;
    MultihopMeaning(v, inp, token, ClaimsOf(token), grants);
  }

  /** The two paths of the operation behind its guards. */
  lemma Paths(suite: Suite, inp: Claims, now: int, resolve: Resolver, grants: seq<string>)
    ensures VerifyDelegationToken(suite, inp, now, resolve) == Ok(grants) <==>
            var token := Get(inp, "delegation_token");
            && token.Str? && Get(inp, "self_aid").Str? && ParseCompact(token.s, "").Ok?
            && var v := VerifierOf(suite, inp, now, resolve);
               && ("chain" in ClaimsOf(token.s) ==> Get(inp, "_feature") == Str("experimental-multihop-delegation"))
               && var p := if "chain" in ClaimsOf(token.s) then MultihopClaims(v, token.s, ClaimsOf(token.s))
                           else SingleHopClaims(v, token.s);
                  p.Ok? && CheckDelegationRevocation(inp, p.value).Ok? && p.value.grants == grants
  {
    hide MultihopClaims, SingleHopClaims, CheckDelegationRevocation, ParseCompact;
    var token := Get(inp, "delegation_token");
    if token.Str? {
      ParseCompactCode(token.s, Delegation.BAD_TOKEN, "");
    }
  }

  /**
   * The whole operation: it returns `grants` exactly when the input names a verifier and a compact
   * token, and that token is granted on its own path. A token with a chain needs the opt-in.
   */
  lemma DelegationMeaning(suite: Suite, inp: Claims, now: int, resolve: Resolver, grants: seq<string>)
    ensures VerifyDelegationToken(suite, inp, now, resolve) == Ok(grants) <==>
            exists v: Verifier, token: string ::
              && SetUp(suite, inp, now, resolve, v) && Get(inp, "delegation_token") == Str(token)
              && Granted(v, inp, token, grants)
  {
    hide VerifyDelegationToken, MultihopClaims, SingleHopClaims, CheckDelegationRevocation, SingleGranted, ChainGranted,
         ParseCompact, SetUp, VerifierOf;
    Paths(suite, inp, now, resolve, grants);
    var v := VerifierOf(suite, inp, now, resolve);
    forall w: Verifier ensures SetUp(suite, inp, now, resolve, w) <==> Get(inp, "self_aid").Str? && w == v {
      SetUpOne(suite, inp, now, resolve, w);
    }
    var token := Get(inp, "delegation_token");
    if token.Str? {
      SingleMeaning(v, inp, token.s, grants);
      ChainGrantedMeaning(v, inp, token.s, grants);
      if SingleGranted(v, inp, token.s, grants) {
        SingleParses(v, inp, token.s, grants);
      }
      assert Get(inp, "self_aid").Str? ==> SetUp(suite, inp, now, resolve, v);
      if VerifyDelegationToken(suite, inp, now, resolve) == Ok(grants) {
        assert Granted(v, inp, token.s, grants);
      }
    }
    forall w: Verifier, text: string |
      SetUp(suite, inp, now, resolve, w) && Get(inp, "delegation_token") == Str(text) && Granted(w, inp, text, grants)
      ensures VerifyDelegationToken(suite, inp, now, resolve) == Ok(grants)
    {
      assert w == v && text == token.s;
    }
  }

  /** The input carries a token of the retired object form. */
  ghost predicate Retired(inp: Claims, v01: Claims) {
    Get(inp, "delegation_token") == Null && Get(inp, "delegation") == Obj(v01)
  }

  /** The JSON values that Python takes for false. */
  ghost predicate IsFalse(v: Json) {
    v in {Null, Bool(false), Str(""), Arr([]), Obj(map[])} || IsInt(v, 0)
  }

  lemma TruthyMeaning(v: Json)
    ensures Truthy(v) <==> !IsFalse(v)
  {
    if v.Num? {
      ZeroMeaning(v.n);
    }
    hide IsInt;
  }

  /** The guards have their own codes, ahead of every signature; a chain is refused without the opt-in. */
  lemma GuardCodes(suite: Suite, inp: Claims, now: int, resolve: Resolver, v01: Claims)
    ensures var r := VerifyDelegationToken(suite, inp, now, resolve);
            && (Retired(inp, v01) ==>
                  r == Err(if IsFalse(Get(v01, "chain")) then "DELEGATION_INVALID_SIGNATURE"
                           else "DELEGATION_MULTIHOP_NOT_SUPPORTED"))
            && (!Get(inp, "delegation_token").Str? && !Get(inp, "delegation").Obj? ==>
                  r == Err("DELEGATION_INVALID_SIGNATURE"))
    ensures Get(inp, "delegation_token").Str? ==>
              var r := VerifyDelegationToken(suite, inp, now, resolve);
              var token := Get(inp, "delegation_token").s;
              var optIn := Get(inp, "_feature") == Str("experimental-multihop-delegation");
              && (!ParseCompact(token, "").Ok? ==> r == Err("DELEGATION_INVALID_SIGNATURE"))
              && ("chain" in ClaimsOf(token) && !optIn ==> r == Err("DELEGATION_MULTIHOP_NOT_SUPPORTED"))
              && (ParseCompact(token, "").Ok? && ("chain" in ClaimsOf(token) ==> optIn) && !Get(inp, "self_aid").Str? ==>
                    r == Err("DELEGATION_AUDIENCE_MISMATCH"))
  {
    hide MultihopClaims, SingleHopClaims, CheckDelegationRevocation, ParseCompact, Truthy, IsFalse;
    TruthyMeaning(Get(v01, "chain"));
    var token := Get(inp, "delegation_token");
    if token.Str? {
      ParseCompactCode(token.s, Delegation.BAD_TOKEN, "");
    }
  }

  lemma SingleParses(v: Verifier, inp: Claims, token: string, grants: seq<string>)
    requires SingleGranted(v, inp, token, grants)
    ensures ParseCompact(token, "").Ok? && IsTexts(Get(ClaimsOf(token), "scope"), grants)
  {
    hide Verified, Authorises, VerifiedBodies, Clear, ClaimsOf, ParseCompact, ResolveIssuer, IsInt, IsTexts;
    var h: Hop :| Signed(v, token, h) && grants == h.scope;
    VerifiedParses(v.suite, token, h.iss, "aitp-delegation+jwt", ClaimsOf(token), "");
  }

  /** On both paths what is granted is the `scope` member of the token's own signed claims. */
  lemma GrantsAreScope(suite: Suite, inp: Claims, now: int, resolve: Resolver, grants: seq<string>)
    requires VerifyDelegationToken(suite, inp, now, resolve) == Ok(grants)
    ensures Get(inp, "delegation_token").Str?
    ensures IsTexts(Get(ClaimsOf(Get(inp, "delegation_token").s), "scope"), grants)
  {
    hide VerifyDelegationToken, SingleGranted, ChainGranted, SetUp, ClaimsOf, IsTexts, ParseCompact;
    DelegationMeaning(suite, inp, now, resolve, grants);
    var v: Verifier, token: string :|
      && SetUp(suite, inp, now, resolve, v) && Get(inp, "delegation_token") == Str(token)
      && Granted(v, inp, token, grants);
    if "chain" in ClaimsOf(token) {
      ChainScope(v, inp, token, grants);
    } else {
      SingleParses(v, inp, token, grants);
    }
  }

  lemma ChainScope(v: Verifier, inp: Claims, token: string, grants: seq<string>)
    requires ChainGranted(v, inp, token, grants)
    ensures IsTexts(Get(ClaimsOf(token), "scope"), grants)
  {
    hide Accepts, Multihop, ClaimsOf, IsTexts, CommittedChain, GenuineHop, HopSays, VoucherSays, CheckRoot, Set;
    MultihopMeaning(v, inp, token, ClaimsOf(token), grants);
    var e := AcceptedMultihop(v, inp, token, ClaimsOf(token));
  }
}
