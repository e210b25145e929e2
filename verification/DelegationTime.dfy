/** Delegations and the clock: what an acceptance now says about every earlier time. */
module DelegationTime {
  import opened Wrappers
  import opened KeyMath
  import opened Aids
  import opened Jcs
  import opened Jws
  import opened Fields
  import opened Revocation
  import opened ChainHash
  import opened Snapshots
  import opened Delegation
  import opened DelegationSafety
  import opened DelegationPolicy
  import opened DelegationVerdict

  function At(v: Verifier, t: int): Verifier { v.(now := t) }

  /** The issuer that the token names resolves, for this verifier at its time. */
  ghost predicate Resolves(v: Verifier, token: string) {
    var names := SweptNames(token);
    names.Ok? && ResolveIssuer(v, Str(names.value.0)).Ok?
  }

  lemma SignedResolves(v: Verifier, token: string)
    requires SignedHop(v, token).Ok?
    ensures Resolves(v, token)
  {
    hide SignedHop, SweptNames, HopSays, Verified, ResolveIssuer;
    var h := SignedHop(v, token).value;
    SignedHopMeaning(v, token, h);
    SignedNames(v, token, h);
  }

  /** Of a genuine hop only the resolution of its issuer depends on the clock. */
  lemma GenuineThen(v: Verifier, t: int, token: string, h: Hop)
    requires GenuineHop(v, token, h)
    ensures GenuineHop(At(v, t), token, h) <==> Resolves(At(v, t), token)
  {
    hide HopSays, Verified, ParseAid, Thumbprint, ResolveIssuer, SweptNames;
    SignedNames(v, token, h);
  }

  lemma AuthorisesEarlier(v: Verifier, t: int, voucher: Voucher, h: Hop)
    requires t <= v.now && Authorises(v, voucher, h)
    ensures Authorises(At(v, t), voucher, h)
  {
    hide VoucherSays, Verified;
  }

  lemma ChainEarlier(v: Verifier, t: int, hops: seq<string>, hs: seq<Hop>, voucher: Voucher)
    requires t <= v.now && ValidChain(v, hops, hs, voucher) && forall hop <- hops :: Resolves(At(v, t), hop)
    ensures ValidChain(At(v, t), hops, hs, voucher)
  {
    hide GenuineHop, Authorises, Continues, Resolves;
    forall i | 0 <= i < |hs| ensures GenuineHop(At(v, t), hops[i], hs[i]) {
      GenuineThen(v, t, hops[i], hs[i]);
    }
    AuthorisesEarlier(v, t, voucher, hs[0]);
  }

  /** The single-hop claims pass at an earlier time exactly when the issuer resolves then. */
  lemma SingleHopEarlier(v: Verifier, t: int, token: string)
    requires t <= v.now && SingleHopClaims(v, token).Ok?
    ensures var p := SingleHopClaims(v, token).value;
            var r := SingleHopClaims(At(v, t), token);
            if Resolves(At(v, t), token) then r == Ok(p.(v := At(v, t))) else !r.Ok?
  {
    hide SignedHop, CheckRoot, HopSays, Verified, Authorises, ResolveIssuer, SweptNames, Signed;
    var h := SignedHop(v, token).value;
    var voucher := CheckRoot(v, h).value;
    SignedHopMeaning(v, token, h);
    SignedThen(v, t, token, h);
    CheckRootMeaning(v, h, voucher);
    AuthorisesEarlier(v, t, voucher, h);
    CheckRootMeaning(At(v, t), h, voucher);
    SignedHopMeaning(At(v, t), token, h);
    if SignedHop(At(v, t), token).Ok? {
      SignedResolves(At(v, t), token);
    }
  }

  lemma SignedThen(v: Verifier, t: int, token: string, h: Hop)
    requires Signed(v, token, h)
    ensures Signed(At(v, t), token, h) <==> Resolves(At(v, t), token)
  {
    hide HopSays, Verified, ResolveIssuer, SweptNames;
    SignedNames(v, token, h);
  }

  /** The multi-hop claims pass at an earlier time exactly when every issuer resolves then. */
  lemma MultihopEarlier(v: Verifier, t: int, token: string, outer: Claims)
    requires t <= v.now && MultihopClaims(v, token, outer).Ok?
    ensures var p := MultihopClaims(v, token, outer).value;
            var r := MultihopClaims(At(v, t), token, outer);
            && p.swept != []
            && if forall hop <- p.swept :: Resolves(At(v, t), hop) then r == Ok(p.(v := At(v, t))) else !r.Ok?
  {
    hide CommittedChain, ChainOutcome, HopAlone, CheckRoot, ValidChain, ParseCompact, Resolves;
    CommittedEarlier(v, t, outer);
    var hops := CommittedChain(v, outer).value + [token];
    assert hops[|hops| - 1] == token;
    if forall hop <- hops :: Resolves(At(v, t), hop) {
      AcceptedEvidence(v, hops);
      var hs := Views(v, hops);
      var voucher := CheckRoot(v, hs[0]).value;
      ChainEarlier(v, t, hops, hs, voucher);
      AcceptedThen(At(v, t), hops, hs, voucher);
    } else if ChainOutcome(At(v, t), hops, |hops|).Ok? {
      ChainResolves(At(v, t), hops);
      assert false;
    }
  }

  lemma ChainResolves(v: Verifier, hops: seq<string>)
    requires ChainOutcome(v, hops, |hops|).Ok?
    ensures forall hop <- hops :: Resolves(v, hop)
  {
    AcceptedViews(v, hops);
    forall hop | hop in hops ensures Resolves(v, hop) {
      var i :| 0 <= i < |hops| && hops[i] == hop;
      assert HopAlone(v, hops[i]).Ok?;
      SignedResolves(v, hop);
    }
    hide *;
  }

  lemma CommittedEarlier(v: Verifier, t: int, outer: Claims)
    ensures CommittedChain(At(v, t), outer) == CommittedChain(v, outer)
  {
    hide ChainTexts, ComputeChainHash, ChainItems;
  }

  lemma AcceptedEvidence(v: Verifier, hops: seq<string>)
    requires hops != [] && ChainOutcome(v, hops, |hops|).Ok?
    ensures forall i | 0 <= i < |hops| :: HopAlone(v, hops[i]).Ok?
    ensures CheckRoot(v, Views(v, hops)[0]).Ok?
    ensures ValidChain(v, hops, Views(v, hops), CheckRoot(v, Views(v, hops)[0]).value)
    ensures HopAlone(v, hops[0]) == Ok(Views(v, hops)[0])
    ensures HopAlone(v, hops[|hops| - 1]) == Ok(Views(v, hops)[|hops| - 1])
  {
    AcceptedIsValid(v, hops);
    hide ChainOutcome, HopAlone, CheckRoot, ValidChain;
  }

  lemma AcceptedThen(v: Verifier, hops: seq<string>, hs: seq<Hop>, voucher: Voucher)
    requires hops != [] && |hs| == |hops| && ValidChain(v, hops, hs, voucher)
    ensures ChainOutcome(v, hops, |hops|).Ok? && CheckRoot(v, hs[0]) == Ok(voucher)
    ensures HopAlone(v, hops[0]) == Ok(hs[0]) && HopAlone(v, hops[|hops| - 1]) == Ok(hs[|hs| - 1])
  {
    ValidChainAccepted(v, hops, hs, voucher);
    hide ChainOutcome, HopAlone, CheckRoot, ValidChain;
  }

  /** The hops of a verified token: the whole chain, or the one token of the single-hop path. */
  function HopsOf(inp: Claims, p: Pending): seq<string> {
    if p.swept == [] then [TextOf(Get(inp, "delegation_token"))] else p.swept
  }

  ghost predicate AllResolve(inp: Claims, p: Pending) {
    forall hop <- HopsOf(inp, p) :: Resolves(p.v, hop)
  }

  lemma ClaimsEarlier(suite: Suite, inp: Claims, now: int, earlier: int, resolve: Resolver)
    requires earlier <= now && VerifyDelegationClaims(suite, inp, now, resolve).Ok?
    ensures var p := VerifyDelegationClaims(suite, inp, now, resolve).value;
            var before := p.(v := At(p.v, earlier));
            var r := VerifyDelegationClaims(suite, inp, earlier, resolve);
            if AllResolve(inp, before) then r == Ok(before) else !r.Ok?
  {
    hide ParseCompact, MultihopClaims, SingleHopClaims, RejectObjectToken, Resolves;
    RejectedObject(inp);
    var token := Get(inp, "delegation_token").s;
    var outer := ParseCompact(token, BAD_TOKEN).value.claims;
    var manifests := if "issuer_manifests" in inp then Some(inp["issuer_manifests"]) else None;
    var v := Verifier(suite, Get(inp, "self_aid").s, now, manifests, resolve);
    PendingVerifier(v, token, outer);
    if "chain" in outer {
      MultihopEarlier(v, earlier, token, outer);
    } else {
      SingleHopEarlier(v, earlier, token);
    }
  }

  lemma RejectedObject(inp: Claims)
    ensures Get(inp, "delegation").Obj? ==> !RejectObjectToken(Get(inp, "delegation").members).Ok?
  {
  }

  lemma PendingVerifier(v: Verifier, token: string, outer: Claims)
    ensures MultihopClaims(v, token, outer).Ok? ==> MultihopClaims(v, token, outer).value.v == v
    ensures SingleHopClaims(v, token).Ok? ==>
              SingleHopClaims(v, token).value.v == v && SingleHopClaims(v, token).value.swept == []
  {
    hide CommittedChain, ChainOutcome, HopAlone, CheckRoot, SignedHop;
  }

  /** Some body that was fresh at that time lists the source TCT or a swept hop. */
  ghost predicate ListedThen(inp: Claims, bodies: seq<Body>, p: Pending) {
    || ListedBy(p.v.suite, bodies, PolicyOf(inp), p.v.selfAid, p.srcJti, p.v.now)
    || exists i | 0 <= i < |p.swept| :: HopListed(p.v, inp, bodies, p.swept[i])
  }

  lemma CoveredEarlier(suite: Suite, bodies: seq<Body>, policy: Claims, iss: string, now: int, earlier: int)
    requires earlier <= now && Covered(suite, bodies, policy, iss, now)
    ensures Covered(suite, bodies, policy, iss, earlier)
  {
    var b :| b in bodies && b.issuer == iss && !SnapshotIsStale(suite, b, policy, now);
    FreshEarlier(suite, b, policy, now, earlier);
  }

  lemma ClearThen(v: Verifier, inp: Claims, bodies: seq<Body>, iss: string, jti: string, earlier: int)
    requires earlier <= v.now && Clear(v.suite, inp, bodies, iss, jti, v.now)
    ensures Clear(v.suite, inp, bodies, iss, jti, earlier)
            <==> !ListedBy(v.suite, bodies, PolicyOf(inp), iss, jti, earlier)
  {
    hide Covered, ListedBy, PolicyOf, PolicyFailMode;
    if Covered(v.suite, bodies, PolicyOf(inp), iss, v.now) {
      CoveredEarlier(v.suite, bodies, PolicyOf(inp), iss, v.now, earlier);
    }
  }

  /** A body of the hop's issuer, fresh at the verifier's time, lists the hop. */
  ghost predicate HopListed(v: Verifier, inp: Claims, bodies: seq<Body>, hop: string) {
    var names := SweptNames(hop);
    names.Ok? && names.value.1.Str? && ListedBy(v.suite, bodies, PolicyOf(inp), names.value.0, names.value.1.s, v.now)
  }

  lemma HopClearThen(v: Verifier, inp: Claims, bodies: seq<Body>, hop: string, earlier: int)
    requires earlier <= v.now && HopClear(v, inp, bodies, hop)
    ensures HopClear(At(v, earlier), inp, bodies, hop) <==> !HopListed(At(v, earlier), inp, bodies, hop)
  {
    hide Covered, ListedBy, SweptNames, PolicyOf, PolicyFailMode, Clear;
    var names := SweptNames(hop);
    if names.value.1.Str? {
      ClearThen(v, inp, bodies, names.value.0, names.value.1.s, earlier);
    } else if Covered(v.suite, bodies, PolicyOf(inp), names.value.0, v.now) {
      CoveredEarlier(v.suite, bodies, PolicyOf(inp), names.value.0, v.now, earlier);
    }
  }

  lemma ClearEarlier(inp: Claims, bodies: seq<Body>, p: Pending, earlier: int)
    requires earlier <= p.v.now && AllClear(p.v, inp, bodies, p.swept, p.srcJti)
    ensures AllClear(At(p.v, earlier), inp, bodies, p.swept, p.srcJti)
            <==> !ListedThen(inp, bodies, p.(v := At(p.v, earlier)))
  {
    hide Clear, ListedBy, HopClear, HopListed;
    ClearThen(p.v, inp, bodies, p.v.selfAid, p.srcJti, earlier);
    forall i | 0 <= i < |p.swept|
      ensures HopClear(At(p.v, earlier), inp, bodies, p.swept[i])
              <==> !HopListed(At(p.v, earlier), inp, bodies, p.swept[i])
    {
      HopClearThen(p.v, inp, bodies, p.swept[i], earlier);
    }
  }

  /**
   * In every mode a delegation accepted now was accepted at an earlier time, and then with the same
   * grants, exactly when the issuers of its hops resolved then and no body that was fresh then lists
   * its source TCT or one of its hops.
   */
  lemma AcceptedEarlier(suite: Suite, inp: Claims, now: int, earlier: int, resolve: Resolver)
    requires earlier <= now && VerifyDelegationToken(suite, inp, now, resolve).Ok?
    ensures VerifyDelegationClaims(suite, inp, now, resolve).Ok?
    ensures var p := VerifyDelegationClaims(suite, inp, now, resolve).value;
            var before := p.(v := At(p.v, earlier));
            var bodies := VerifiedBodies(suite, inp, p.v.selfAid);
            var r := VerifyDelegationToken(suite, inp, earlier, resolve);
            && bodies.Ok?
            && (r.Ok? <==> AllResolve(inp, before) && !ListedThen(inp, bodies.value, before))
            && (r.Ok? ==> r == VerifyDelegationToken(suite, inp, now, resolve))
  {
    hide VerifyDelegationClaims, CheckDelegationRevocation, VerifiedBodies, AllClear, ListedThen, AllResolve;
    var p := VerifyDelegationClaims(suite, inp, now, resolve).value;
    PendingSuite(suite, inp, now, resolve);
    PendingClock(suite, inp, now, resolve);
    ClaimsEarlier(suite, inp, now, earlier, resolve);
    var before := p.(v := At(p.v, earlier));
    RevocationMeaning(inp, p);
    RevocationMeaning(inp, before);
    ClearEarlier(inp, VerifiedBodies(suite, inp, p.v.selfAid).value, p, earlier);
  }

  lemma PendingClock(suite: Suite, inp: Claims, now: int, resolve: Resolver)
    requires VerifyDelegationClaims(suite, inp, now, resolve).Ok?
    ensures VerifyDelegationClaims(suite, inp, now, resolve).value.v.now == now
  {
    hide ParseCompact, SignedHop, CheckRoot, CommittedChain, ChainOutcome, HopAlone;
  }
}
