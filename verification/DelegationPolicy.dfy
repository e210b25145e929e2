/** Revocation of delegations: what is swept, the fail modes, and what cannot change a verdict. */
module DelegationPolicy {
  import opened Wrappers
  import opened Aids
  import opened Jcs
  import opened Jws
  import opened Fields
  import opened Revocation
  import opened ChainHash
  import opened Snapshots
  import opened Delegation
  import opened DelegationSafety
  import Utf8

  // ----- the revocation part, as one condition on the verified bodies -----

  /** What the sweep asks about one hop, as a direct scan of the bodies. */
  ghost predicate HopClear(v: Verifier, inp: Claims, bodies: seq<Body>, hop: string) {
    var names := SweptNames(hop);
    && names.Ok?
    && (if names.value.1.Str? then Clear(v.suite, inp, bodies, names.value.0, names.value.1.s, v.now)
        else Covered(v.suite, bodies, PolicyOf(inp), names.value.0, v.now) || PolicyFailMode(inp) != FAIL_CLOSED)
  }

  lemma SweepHopMeaning(v: Verifier, inp: Claims, bodies: seq<Body>, hop: string)
    ensures var index := RevocationIndex(Fresh(v.suite, bodies, PolicyOf(inp), v.now));
            var names := SweptNames(hop);
            HopClear(v, inp, bodies, hop)
            <==> names.Ok? && SweepHop(index, PolicyFailMode(inp), names.value.0, names.value.1).Ok?
  {
    hide SweptNames, Clear, Fresh, PolicyOf, PolicyFailMode, RevocationIndex;
    var names := SweptNames(hop);
    if names.Ok? {
      if names.value.1.Str? {
        SweepMeaning(v.suite, inp, bodies, names.value.0, names.value.1.s, v.now);
      } else {
        CoveredInIndex(v, inp, bodies, names.value.0);
      }
    }
  }

  lemma CoveredInIndex(v: Verifier, inp: Claims, bodies: seq<Body>, iss: string)
    ensures iss in RevocationIndex(Fresh(v.suite, bodies, PolicyOf(inp), v.now))
            <==> Covered(v.suite, bodies, PolicyOf(inp), iss, v.now)
  {
    var timely := Fresh(v.suite, bodies, PolicyOf(inp), v.now);
    assert forall b :: b in timely <==> b in bodies && !SnapshotIsStale(v.suite, b, PolicyOf(inp), v.now);
    IndexAgrees(timely, iss, "");
    hide SnapshotIsStale, PolicyOf, Fresh, RevocationIndex;
  }

  lemma {:induction false} SweepAll(v: Verifier, inp: Claims, bodies: seq<Body>, hops: seq<string>, n: nat)
    requires n <= |hops|
    ensures var index := RevocationIndex(Fresh(v.suite, bodies, PolicyOf(inp), v.now));
            SweepOutcome(index, PolicyFailMode(inp), hops, n).Ok?
            <==> forall i | 0 <= i < n :: HopClear(v, inp, bodies, hops[i])
  {
    hide HopClear, SweptNames, SweepHop, Fresh, RevocationIndex, PolicyOf, PolicyFailMode;
    if n > 0 {
      SweepAll(v, inp, bodies, hops, n - 1);
      SweepHopMeaning(v, inp, bodies, hops[n - 1]);
    }
  }

  /** The verifier's own list clears the source TCT, and each hop's issuer clears the hop. */
  ghost predicate AllClear(v: Verifier, inp: Claims, bodies: seq<Body>, hops: seq<string>, srcJti: string) {
    && Clear(v.suite, inp, bodies, v.selfAid, srcJti, v.now)
    && forall i | 0 <= i < |hops| :: HopClear(v, inp, bodies, hops[i])
  }

  lemma RevocationMeaning(inp: Claims, p: Pending)
    ensures var bodies := VerifiedBodies(p.v.suite, inp, p.v.selfAid);
            CheckDelegationRevocation(inp, p).Ok? <==> bodies.Ok? && AllClear(p.v, inp, bodies.value, p.swept, p.srcJti)
  {
    var v, hops, srcJti := p.v, p.swept, p.srcJti;
    hide VerifiedBodies, CheckSourceRevocation, SweepOutcome, Clear, HopClear, RevocationIndex, Fresh;
    var bodies := VerifiedBodies(v.suite, inp, v.selfAid);
    if bodies.Ok? {
      SourceMeaning(v.suite, inp, bodies.value, v.selfAid, srcJti, v.now);
      SweepAll(v, inp, bodies.value, hops, |hops|);
    }
  }

  /** A signed hop is swept under its own verified issuer and jti. */
  lemma SignedNames(v: Verifier, hop: string, h: Hop)
    requires Signed(v, hop, h)
    ensures SweptNames(hop).Ok? && SweptNames(hop).value.0 == h.iss
    ensures h.jti.Some? ==> SweptNames(hop).value.1 == Str(h.jti.value)
  {
    hide HopSays, Verified, ResolveIssuer;
    var x := ClaimsOf(hop);
    VerifiedParses(v.suite, hop, h.iss, "aitp-delegation+jwt", x, Delegation.BAD_TOKEN);
    HopIssuer(x, h);
  }

  // ----- multi-hop acceptance -----

  lemma {:induction false} ChainTextsMeaning(items: seq<Json>, texts: seq<string>)
    ensures ChainTexts(items) == Ok(texts) <==>
            && |texts| == |items|
            && forall i | 0 <= i < |items| :: items[i] == Str(texts[i]) && Utf8.IsAscii(texts[i])
  {
    hide Utf8.IsAscii;
    if items != [] {
      if texts != [] {
        ChainTextsMeaning(items[1..], texts[1..]);
        assert texts == [texts[0]] + texts[1..];
        if ChainTexts(items) == Ok(texts) {
          var rest := ChainTexts(items[1..]).value;
          assert texts[0] == ([items[0].s] + rest)[0] && texts[1..] == rest;
          forall i | 0 <= i < |items| ensures items[i] == Str(texts[i]) && Utf8.IsAscii(texts[i]) {
            if i > 0 {
              assert items[i] == items[1..][i - 1] && texts[i] == texts[1..][i - 1];
            }
          }
        }
      }
    }
  }

  /** At most two ASCII entries, committed to by `chain_hash`. */
  ghost predicate Commits(v: Verifier, outer: Claims, chain: seq<string>) {
    && IsTexts(Get(outer, "chain"), chain) && (forall entry <- chain :: Utf8.IsAscii(entry)) && |chain| <= 2
    && ComputeChainHash(v.suite, chain).Ok?
    && Get(outer, "chain_hash") == Str(ComputeChainHash(v.suite, chain).value)
  }

  lemma AsciiEntries(items: seq<Json>, texts: seq<string>)
    ensures IsTexts(Arr(items), texts) && (forall entry <- texts :: Utf8.IsAscii(entry))
            <==> |texts| == |items| && forall i | 0 <= i < |items| :: items[i] == Str(texts[i]) && Utf8.IsAscii(texts[i])
  {
    hide Utf8.IsAscii;
    if |texts| == |items| && forall i | 0 <= i < |items| :: items[i] == Str(texts[i]) && Utf8.IsAscii(texts[i]) {
      forall entry | entry in texts ensures Utf8.IsAscii(entry) {
        var i :| 0 <= i < |texts| && texts[i] == entry;
      }
    }
  }

  lemma CommittedChainMeaning(v: Verifier, outer: Claims, chain: seq<string>)
    ensures CommittedChain(v, outer) == Ok(chain) <==> Commits(v, outer, chain)
  {
    hide ComputeChainHash, ChainTexts, Utf8.IsAscii;
    if Get(outer, "chain").Arr? {
      ChainTextsMeaning(Get(outer, "chain").items, chain);
      AsciiEntries(Get(outer, "chain").items, chain);
    }
  }

  /** The parts of an accepted multi-hop token: entries, hops, root voucher and the verified bodies. */
  datatype Evidence = Evidence(chain: seq<string>, hs: seq<Hop>, voucher: Voucher, bodies: seq<Body>) {
    function Last(): Hop
      requires hs != []
    {
      hs[|hs| - 1]
    }
  }

  /** An accepted multi-hop token: its commitment, its valid chain, its clear revocation status. */
  ghost predicate Accepts(v: Verifier, inp: Claims, token: string, outer: Claims, e: Evidence): (r: bool)
    ensures r ==> e.hs != []
  {
    && Commits(v, outer, e.chain)
    && ValidChain(v, e.chain + [token], e.hs, e.voucher)
    && VerifiedBodies(v.suite, inp, v.selfAid) == Ok(e.bodies)
    && Clear(v.suite, inp, e.bodies, v.selfAid, e.voucher.srcJti, v.now)
    && forall h <- e.hs :: h.jti.Some? && Clear(v.suite, inp, e.bodies, h.iss, h.jti.value, v.now)
  }

  lemma HopsClear(v: Verifier, inp: Claims, hops: seq<string>, hs: seq<Hop>, voucher: Voucher, bodies: seq<Body>)
    requires ValidChain(v, hops, hs, voucher)
    ensures (forall i | 0 <= i < |hops| :: HopClear(v, inp, bodies, hops[i]))
            <==> forall h <- hs :: h.jti.Some? && Clear(v.suite, inp, bodies, h.iss, h.jti.value, v.now)
  {
    hide Signed, ParseAid, Thumbprint, Authorises, Continues, Clear, SweptNames;
    forall i | 0 <= i < |hops|
      ensures hs[i].jti.Some?
      ensures HopClear(v, inp, bodies, hops[i]) <==> Clear(v.suite, inp, bodies, hs[i].iss, hs[i].jti.value, v.now)
    {
      assert GenuineHop(v, hops[i], hs[i]);
      SignedNames(v, hops[i], hs[i]);
    }
    if forall i | 0 <= i < |hops| :: HopClear(v, inp, bodies, hops[i]) {
      forall h | h in hs ensures h.jti.Some? && Clear(v.suite, inp, bodies, h.iss, h.jti.value, v.now) {
        var i :| 0 <= i < |hs| && hs[i] == h;
        assert HopClear(v, inp, bodies, hops[i]);
      }
    }
  }

  /** `_verify_multihop` returns the last scope of exactly such a token. */
  lemma MultihopMeaning(v: Verifier, inp: Claims, token: string, outer: Claims, grants: seq<string>)
    ensures Multihop(v, inp, token, outer) == Ok(grants) <==>
            exists e: Evidence :: Accepts(v, inp, token, outer, e) && grants == e.Last().scope
  {
    if Multihop(v, inp, token, outer) == Ok(grants) {
      var e := MultihopSound(v, inp, token, outer);
    }
    forall e: Evidence | Accepts(v, inp, token, outer, e)
      ensures Multihop(v, inp, token, outer) == Ok(e.Last().scope)
    {
      MultihopComplete(v, inp, token, outer, e);
    }
    hide Multihop, Accepts;
  }

  lemma MultihopSound(v: Verifier, inp: Claims, token: string, outer: Claims) returns (e: Evidence)
    requires Multihop(v, inp, token, outer).Ok?
    ensures Accepts(v, inp, token, outer, e) && Multihop(v, inp, token, outer) == Ok(e.Last().scope)
  {
    hide CommittedChain, Commits, ChainOutcome, HopAlone, CheckRoot, CheckDelegationRevocation, ValidChain, VerifiedBodies,
         Clear, HopClear;
    var chain := CommittedChain(v, outer).value;
    CommittedChainMeaning(v, outer, chain);
    var hops := chain + [token];
    AcceptedIsValid(v, hops);
    var hs := Views(v, hops);
    var voucher := CheckRoot(v, hs[0]).value;
    RevocationMeaning(inp, Pending(v, hops, voucher.srcJti, hs[|hs| - 1].scope));
    var bodies := VerifiedBodies(v.suite, inp, v.selfAid).value;
    HopsClear(v, inp, hops, hs, voucher, bodies);
    assert hops[|hops| - 1] == token;
    e := Evidence(chain, hs, voucher, bodies);
  }

  lemma MultihopComplete(v: Verifier, inp: Claims, token: string, outer: Claims, e: Evidence)
    requires Accepts(v, inp, token, outer, e)
    ensures Multihop(v, inp, token, outer) == Ok(e.Last().scope)
  {
    var hops := e.chain + [token];
    ValidLength(v, hops, e.hs, e.voucher);
    hide CommittedChain, Commits, ChainOutcome, HopAlone, CheckRoot, CheckDelegationRevocation, ValidChain, VerifiedBodies,
         Clear, HopClear;
    CommittedChainMeaning(v, outer, e.chain);
    ValidChainAccepted(v, hops, e.hs, e.voucher);
    HopsClear(v, inp, hops, e.hs, e.voucher, e.bodies);
    RevocationMeaning(inp, Pending(v, hops, e.voucher.srcJti, e.Last().scope));
    assert hops[|hops| - 1] == token && HopAlone(v, hops[|hops| - 1]) == Ok(e.Last());
  }

  lemma ValidLength(v: Verifier, hops: seq<string>, hs: seq<Hop>, voucher: Voucher)
    requires ValidChain(v, hops, hs, voucher)
    ensures |hs| == |hops| > 0
  {
  }

  lemma EvidenceShape(v: Verifier, inp: Claims, token: string, outer: Claims, e: Evidence)
    requires Accepts(v, inp, token, outer, e)
    ensures 1 <= |e.hs| == |e.chain| + 1 <= MAX_DELEGATION_HOPS
    ensures e.voucher.iss == v.selfAid && e.voucher.sub == e.hs[0].iss
    ensures forall i | 0 <= i < |e.hs| :: GenuineHop(v, (e.chain + [token])[i], e.hs[i]) && v.now < e.hs[i].exp
    ensures forall i, j | 0 <= i < j < |e.hs| :: e.hs[i].jti != e.hs[j].jti
    ensures forall i | 0 <= i < |e.hs| - 1 :: e.hs[i].sub == e.hs[i + 1].iss
  {
    hide VerifiedBodies, GenuineHop, SignedBySelf, Set, Clear, ChainTexts, ComputeChainHash;
    SignedVoucherIssuer(v, e.hs[0].voucher, e.voucher);
    forall i | 0 <= i < |e.hs| - 1 ensures e.hs[i].sub == e.hs[i + 1].iss {
      assert Continues(e.hs[i + 1 - 1], e.hs[i + 1]);
    }
  }

  lemma EvidenceShrinks(v: Verifier, inp: Claims, token: string, outer: Claims, e: Evidence)
    requires Accepts(v, inp, token, outer, e)
    ensures forall i, j | 0 <= i <= j < |e.hs| ::
              && Set(e.hs[j].scope) <= Set(e.hs[i].scope) <= Set(e.voucher.grants)
              && e.hs[j].exp <= e.hs[i].exp <= e.voucher.exp
  {
    hide VerifiedBodies, Clear, Commits, ValidChain, Set;
    forall i: nat, j: nat | i <= j < |e.hs|
      ensures Set(e.hs[j].scope) <= Set(e.hs[i].scope) <= Set(e.voucher.grants)
      ensures e.hs[j].exp <= e.hs[i].exp <= e.voucher.exp
    {
      Attenuates(v, e.chain + [token], e.hs, e.voucher, i, j);
    }
  }

  /**
   * Safety of every accepted multi-hop token. It has at most three hops, each signed by its own
   * issuer and issued to the next, alive and with a jti of its own, from a voucher of the verifier
   * to the first delegator. Over any distance scope and expiry only shrink, inside the voucher's,
   * and what is granted is the `scope` member of the token's own claims.
   */
  lemma AcceptedMultihop(v: Verifier, inp: Claims, token: string, outer: Claims) returns (e: Evidence)
    requires Multihop(v, inp, token, outer).Ok?
    ensures CommittedChain(v, outer) == Ok(e.chain) && 1 <= |e.hs| == |e.chain| + 1 <= 3
    ensures Multihop(v, inp, token, outer) == Ok(e.Last().scope)
    ensures IsTexts(Get(ClaimsOf(token), "scope"), e.Last().scope)
    ensures forall i | 0 <= i < |e.hs| :: HopSays(ClaimsOf((e.chain + [token])[i]), e.hs[i])
    ensures e.hs[0].voucher.Some? && VoucherSays(ClaimsOf(e.hs[0].voucher.value), e.voucher)
    ensures forall i | 0 <= i < |e.hs| :: GenuineHop(v, (e.chain + [token])[i], e.hs[i]) && v.now < e.hs[i].exp
    ensures forall i, j | 0 <= i < j < |e.hs| :: e.hs[i].jti != e.hs[j].jti
    ensures forall i | 0 <= i < |e.hs| - 1 :: e.hs[i].sub == e.hs[i + 1].iss
    ensures e.voucher.iss == v.selfAid && e.voucher.sub == e.hs[0].iss
    ensures CheckRoot(v, e.hs[0]) == Ok(e.voucher)
    ensures forall i, j | 0 <= i <= j < |e.hs| ::
              && Set(e.hs[j].scope) <= Set(e.hs[i].scope) <= Set(e.voucher.grants)
              && e.hs[j].exp <= e.hs[i].exp <= e.voucher.exp
  {
    e := MultihopSound(v, inp, token, outer);
    AcceptsParts(v, inp, token, outer, e);
    hide Multihop, Accepts, CommittedChain, GenuineHop, CheckRoot, Set, HopSays, VoucherSays, IsTexts;
    EvidenceShape(v, inp, token, outer, e);
    EvidenceShrinks(v, inp, token, outer, e);
    EvidenceClaims(v, token, e);
  }

  lemma EvidenceClaims(v: Verifier, token: string, e: Evidence)
    requires |e.hs| == |e.chain| + 1 && CheckRoot(v, e.hs[0]) == Ok(e.voucher)
    requires forall i | 0 <= i < |e.hs| :: GenuineHop(v, (e.chain + [token])[i], e.hs[i])
    ensures forall i | 0 <= i < |e.hs| :: HopSays(ClaimsOf((e.chain + [token])[i]), e.hs[i])
    ensures IsTexts(Get(ClaimsOf(token), "scope"), e.Last().scope)
    ensures e.hs[0].voucher.Some? && VoucherSays(ClaimsOf(e.hs[0].voucher.value), e.voucher)
  {
    hide CheckRoot, ClaimsOf, Verified, ResolveIssuer, ParseAid, Thumbprint, VoucherSays, IsTexts;
    CheckRootMeaning(v, e.hs[0], e.voucher);
    var hops := e.chain + [token];
    assert hops[|e.hs| - 1] == token;
    assert GenuineHop(v, hops[|e.hs| - 1], e.hs[|e.hs| - 1]);
  }

  lemma AcceptsParts(v: Verifier, inp: Claims, token: string, outer: Claims, e: Evidence)
    requires Accepts(v, inp, token, outer, e)
    ensures CommittedChain(v, outer) == Ok(e.chain) && CheckRoot(v, e.hs[0]) == Ok(e.voucher)
  {
    CommittedChainMeaning(v, outer, e.chain);
    CheckRootMeaning(v, e.hs[0], e.voucher);
    hide CommittedChain, Commits, CheckRoot, Authorises, GenuineHop, Continues, VerifiedBodies, Clear;
  }

  lemma SignedVoucherIssuer(v: Verifier, token: Option<string>, voucher: Voucher)
    requires SignedBySelf(v, token, voucher)
    ensures voucher.iss == v.selfAid
  {
  }

  lemma OneHop(v: Verifier, token: string)
    requires ChainOutcome(v, [token], 1).Ok?
    ensures var h := HopAlone(v, token);
            h.Ok? && v.now < h.value.exp && CheckRoot(v, h.value).Ok?
  {
    hide HopAlone, CheckRoot, CheckLink;
    assert ChainOutcome(v, [token], 0).Ok? && HopOutcome(v, [token], 0).Ok?;
  }

  lemma HopIsSingle(v: Verifier, token: string)
    requires var h := HopAlone(v, token);
             h.Ok? && v.now < h.value.exp && CheckRoot(v, h.value).Ok?
    ensures var h := HopAlone(v, token).value;
            SingleHopClaims(v, token) == Ok(Pending(v, [], CheckRoot(v, h).value.srcJti, h.scope))
  {
    hide SignedHop, CheckRoot, ParseAid, Thumbprint;
  }

  lemma SweepNothing(inp: Claims, p: Pending)
    requires CheckDelegationRevocation(inp, p).Ok?
    ensures CheckDelegationRevocation(inp, p.(swept := [])).Ok?
  {
    hide VerifiedBodies, CheckSourceRevocation;
  }

  /** A multi-hop token with an empty chain passes every check of the single-hop path too. */
  lemma EmptyChainIsSingleHop(v: Verifier, inp: Claims, token: string, outer: Claims)
    requires CommittedChain(v, outer) == Ok([]) && Multihop(v, inp, token, outer).Ok?
    ensures var p := SingleHopClaims(v, token);
            && p.Ok? && CheckDelegationRevocation(inp, p.value).Ok?
            && Multihop(v, inp, token, outer) == Ok(p.value.grants)
  {
    hide CommittedChain, ChainOutcome, HopAlone, CheckRoot, SingleHopClaims, CheckDelegationRevocation;
    assert [] + [token] == [token];
    OneHop(v, token);
    HopIsSingle(v, token);
    SweepNothing(inp, MultihopClaims(v, token, outer).value);
  }
}
