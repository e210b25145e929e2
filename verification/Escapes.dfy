/** Exactly when an exception other than an `AitpError` leaves a verifier entry point. */
module Escapes {
  import opened Wrappers
  import opened KeyMath
  import opened Aids
  import opened Jcs
  import opened JcsSize
  import opened Jws
  import opened Fields
  import opened Revocation
  import opened Tct
  import opened Snapshots
  import opened ChainHash
  import opened Delegation
  import opened DelegationSafety
  import Utf8

  // ----- verify_tct -----

  /** The token has the right header and well-formed claims, and their issuer is no AID. */
  ghost predicate TctTokenEscapes(suite: Suite, token: string) {
    var p := ParseCompact(token, "");
    && p.Ok? && p.value.header.Keys == {"alg", "typ"} && p.value.header["typ"] == Str("aitp-tct+jwt")
    && ReadTct(p.value.claims).Ok? && ParseAid(suite, ReadTct(p.value.claims).value.iss).None?
  }

  /** The supplied Manifest has no usable expiry. */
  ghost predicate ManifestEscapes(suite: Suite, manifest: Json) {
    manifest != Null && OutlivesManifest(suite, 0, manifest).Crash?
  }

  lemma TctJwsEscapes(suite: Suite, token: string)
    requires ParseCompact(token, Tct.BAD_TOKEN).Ok?
    ensures var iss := TextOf(Get(ParseCompact(token, Tct.BAD_TOKEN).value.claims, "iss"));
            VerifyTctJws(suite, token, iss).Crash? <==> TctTokenEscapes(suite, token)
  {
    hide ParseCompact, ReadTct, ParseAid, VerifyJws;
    ParseCompactCode(token, Tct.BAD_TOKEN, "");
    var c := ParseCompact(token, "").value.claims;
    var iss := TextOf(Get(c, "iss"));
    forall x: Claims ensures !ReadTct(x).Crash? {
      ReadTctTotal(x);
    }
    VerifyJwsEscapes(suite, token, iss, "aitp-tct+jwt", "TOKEN_TYP_MISMATCH", "TOKEN_ALG_MISMATCH", Tct.BAD_TOKEN,
                     CheckTctClaimsShape);
    if ReadTct(c).Ok? {
      ReadIssuer(c);
    }
  }

  lemma ReadTctTotal(c: Claims)
    ensures !ReadTct(c).Crash?
  {
    hide TctTyped, IsUuidV4;
  }

  lemma ClaimsEscape(suite: Suite, g: Grant, audience: Json, manifest: Json, now: int)
    ensures CheckTctClaims(suite, g, audience, manifest, now).Crash?
            <==> CheckTctClaims(suite, g, audience, Null, now).Ok? && ManifestEscapes(suite, manifest)
  {
    hide ParseAid, Thumbprint;
  }

  /**
   * `verify_tct` raises something other than an `AitpError` exactly for a missing token argument, for
   * a well-formed token whose issuer is no AID, and for a Manifest without a usable expiry once the
   * grant has passed every check before it.
   */
  lemma VerifyTctEscapes(suite: Suite, inp: Claims, now: int)
    ensures VerifyTct(suite, inp, now).Crash? <==>
            || "tct_token" !in inp
            || (Get(inp, "tct_token").Str? && TctTokenEscapes(suite, Get(inp, "tct_token").s))
            || (&& VerifyTctClaims(suite, inp["issuer_manifest" := Null], now).Ok?
                && ManifestEscapes(suite, Get(inp, "issuer_manifest")))
  {
    hide ParseCompact, VerifyTctJws, CheckTctClaims, CheckRevocation, TctTokenEscapes, ManifestEscapes;
    var token := Get(inp, "tct_token");
    var other := inp["issuer_manifest" := Null];
    assert "tct_token" in other <==> "tct_token" in inp;
    assert Get(other, "tct_token") == token && Get(other, "issuer_manifest") == Null;
    assert Get(other, "expected_audience") == Get(inp, "expected_audience");
    if token.Str? {
      ParseCompactCode(token.s, Tct.BAD_TOKEN, "");
      if ParseCompact(token.s, Tct.BAD_TOKEN).Ok? {
        TctJwsEscapes(suite, token.s);
        var g := VerifyTctJws(suite, token.s, TextOf(Get(ParseCompact(token.s, Tct.BAD_TOKEN).value.claims, "iss")));
        if g.Ok? {
          ClaimsEscape(suite, g.value, Get(inp, "expected_audience"), Get(inp, "issuer_manifest"), now);
          RevocationMeaning(suite, g.value, inp, now);
        }
      } else {
        EscapesParse(suite, token.s);
      }
    }
  }

  lemma EscapesParse(suite: Suite, token: string)
    ensures TctTokenEscapes(suite, token) ==> ParseCompact(token, "").Ok?
  {
  }

  // ----- verify_delegation_token -----

  /** The token parses with the right header and type, and the issuer to verify it under is no AID. */
  ghost predicate TokenEscapes(suite: Suite, token: string, iss: string, typ: string) {
    var p := ParseCompact(token, "");
    && p.Ok? && p.value.header.Keys == {"alg", "typ"} && p.value.header["typ"] == Str(typ)
    && ParseAid(suite, iss).None?
  }

  /** Resolving the issuer raises, or it resolves and is no AID. */
  ghost predicate HopEscapes(v: Verifier, token: string) {
    var p := ParseCompact(token, "");
    && p.Ok?
    && var iss := Get(p.value.claims, "iss");
       var resolved := ResolveIssuer(v, iss);
       || resolved.Crash?
       || (resolved.Ok? && TokenEscapes(v.suite, token, TextOf(iss), "aitp-delegation+jwt"))
  }

  /** The voucher names the verifier as its issuer, and the verifier's own AID is none. */
  ghost predicate VoucherEscapes(v: Verifier, voucher: Option<string>) {
    && voucher.Some? && ParseCompact(voucher.value, "").Ok?
    && Get(ParseCompact(voucher.value, "").value.claims, "iss") == Str(v.selfAid)
    && TokenEscapes(v.suite, voucher.value, v.selfAid, "aitp-grant+jwt")
  }

  lemma SignedHopEscapes(v: Verifier, token: string)
    ensures SignedHop(v, token).Crash? <==> HopEscapes(v, token)
  {
    hide ParseCompact, ReadHop, ParseAid, VerifyJws, ResolveIssuer;
    ParseCompactCode(token, Delegation.BAD_TOKEN, "");
    var p := ParseCompact(token, "");
    if p.Ok? {
      var iss := TextOf(Get(p.value.claims, "iss"));
      VerifyJwsEscapes(v.suite, token, iss, "aitp-delegation+jwt", "TOKEN_TYP_MISMATCH", "TOKEN_ALG_MISMATCH",
                       Delegation.BAD_TOKEN, NoCheck());
      forall c ensures !ReadHop(c).Crash? {
        ReadHopTotal(c);
      }
    }
  }

  lemma ReadHopTotal(c: Claims)
    ensures !ReadHop(c).Crash? && !ReadVoucher(c).Crash?
  {
    hide HopTyped, VoucherTyped;
  }

  lemma SignedVoucherEscapes(v: Verifier, voucher: Option<string>)
    ensures SignedVoucher(v, voucher).Crash? <==> VoucherEscapes(v, voucher)
  {
    hide ParseCompact, ReadVoucher, ParseAid, VerifyJws;
    if voucher.Some? {
      ParseCompactCode(voucher.value, BAD_VOUCHER, "");
      VerifyJwsEscapes(v.suite, voucher.value, v.selfAid, "aitp-grant+jwt", "TOKEN_TYP_MISMATCH", "TOKEN_ALG_MISMATCH",
                       BAD_VOUCHER, NoCheck());
      forall c ensures !ReadVoucher(c).Crash? {
        ReadHopTotal(c);
      }
    }
  }

  lemma CheckRootEscapes(v: Verifier, h: Hop)
    ensures CheckRoot(v, h).Crash? <==> VoucherEscapes(v, h.voucher)
  {
    SignedVoucherEscapes(v, h.voucher);
    hide SignedVoucher, VoucherEscapes, Set;
  }

  ghost predicate SingleHopEscapes(v: Verifier, token: string) {
    || HopEscapes(v, token)
    || (&& SignedHop(v, token).Ok?
        && var h := SignedHop(v, token).value;
           h.iss != h.sub && h.aud == v.selfAid && v.now < h.exp && VoucherEscapes(v, h.voucher))
  }

  /** The hops before `i` pass, and hop `i` escapes by itself or, as the root, by its voucher. */
  ghost predicate HopAtEscapes(v: Verifier, hops: seq<string>, i: nat)
    requires i < |hops|
  {
    || HopEscapes(v, hops[i])
    || (&& i == 0 && HopAlone(v, hops[0]).Ok? && JtiAt(v, hops, 0) != "" && v.now < HopAlone(v, hops[0]).value.exp
        && VoucherEscapes(v, HopAlone(v, hops[0]).value.voucher))
  }

  /** A list of at most two entries, one of them not an ASCII string; or something that is no list. */
  ghost predicate ChainEscapes(v: Verifier, outer: Claims) {
    var chain := Get(outer, "chain");
    var items := ChainItems(chain);
    || items.Crash?
    || (&& items.Ok? && |items.value| + 1 <= MAX_DELEGATION_HOPS
        && (|| (exists x <- items.value :: !x.Str? || !Utf8.IsAscii(x.s))
            || (&& !chain.Arr? && ChainTexts(items.value).Ok?
                && ComputeChainHash(v.suite, ChainTexts(items.value).value).Ok?
                && Get(outer, "chain_hash") == Str(ComputeChainHash(v.suite, ChainTexts(items.value).value).value))))
  }

  lemma {:induction false} TextsEscape(items: seq<Json>)
    ensures ChainTexts(items).Crash? <==> exists x <- items :: !x.Str? || !Utf8.IsAscii(x.s)
    ensures ChainTexts(items).Crash? || (ChainTexts(items).Ok? && |ChainTexts(items).value| == |items|)
    ensures ChainTexts(items).Ok? ==> forall text <- ChainTexts(items).value :: Utf8.IsAscii(text)
  {
    hide Utf8.IsAscii;
    if items != [] {
      TextsEscape(items[1..]);
      assert forall x :: x in items <==> x == items[0] || x in items[1..];
    }
  }

  lemma ShortChainHashes(suite: Suite, chain: seq<string>)
    requires |chain| <= 2 && forall text <- chain :: Utf8.IsAscii(text)
    ensures ComputeChainHash(suite, chain).Ok?
  {
    hide Canonicalize, Digest, Utf8.Encode, Utf8.IsAscii, Within;
    var digests := DigestArray(suite, chain);
    forall x | x in digests.items ensures Within(x, 0, 1) {
      LeafWithin(x, 0, 1);
    }
    ArrayWithin(digests.items, 0, 1);
    SmallCanonicalizes(digests, 1, 1 + |digests.items| * 1);
  }

  lemma CommittedChainEscapes(v: Verifier, outer: Claims)
    ensures CommittedChain(v, outer).Crash? <==> ChainEscapes(v, outer)
  {
    hide ComputeChainHash, ChainTexts, Utf8.IsAscii;
    var items := ChainItems(Get(outer, "chain"));
    if items.Ok? {
      TextsEscape(items.value);
      if |items.value| <= 2 && ChainTexts(items.value).Ok? {
        ShortChainHashes(v.suite, ChainTexts(items.value).value);
      }
    }
  }

  ghost predicate MultihopEscapes(v: Verifier, token: string, outer: Claims) {
    var chain := CommittedChain(v, outer);
    || ChainEscapes(v, outer)
    || (chain.Ok? && exists i: nat | i <= |chain.value| ::
          ChainOutcome(v, chain.value + [token], i).Ok? && HopAtEscapes(v, chain.value + [token], i))
  }

  lemma HopAloneEscapes(v: Verifier, token: string)
    ensures HopAlone(v, token).Crash? <==> HopEscapes(v, token)
  {
    SignedHopEscapes(v, token);
    hide SignedHop, HopEscapes, ParseAid, Thumbprint;
  }

  lemma HopOutcomeEscapes(v: Verifier, hops: seq<string>, i: nat)
    requires i < |hops| && ChainOutcome(v, hops, i).Ok?
    ensures HopOutcome(v, hops, i).Crash? <==> HopAtEscapes(v, hops, i)
  {
    hide HopAlone, HopEscapes, CheckRoot, VoucherEscapes, ChainOutcome, JtiAt, CheckLink;
    HopAloneEscapes(v, hops[i]);
    if i > 0 {
      PreviousAlone(v, hops, i);
      if HopAlone(v, hops[i]).Ok? {
        LinkTotal(HopAlone(v, hops[i - 1]).value, HopAlone(v, hops[i]).value);
      }
    } else if HopAlone(v, hops[0]).Ok? {
      CheckRootEscapes(v, HopAlone(v, hops[0]).value);
    }
  }

  lemma LinkTotal(prev: Hop, h: Hop)
    ensures !CheckLink(prev, h).Crash?
  {
  }

  lemma PreviousAlone(v: Verifier, hops: seq<string>, i: nat)
    requires 0 < i < |hops| && ChainOutcome(v, hops, i).Ok?
    ensures HopAlone(v, hops[i - 1]).Ok?
  {
    hide HopAlone, CheckRoot, CheckLink, JtiAt;
    assert HopOutcome(v, hops, i - 1).Ok?;
  }

  lemma {:induction false} LoopEscapes(v: Verifier, hops: seq<string>, n: nat)
    requires n <= |hops|
    ensures ChainOutcome(v, hops, n).Crash?
            <==> exists i: nat | i < n :: ChainOutcome(v, hops, i).Ok? && HopAtEscapes(v, hops, i)
  {
    hide HopOutcome, HopAtEscapes;
    if n > 0 {
      LoopEscapes(v, hops, n - 1);
      if ChainOutcome(v, hops, n - 1).Ok? {
        HopOutcomeEscapes(v, hops, n - 1);
        ChainNoEscape(v, hops, n - 1);
      }
    }
  }

  lemma ChainNoEscape(v: Verifier, hops: seq<string>, n: nat)
    requires n <= |hops| && ChainOutcome(v, hops, n).Ok?
    ensures forall i: nat | i < n :: !(ChainOutcome(v, hops, i).Ok? && HopAtEscapes(v, hops, i))
  {
    ChainAll(v, hops, n);
    forall i: nat | i < n && ChainOutcome(v, hops, i).Ok? ensures !HopAtEscapes(v, hops, i) {
      HopOutcomeEscapes(v, hops, i);
    }
  }

  lemma SingleHopClaimsEscape(v: Verifier, token: string)
    ensures SingleHopClaims(v, token).Crash? <==> SingleHopEscapes(v, token)
  {
    hide SignedHop, HopEscapes, CheckRoot, VoucherEscapes;
    SignedHopEscapes(v, token);
    if SignedHop(v, token).Ok? {
      CheckRootEscapes(v, SignedHop(v, token).value);
    }
  }

  lemma MultihopClaimsEscape(v: Verifier, token: string, outer: Claims)
    ensures MultihopClaims(v, token, outer).Crash? <==> MultihopEscapes(v, token, outer)
  {
    hide CommittedChain, ChainOutcome, HopAlone, CheckRoot, HopAtEscapes, ChainEscapes;
    CommittedChainEscapes(v, outer);
    var chain := CommittedChain(v, outer);
    if chain.Ok? {
      var hops := chain.value + [token];
      LoopEscapes(v, hops, |hops|);
      if ChainOutcome(v, hops, |hops|).Ok? {
        AcceptedParts(v, hops);
        assert hops[|hops| - 1] == token;
      }
    }
  }

  lemma AcceptedParts(v: Verifier, hops: seq<string>)
    requires hops != [] && ChainOutcome(v, hops, |hops|).Ok?
    ensures HopAlone(v, hops[0]).Ok? && HopAlone(v, hops[|hops| - 1]).Ok?
    ensures CheckRoot(v, HopAlone(v, hops[0]).value).Ok?
  {
    AcceptedIsValid(v, hops);
    assert Views(v, hops)[0] == HopAlone(v, hops[0]).value;
    hide ChainOutcome, HopAlone, CheckRoot, ValidChain;
  }

  lemma {:induction false} SweepTotal(index: map<string, set<string>>, mode: string, hops: seq<string>, n: nat)
    requires n <= |hops|
    ensures !SweepOutcome(index, mode, hops, n).Crash?
  {
    hide SweptNames, SweepHop;
    if n > 0 {
      SweepTotal(index, mode, hops, n - 1);
      SweptTotal(hops[n - 1]);
      SweepHopTotal(index, mode, hops[n - 1]);
    }
  }

  lemma SweepHopTotal(index: map<string, set<string>>, mode: string, hop: string)
    ensures SweptNames(hop).Ok? ==> !SweepHop(index, mode, SweptNames(hop).value.0, SweptNames(hop).value.1).Crash?
  {
    hide SweptNames;
  }

  lemma SweptTotal(hop: string)
    ensures !SweptNames(hop).Crash?
  {
    ParseCompactCode(hop, Delegation.BAD_TOKEN, "");
    hide ParseCompact;
  }

  lemma RevocationTotal(inp: Claims, p: Pending)
    ensures !CheckDelegationRevocation(inp, p).Crash?
  {
    hide Bodies, SweepOutcome, RevocationIndex, Fresh;
    var records := Records(inp);
    if records.Ok? {
      BodiesMeaning(p.v.suite, records.value, p.v.selfAid);
      var bodies := VerifiedBodies(p.v.suite, inp, p.v.selfAid);
      if bodies.Ok? {
        var index := RevocationIndex(Fresh(p.v.suite, bodies.value, PolicyOf(inp), p.v.now));
        SweepTotal(index, PolicyFailMode(inp), p.swept, |p.swept|);
      }
    }
  }

  /**
   * `verify_delegation_token` raises something other than an `AitpError` exactly when its guards pass
   * and a hop or the voucher escapes at a point that the checks before it let it reach, or the chain
   * claim itself cannot be hashed. Revocation never raises anything else.
   */
  lemma VerifyDelegationEscapes(suite: Suite, inp: Claims, now: int, resolve: Resolver)
    ensures VerifyDelegationToken(suite, inp, now, resolve).Crash? <==>
            && Get(inp, "delegation_token").Str? && Get(inp, "self_aid").Str?
            && var token := Get(inp, "delegation_token").s;
               var parsed := ParseCompact(token, "");
               var v := VerifierOf(suite, inp, now, resolve);
               && parsed.Ok?
               && if "chain" in parsed.value.claims then
                    && Get(inp, "_feature") == Str(MULTIHOP_FEATURE)
                    && MultihopEscapes(v, token, parsed.value.claims)
                  else SingleHopEscapes(v, token)
  {
    hide ParseCompact, SingleHopClaims, MultihopClaims, SingleHopEscapes, MultihopEscapes, CheckDelegationRevocation;
    var claims := VerifyDelegationClaims(suite, inp, now, resolve);
    if claims.Ok? {
      RevocationTotal(inp, claims.value);
    }
    var token := Get(inp, "delegation_token");
    if token.Str? {
      ParseCompactCode(token.s, Delegation.BAD_TOKEN, "");
      var v := VerifierOf(suite, inp, now, resolve);
      SingleHopClaimsEscape(v, token.s);
      if ParseCompact(token.s, "").Ok? {
        MultihopClaimsEscape(v, token.s, ParseCompact(token.s, "").value.claims);
      }
    }
  }
}
