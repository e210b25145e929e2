/** What an accepted delegation guarantees over its whole chain, and what cannot change a verdict. */
module DelegationSafety {
  import opened Wrappers
  import opened KeyMath
  import opened Aids
  import opened Jcs
  import opened Jws
  import opened Fields
  import opened Snapshots
  import opened Delegation

  // ----- one token -----

  /** The claims are a delegation's, with no other member, and say this. */
  ghost predicate HopSays(c: Claims, h: Hop) {
    && c.Keys <= {"ver", "iss", "sub", "aud", "scope", "exp", "cnf", "voucher", "jti", "chain", "chain_hash", "ext"}
    && Get(c, "ver") == Str(h.ver) && Get(c, "iss") == Str(h.iss) && Get(c, "sub") == Str(h.sub)
    && Get(c, "aud") == Str(h.aud) && IsTexts(Get(c, "scope"), h.scope) && IsInt(Get(c, "exp"), h.exp)
    && Get(c, "cnf").Obj? && Get(c, "cnf").members.Keys <= {"jkt"} && h.jkt == Get(Get(c, "cnf").members, "jkt")
    && MaybeText(c, "voucher", h.voucher) && MaybeText(c, "jti", h.jti)
    && ("chain" in c ==> c["chain"].Arr?) && ("chain_hash" in c ==> c["chain_hash"].Str?)
  }

  /** The member is this text, or absent. */
  ghost predicate MaybeText(c: Claims, name: string, text: Option<string>) {
    if text.Some? then Get(c, name) == Str(text.value) else name !in c
  }

  /** The claims are a grant voucher's, with no other member, and say this. */
  ghost predicate VoucherSays(c: Claims, voucher: Voucher) {
    && c.Keys <= {"ver", "iss", "sub", "grants", "iat", "exp", "src_jti", "ext"}
    && Get(c, "ver").Str? && Get(c, "iss") == Str(voucher.iss) && Get(c, "sub") == Str(voucher.sub)
    && IsTexts(Get(c, "grants"), voucher.grants) && IsWhole(Get(c, "iat")) && IsInt(Get(c, "exp"), voucher.exp)
    && Get(c, "src_jti") == Str(voucher.srcJti)
  }

  lemma HopTypedMembers(c: Claims)
    ensures HopTyped(c) <==>
            && Get(c, "ver").Str? && Get(c, "iss").Str? && Get(c, "sub").Str? && Get(c, "aud").Str?
            && Get(c, "scope").Arr? && AllStrings(Get(c, "scope").items) && HasKind(Get(c, "exp"), Integer)
            && Get(c, "cnf").Obj? && ("voucher" in c ==> c["voucher"].Str?) && ("jti" in c ==> c["jti"].Str?)
            && ("chain" in c ==> c["chain"].Arr?) && ("chain_hash" in c ==> c["chain_hash"].Str?)
  {
    hide IsInteger, AllStrings;
  }

  lemma HopOfMembers(c: Claims)
    requires HopTyped(c)
    ensures Get(c, "scope").Arr? && AllStrings(Get(c, "scope").items) && HasKind(Get(c, "exp"), Integer)
    ensures Get(c, "cnf").Obj? && c["cnf"] == Get(c, "cnf")
    ensures "voucher" in c ==> c["voucher"].Str?
    ensures "jti" in c ==> c["jti"].Str?
    ensures HopOf(c) == Hop(TextOf(Get(c, "ver")), TextOf(Get(c, "iss")), TextOf(Get(c, "sub")), TextOf(Get(c, "aud")),
                            Strings(Get(c, "scope").items), IntOf(Get(c, "exp")), Get(Get(c, "cnf").members, "jkt"),
                            OptionalText(c, "voucher"), OptionalText(c, "jti"))
  {
    hide IsInteger, AllStrings, Truncate;
  }

  lemma MaybeTextMeaning(c: Claims, name: string, text: Option<string>)
    requires name in c ==> c[name].Str?
    ensures OptionalText(c, name) == text <==> MaybeText(c, name, text)
  {
  }

  /** Reading a hop's claims succeeds exactly when they say so, with what they say. */
  lemma ReadHopMeaning(c: Claims, h: Hop)
    ensures ReadHop(c) == Ok(h) <==> HopSays(c, h)
  {
    hide HopTyped, HopOf, HasKind, AllStrings, Strings, IsInt, IsTexts, IntOf, MaybeText, OptionalText;
    HopTypedMembers(c);
    if HopTyped(c) {
      HopOfMembers(c);
      MaybeTextMeaning(c, "voucher", h.voucher);
      MaybeTextMeaning(c, "jti", h.jti);
    } else {
      MaybeTexts(c, h);
    }
    IntMeaning(Get(c, "exp"), h.exp);
    TextsMeaning(Get(c, "scope"), h.scope);
  }

  lemma MaybeTexts(c: Claims, h: Hop)
    ensures MaybeText(c, "voucher", h.voucher) ==> ("voucher" in c ==> c["voucher"].Str?)
    ensures MaybeText(c, "jti", h.jti) ==> ("jti" in c ==> c["jti"].Str?)
  {
  }

  lemma VoucherTypedMembers(c: Claims)
    ensures VoucherTyped(c) <==>
            && Get(c, "ver").Str? && Get(c, "iss").Str? && Get(c, "sub").Str?
            && Get(c, "grants").Arr? && AllStrings(Get(c, "grants").items) && HasKind(Get(c, "iat"), Integer)
            && HasKind(Get(c, "exp"), Integer) && Get(c, "src_jti").Str?
    ensures VoucherTyped(c) ==>
              && c["iss"] == Get(c, "iss") && c["sub"] == Get(c, "sub") && c["grants"] == Get(c, "grants")
              && c["exp"] == Get(c, "exp") && c["src_jti"] == Get(c, "src_jti")
  {
    hide IsInteger, AllStrings;
  }

  /** Reading a voucher's claims, likewise. */
  lemma ReadVoucherMeaning(c: Claims, voucher: Voucher)
    ensures ReadVoucher(c) == Ok(voucher) <==> VoucherSays(c, voucher)
  {
    hide VoucherTyped, HasKind, AllStrings, Strings, IsInt, IsWhole, IsTexts, IntOf;
    VoucherTypedMembers(c);
    IntMeaning(Get(c, "iat"), 0);
    IntMeaning(Get(c, "exp"), voucher.exp);
    TextsMeaning(Get(c, "grants"), voucher.grants);
  }

  /** The claims that a token carries, verified or not. */
  function ClaimsOf(token: string): Claims {
    var p := ParseCompact(token, "");
    if p.Ok? then p.value.claims else map[]
  }

  lemma VerifiedParses(suite: Suite, token: string, iss: string, typ: string, c: Claims, code: string)
    requires Verified(suite, token, iss, typ, c)
    ensures ParseCompact(token, code).Ok? && ParseCompact(token, code).value.claims == c
  {
    ParseCompactCode(token, code, "");
    hide ParseCompact, ParseAid, VerifyJose;
  }

  /** The issuer named inside `token` has a resolved key and signed these claims with it. */
  ghost predicate Signed(v: Verifier, token: string, h: Hop) {
    && ResolveIssuer(v, Str(h.iss)).Ok?
    && HopSays(ClaimsOf(token), h) && Verified(v.suite, token, h.iss, "aitp-delegation+jwt", ClaimsOf(token))
  }

  lemma SignedHopMeaning(v: Verifier, token: string, h: Hop)
    ensures SignedHop(v, token) == Ok(h) <==> Signed(v, token, h)
  {
    hide ParseCompact, ReadHop, HopSays, Verified, VerifyJws, ResolveIssuer;
    ReadHopMeaning(ClaimsOf(token), h);
    HopIssuer(ClaimsOf(token), h);
    ParseCompactCode(token, BAD_TOKEN, "");
    var p := ParseCompact(token, BAD_TOKEN);
    if p.Ok? {
      var iss := TextOf(Get(p.value.claims, "iss"));
      var r := VerifyJws(v.suite, token, iss, "aitp-delegation+jwt", "TOKEN_TYP_MISMATCH", "TOKEN_ALG_MISMATCH",
                         BAD_TOKEN, NoCheck());
      if SignedHop(v, token) == Ok(h) {
        VerifyJwsMeaning(v.suite, token, iss, "aitp-delegation+jwt", "TOKEN_TYP_MISMATCH", "TOKEN_ALG_MISMATCH",
                         BAD_TOKEN, NoCheck(), r.value);
        VerifiedParses(v.suite, token, iss, "aitp-delegation+jwt", r.value, BAD_TOKEN);
      }
    }
    if Signed(v, token, h) {
      var x := ClaimsOf(token);
      VerifiedParses(v.suite, token, h.iss, "aitp-delegation+jwt", x, BAD_TOKEN);
      VerifyJwsMeaning(v.suite, token, h.iss, "aitp-delegation+jwt", "TOKEN_TYP_MISMATCH", "TOKEN_ALG_MISMATCH",
                       BAD_TOKEN, NoCheck(), x);
    }
  }

  lemma HopIssuer(c: Claims, h: Hop)
    ensures HopSays(c, h) ==> Get(c, "iss") == Str(h.iss) && (h.jti.Some? ==> Get(c, "jti") == Str(h.jti.value))
  {
    hide IsInt, IsTexts;
  }

  lemma VoucherIssuer(c: Claims, voucher: Voucher)
    ensures VoucherSays(c, voucher) ==> Get(c, "iss") == Str(voucher.iss)
  {
    hide IsInt, IsTexts, IsWhole;
  }

  /** The verifier itself issued and signed the voucher. */
  ghost predicate SignedBySelf(v: Verifier, token: Option<string>, voucher: Voucher) {
    && token.Some? && voucher.iss == v.selfAid
    && VoucherSays(ClaimsOf(token.value), voucher)
    && Verified(v.suite, token.value, v.selfAid, "aitp-grant+jwt", ClaimsOf(token.value))
  }

  lemma SignedVoucherMeaning(v: Verifier, token: Option<string>, voucher: Voucher)
    ensures SignedVoucher(v, token) == Ok(voucher) <==> SignedBySelf(v, token, voucher)
  {
    hide ParseCompact, ReadVoucher, VoucherSays, Verified, VerifyJws;
    if token.Some? {
      ReadVoucherMeaning(ClaimsOf(token.value), voucher);
      VoucherIssuer(ClaimsOf(token.value), voucher);
      ParseCompactCode(token.value, BAD_VOUCHER, "");
    }
    if SignedVoucher(v, token) == Ok(voucher) {
      var r := VerifyJws(v.suite, token.value, v.selfAid, "aitp-grant+jwt", "TOKEN_TYP_MISMATCH", "TOKEN_ALG_MISMATCH",
                         BAD_VOUCHER, NoCheck());
      VerifyJwsMeaning(v.suite, token.value, v.selfAid, "aitp-grant+jwt", "TOKEN_TYP_MISMATCH", "TOKEN_ALG_MISMATCH",
                       BAD_VOUCHER, NoCheck(), r.value);
      VerifiedParses(v.suite, token.value, v.selfAid, "aitp-grant+jwt", r.value, BAD_VOUCHER);
    }
    if SignedBySelf(v, token, voucher) {
      var x := ClaimsOf(token.value);
      VerifiedParses(v.suite, token.value, v.selfAid, "aitp-grant+jwt", x, BAD_VOUCHER);
      VerifyJwsMeaning(v.suite, token.value, v.selfAid, "aitp-grant+jwt", "TOKEN_TYP_MISMATCH", "TOKEN_ALG_MISMATCH",
                       BAD_VOUCHER, NoCheck(), x);
    }
  }

  /** A genuine hop: signed, of this version, addressed to the verifier, not to its own issuer, bound to `sub`. */
  ghost predicate GenuineHop(v: Verifier, token: string, h: Hop) {
    && Signed(v, token, h) && h.ver == PROTOCOL_VERSION && h.iss != h.sub && h.aud == v.selfAid
    && ParseAid(v.suite, h.sub).Some? && h.jkt == Str(Thumbprint(v.suite, ParseAid(v.suite, h.sub).value))
  }

  lemma HopAloneMeaning(v: Verifier, token: string, h: Hop)
    ensures HopAlone(v, token) == Ok(h) <==> GenuineHop(v, token, h)
  {
    SignedHopMeaning(v, token, h);
    hide SignedHop, Signed, ParseAid, Thumbprint;
  }

  // ----- the chain -----

  /** The verifier's voucher covers the hop: its delegator, its scope, its lifetime. */
  ghost predicate Authorises(v: Verifier, voucher: Voucher, h: Hop) {
    && SignedBySelf(v, h.voucher, voucher)
    && voucher.sub == h.iss && v.now < voucher.exp && h.exp <= voucher.exp
    && Set(h.scope) <= Set(voucher.grants)
  }

  ghost predicate Continues(prev: Hop, h: Hop) {
    && h.voucher.None? && h.iss == prev.sub && h.exp <= prev.exp && Set(h.scope) <= Set(prev.scope)
  }

  /** The tokens are genuine, live hops with distinct jtis, each continuing the one before, from a voucher. */
  ghost predicate ValidChain(v: Verifier, hops: seq<string>, hs: seq<Hop>, voucher: Voucher) {
    && |hs| == |hops| > 0
    && (forall i | 0 <= i < |hs| ::
          GenuineHop(v, hops[i], hs[i]) && v.now < hs[i].exp && hs[i].jti.Some? && hs[i].jti.value != "")
    && (forall i, j | 0 <= i < j < |hs| :: hs[i].jti != hs[j].jti)
    && Authorises(v, voucher, hs[0])
    && (forall i | 0 < i < |hs| :: Continues(hs[i - 1], hs[i]))
  }

  lemma CheckRootMeaning(v: Verifier, h: Hop, voucher: Voucher)
    ensures CheckRoot(v, h) == Ok(voucher) <==> Authorises(v, voucher, h)
  {
    SignedVoucherMeaning(v, h.voucher, voucher);
    hide SignedVoucher, SignedBySelf, Set;
  }

  lemma {:induction false} ChainAll(v: Verifier, hops: seq<string>, n: nat)
    requires n <= |hops|
    ensures ChainOutcome(v, hops, n).Ok? <==> forall i | 0 <= i < n :: HopOutcome(v, hops, i).Ok?
  {
    hide HopOutcome;
    if n > 0 {
      ChainAll(v, hops, n - 1);
    }
  }

  function Views(v: Verifier, hops: seq<string>): (hs: seq<Hop>)
    requires forall i | 0 <= i < |hops| :: HopAlone(v, hops[i]).Ok?
  {
    seq(|hops|, i requires 0 <= i < |hops| => HopAlone(v, hops[i]).value)
  }

  /** The verdict on one hop, over the views of all of them. */
  lemma HopOutcomeMeaning(v: Verifier, hops: seq<string>, hs: seq<Hop>, i: nat)
    requires i < |hops| == |hs| && forall j | 0 <= j < |hops| :: HopAlone(v, hops[j]) == Ok(hs[j])
    ensures HopOutcome(v, hops, i).Ok? <==>
            && hs[i].jti.Some? && hs[i].jti.value != "" && v.now < hs[i].exp
            && (forall j | 0 <= j < i :: hs[j].jti != hs[i].jti)
            && (if i == 0 then CheckRoot(v, hs[0]).Ok? else Continues(hs[i - 1], hs[i]))
  {
    hide HopAlone, CheckRoot;
    if hs[i].jti.Some? && hs[i].jti.value != "" {
      forall j: nat | j < i ensures JtiAt(v, hops, j) != JtiAt(v, hops, i) <==> hs[j].jti != hs[i].jti {
      }
    }
  }

  /** No earlier hop has the jti of hop `i`, and it has one. */
  ghost predicate FreshJti(hs: seq<Hop>, i: nat)
    requires i < |hs|
  {
    hs[i].jti.Some? && hs[i].jti.value != "" && forall j | 0 <= j < i :: hs[j].jti != hs[i].jti
  }

  /** Each defect of a later hop has its own code, and an earlier defect hides a later one. */
  lemma LinkErrors(v: Verifier, hops: seq<string>, hs: seq<Hop>, i: nat)
    requires 0 < i < |hops| == |hs| && forall j | 0 <= j < |hops| :: HopAlone(v, hops[j]) == Ok(hs[j])
    ensures var r := HopOutcome(v, hops, i);
            var joined := hs[i].voucher.None? && hs[i].iss == hs[i - 1].sub;
            && (r == Err("DELEGATION_INVALID_VOUCHER") <==> !FreshJti(hs, i) || (v.now < hs[i].exp && !joined))
            && (r == Err("DELEGATION_EXPIRED") <==>
                FreshJti(hs, i) && (hs[i].exp <= v.now || (joined && hs[i - 1].exp < hs[i].exp)))
            && (r == Err("DELEGATION_SCOPE_EXCEEDED") <==>
                && FreshJti(hs, i) && v.now < hs[i].exp && joined && hs[i].exp <= hs[i - 1].exp
                && !(Set(hs[i].scope) <= Set(hs[i - 1].scope)))
  {
    hide HopAlone, CheckRoot, Set;
    if hs[i].jti.Some? && hs[i].jti.value != "" {
      forall j: nat | j < i ensures JtiAt(v, hops, j) != JtiAt(v, hops, i) <==> hs[j].jti != hs[i].jti {
      }
    }
  }

  /** Each defect of a root hop against its voucher has its own code. */
  lemma RootErrors(v: Verifier, h: Hop, voucher: Voucher)
    requires SignedBySelf(v, h.voucher, voucher)
    ensures var r := CheckRoot(v, h);
            && (r == Err("DELEGATION_INVALID_VOUCHER") <==> voucher.sub != h.iss)
            && (r == Err("DELEGATION_EXPIRED") <==> voucher.sub == h.iss && (voucher.exp <= v.now || voucher.exp < h.exp))
            && (r == Err("DELEGATION_SCOPE_EXCEEDED") <==>
                && voucher.sub == h.iss && v.now < voucher.exp && h.exp <= voucher.exp
                && !(Set(h.scope) <= Set(voucher.grants)))
  {
    SignedVoucherMeaning(v, h.voucher, voucher);
    hide SignedVoucher, SignedBySelf, Set;
  }

  lemma ValidChainAccepted(v: Verifier, hops: seq<string>, hs: seq<Hop>, voucher: Voucher)
    requires ValidChain(v, hops, hs, voucher)
    ensures ChainOutcome(v, hops, |hops|).Ok? && CheckRoot(v, hs[0]) == Ok(voucher)
    ensures forall i | 0 <= i < |hops| :: HopAlone(v, hops[i]) == Ok(hs[i])
  {
    hide HopAlone, CheckRoot, GenuineHop, HopOutcome, Authorises, Continues;
    CheckRootMeaning(v, hs[0], voucher);
    forall i | 0 <= i < |hops| ensures HopAlone(v, hops[i]) == Ok(hs[i]) {
      HopAloneMeaning(v, hops[i], hs[i]);
    }
    forall i | 0 <= i < |hops| ensures HopOutcome(v, hops, i).Ok? {
      HopOutcomeMeaning(v, hops, hs, i);
    }
    ChainAll(v, hops, |hops|);
  }

  lemma AcceptedViews(v: Verifier, hops: seq<string>)
    requires ChainOutcome(v, hops, |hops|).Ok?
    ensures forall i | 0 <= i < |hops| :: HopAlone(v, hops[i]).Ok? && HopOutcome(v, hops, i).Ok?
  {
    ChainAll(v, hops, |hops|);
    forall i | 0 <= i < |hops| ensures HopAlone(v, hops[i]).Ok? {
      assert HopOutcome(v, hops, i).Ok?;
    }
    hide *;
  }

  lemma AcceptedIsValid(v: Verifier, hops: seq<string>)
    requires hops != [] && ChainOutcome(v, hops, |hops|).Ok?
    ensures forall i | 0 <= i < |hops| :: HopAlone(v, hops[i]).Ok?
    ensures CheckRoot(v, Views(v, hops)[0]).Ok?
    ensures ValidChain(v, hops, Views(v, hops), CheckRoot(v, Views(v, hops)[0]).value)
  {
    hide HopAlone, CheckRoot, GenuineHop, HopOutcome, Authorises, Continues;
    AcceptedViews(v, hops);
    var hs := Views(v, hops);
    forall i | 0 <= i < |hops|
      ensures GenuineHop(v, hops[i], hs[i]) && v.now < hs[i].exp && hs[i].jti.Some? && hs[i].jti.value != ""
      ensures forall j | 0 <= j < i :: hs[j].jti != hs[i].jti
      ensures if i == 0 then CheckRoot(v, hs[0]).Ok? else Continues(hs[i - 1], hs[i])
    {
      HopAloneMeaning(v, hops[i], hs[i]);
      HopOutcomeMeaning(v, hops, hs, i);
    }
    HopOutcomeMeaning(v, hops, hs, 0);
    CheckRootMeaning(v, hs[0], CheckRoot(v, hs[0]).value);
  }

  /** The loop accepts exactly the valid chains, whatever it carries from hop to hop. */
  lemma ChainMeaning(v: Verifier, hops: seq<string>)
    requires hops != []
    ensures ChainOutcome(v, hops, |hops|).Ok? <==> exists hs, voucher :: ValidChain(v, hops, hs, voucher)
  {
    hide ChainOutcome, ValidChain, CheckRoot, HopAlone;
    if ChainOutcome(v, hops, |hops|).Ok? {
      AcceptedIsValid(v, hops);
    }
    forall hs, voucher | ValidChain(v, hops, hs, voucher) ensures ChainOutcome(v, hops, |hops|).Ok? {
      ValidChainAccepted(v, hops, hs, voucher);
    }
  }

  /** The single-hop path accepts exactly a live hop to this verifier that its own voucher authorises. */
  lemma SingleHopMeaning(v: Verifier, token: string, p: Pending)
    ensures SingleHopClaims(v, token) == Ok(p) <==>
            exists h: Hop, voucher: Voucher ::
              && Signed(v, token, h) && h.iss != h.sub && h.aud == v.selfAid && v.now < h.exp
              && Authorises(v, voucher, h) && p == Pending(v, [], voucher.srcJti, h.scope)
  {
    hide SignedHop, CheckRoot, Signed, Authorises;
    if SingleHopClaims(v, token).Ok? {
      var h := SignedHop(v, token).value;
      SignedHopMeaning(v, token, h);
      CheckRootMeaning(v, h, CheckRoot(v, h).value);
    }
    forall h: Hop, voucher: Voucher | Signed(v, token, h) && Authorises(v, voucher, h)
      ensures SignedHop(v, token) == Ok(h) && CheckRoot(v, h) == Ok(voucher)
    {
      SignedHopMeaning(v, token, h);
      CheckRootMeaning(v, h, voucher);
    }
  }

  /** Attenuation over any distance: authority and lifetime never grow along a valid chain. */
  lemma {:induction false} Attenuates(v: Verifier, hops: seq<string>, hs: seq<Hop>, voucher: Voucher, i: nat, j: nat)
    requires ValidChain(v, hops, hs, voucher) && i <= j < |hs|
    ensures Set(hs[j].scope) <= Set(hs[i].scope) <= Set(voucher.grants)
    ensures hs[j].exp <= hs[i].exp <= voucher.exp
    decreases j
  {
    hide GenuineHop, SignedBySelf, Set;
    if i < j {
      Attenuates(v, hops, hs, voucher, i, j - 1);
      assert Continues(hs[j - 1], hs[j]);
    } else if i > 0 {
      Attenuates(v, hops, hs, voucher, i - 1, i - 1);
      assert Continues(hs[i - 1], hs[i]);
    }
  }
}
