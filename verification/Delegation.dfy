/** Delegation tokens, single-hop (section 4 of RFC-AITP-0006) and multi-hop (RFC-AITP-0011). */
module Delegation {
  import opened Wrappers
  import opened KeyMath
  import opened Aids
  import opened KeyOrder
  import opened Jcs
  import opened Jws
  import opened Fields
  import opened Revocation
  import opened ChainHash
  import opened Snapshots
  import Utf8

  const BAD_TOKEN := "DELEGATION_INVALID_SIGNATURE"
  const BAD_VOUCHER := "DELEGATION_INVALID_VOUCHER"
  const EXPIRED := "DELEGATION_EXPIRED"
  const SCOPE_EXCEEDED := "DELEGATION_SCOPE_EXCEEDED"
  const MAX_DELEGATION_HOPS := 3
  const MULTIHOP_FEATURE := "experimental-multihop-delegation"

  /**
   * The party that verifies: its AID, its clock and its Manifest source, if it has one.
   * `resolve` is `resolve_key_from_manifests` on an issuer, those manifests and the clock.
   */
  datatype Verifier = Verifier(suite: Suite, selfAid: string, now: int, manifests: Option<Json>,
                               resolve: (Json, Json, int) -> Outcome<()>)

  // ----- claims -----

  datatype Hop = Hop(ver: string, iss: string, sub: string, aud: string, scope: seq<string>, exp: int,
                     jkt: Json, voucher: Option<string>, jti: Option<string>)

  predicate HopTyped(c: Claims) {
    && WellTyped(c, {"ver", "iss", "sub", "aud", "scope", "exp", "cnf"},
                 map["ver" := Text, "iss" := Text, "sub" := Text, "aud" := Text, "scope" := List,
                     "exp" := Integer, "cnf" := Dict, "voucher" := Text, "jti" := Text, "chain" := List,
                     "chain_hash" := Text])
    && c["scope"].Arr? && AllStrings(c["scope"].items)
  }

  const HOP_FIELDS := {
    "ver", "iss", "sub", "aud", "scope", "exp", "cnf", "voucher", "jti", "chain", "chain_hash", "ext"
  }

  function OptionalText(c: Claims, name: string): Option<string>
    requires name in c ==> c[name].Str?
  {
    if name in c then Some(c[name].s) else None
  }

  function HopOf(c: Claims): Hop
    requires HopTyped(c)
  {
    Hop(c["ver"].s, c["iss"].s, c["sub"].s, c["aud"].s, Strings(c["scope"].items), IntOf(c["exp"]),
        Get(c["cnf"].members, "jkt"), OptionalText(c, "voucher"), OptionalText(c, "jti"))
  }

  /** `_check_delegation_claims_shape`, with what later checks read of the claims. */
  function ReadHop(c: Claims): Outcome<Hop> {
    if !HopTyped(c) then Err(BAD_TOKEN)
    else
      var _ :- KnownOnly(c, HOP_FIELDS);
      var _ :- KnownOnly(c["cnf"].members, {"jkt"});
      Ok(HopOf(c))
  }

  datatype Voucher = Voucher(iss: string, sub: string, grants: seq<string>, exp: int, srcJti: string)

  predicate VoucherTyped(c: Claims) {
    && WellTyped(c, {"ver", "iss", "sub", "grants", "iat", "exp", "src_jti"},
                 map["ver" := Text, "iss" := Text, "sub" := Text, "grants" := List, "iat" := Integer,
                     "exp" := Integer, "src_jti" := Text])
    && c["grants"].Arr? && AllStrings(c["grants"].items)
  }

  /** `check_voucher_claims_shape`. */
  function ReadVoucher(c: Claims): Outcome<Voucher> {
    if !VoucherTyped(c) then Err(BAD_VOUCHER)
    else
      var _ :- KnownOnly(c, {"ver", "iss", "sub", "grants", "iat", "exp", "src_jti", "ext"});
      Ok(Voucher(c["iss"].s, c["sub"].s, Strings(c["grants"].items), IntOf(c["exp"]), c["src_jti"].s))
  }

  // ----- one token -----

  /** `_resolve_issuer`. */
  function ResolveIssuer(v: Verifier, iss: Json): Outcome<()> {
    match v.manifests
    case None => Ok(())
    case Some(manifests) => v.resolve(iss, manifests, v.now)
  }

  function VerifyHopJws(suite: Suite, token: string, iss: string): Outcome<Hop> {
    var c :- VerifyJws(suite, token, iss, "aitp-delegation+jwt", "TOKEN_TYP_MISMATCH", "TOKEN_ALG_MISMATCH", BAD_TOKEN,
                       NoCheck());
    ReadHop(c)
  }

  function VerifyVoucherJws(suite: Suite, token: string, iss: string): Outcome<Voucher> {
    var c :- VerifyJws(suite, token, iss, "aitp-grant+jwt", "TOKEN_TYP_MISMATCH", "TOKEN_ALG_MISMATCH", BAD_VOUCHER,
                       NoCheck());
    ReadVoucher(c)
  }

  /** The issuer that a token's unverified claims name, its key resolved, then the signature and the shape. */
  function SignedHop(v: Verifier, token: string): Outcome<Hop> {
    var parsed :- ParseCompact(token, BAD_TOKEN);
    var _ :- ResolveIssuer(v, Get(parsed.claims, "iss"));
    VerifyHopJws(v.suite, token, TextOf(Get(parsed.claims, "iss")))
  }

  /** The voucher a root hop carries, if the verifier itself is its issuer and its signer. */
  function SignedVoucher(v: Verifier, voucher: Option<string>): Outcome<Voucher> {
    var token :- OrErr(voucher, BAD_VOUCHER);
    var parsed :- ParseCompact(token, BAD_VOUCHER);
    var _ :- Need(Get(parsed.claims, "iss") == Str(v.selfAid), BAD_VOUCHER);
    VerifyVoucherJws(v.suite, token, v.selfAid)
  }

  /** The root of authority: the voucher names the delegator and bounds what it delegates. */
  function CheckRoot(v: Verifier, h: Hop): Outcome<Voucher> {
    var voucher :- SignedVoucher(v, h.voucher);
    var _ :- Need(voucher.sub == h.iss, BAD_VOUCHER);
    var _ :- Need(v.now < voucher.exp && h.exp <= voucher.exp, EXPIRED);
    var _ :- Need(Set(h.scope) <= Set(voucher.grants), SCOPE_EXCEEDED);
    Ok(voucher)
  }

  /** What is known once only revocation is left: the hops to sweep, the source TCT, the grants. */
  datatype Pending = Pending(v: Verifier, swept: seq<string>, srcJti: string, grants: seq<string>)

  // ----- single-hop -----

  /** The checks of the single-hop path before revocation. No hop is swept. */
  function SingleHopClaims(v: Verifier, token: string): Outcome<Pending> {
    var h :- SignedHop(v, token);
    var _ :- Need(h.iss != h.sub, BAD_TOKEN);
    var _ :- Need(h.aud == v.selfAid, "DELEGATION_AUDIENCE_MISMATCH");
    var _ :- Need(v.now < h.exp, EXPIRED);
    var voucher :- CheckRoot(v, h);
    Ok(Pending(v, [], voucher.srcJti, h.scope))
  }

  // ----- multi-hop -----

  /** The checks of one hop that look at no other hop. */
  function HopAlone(v: Verifier, token: string): Outcome<Hop> {
    var h :- SignedHop(v, token);
    var _ :- Need(h.ver == PROTOCOL_VERSION, "UNKNOWN_VERSION");
    var _ :- Need(h.iss != h.sub, BAD_TOKEN);
    var _ :- Need(h.aud == v.selfAid, "DELEGATION_AUDIENCE_MISMATCH");
    var sub :- OrErr(ParseAid(v.suite, h.sub), BAD_VOUCHER);
    var _ :- Need(h.jkt == Str(Thumbprint(v.suite, sub)), BAD_VOUCHER);
    Ok(h)
  }

  /** A later hop continues its predecessor and never widens or outlives it. */
  function CheckLink(prev: Hop, h: Hop): Outcome<()> {
    var _ :- Need(h.voucher.None?, BAD_VOUCHER);
    var _ :- Need(h.iss == prev.sub, BAD_VOUCHER);
    var _ :- Need(h.exp <= prev.exp, EXPIRED);
    Need(Set(h.scope) <= Set(prev.scope), SCOPE_EXCEEDED)
  }

  /** The jti that hop `j` claims, `""` when it has none or fails on its own. */
  function JtiAt(v: Verifier, hops: seq<string>, j: nat): string
    requires j < |hops|
  {
    var h := HopAlone(v, hops[j]);
    if h.Ok? && h.value.jti.Some? then h.value.jti.value else ""
  }

  /** The verdict on hop `i`, given that the hops before it are in order. */
  function HopOutcome(v: Verifier, hops: seq<string>, i: nat): Outcome<()>
    requires i < |hops|
  {
    var h :- HopAlone(v, hops[i]);
    var jti := JtiAt(v, hops, i);
    var _ :- Need(jti != "" && forall j: nat | j < i :: JtiAt(v, hops, j) != jti, BAD_VOUCHER);
    var _ :- Need(v.now < h.exp, EXPIRED);
    if i == 0 then
      var _ :- CheckRoot(v, h);
      Ok(())
    else
      var prev :- HopAlone(v, hops[i - 1]);
      CheckLink(prev, h)
  }

  /** The verdict of the first of the first `n` hops that fails, if one does. */
  function ChainOutcome(v: Verifier, hops: seq<string>, n: nat): Outcome<()>
    requires n <= |hops|
  {
    if n == 0 then Ok(())
    else
      var _ :- ChainOutcome(v, hops, n - 1);
      HopOutcome(v, hops, n - 1)
  }

  /** `entry.encode("ascii")` on every entry, as the chain hash computes it. */
  function ChainTexts(items: seq<Json>): Outcome<seq<string>> {
    if items == [] then Ok([])
    else if !items[0].Str? then Crash("AttributeError")
    else if !Utf8.IsAscii(items[0].s) then Crash("UnicodeEncodeError")
    else
      var rest :- ChainTexts(items[1..]);
      Ok([items[0].s] + rest)
  }

  /** What iterating over `chain` yields. An object yields its names. */
  function ChainItems(chain: Json): Outcome<seq<Json>> {
    match chain
    case Arr(items) => Ok(items)
    case Str(s) => Ok(seq(|s|, i requires 0 <= i < |s| => Str([s[i]])))
    case Obj(members) =>
      var names := SortedKeys(members.Keys);
      Ok(seq(|names|, i requires 0 <= i < |names| => Str(names[i])))
    case _ => Crash("TypeError")
  }

  /** The hop limit and the commitment: the chain that the token carries and commits to. */
  function CommittedChain(v: Verifier, outer: Claims): Outcome<seq<string>> {
    var chain := Get(outer, "chain");
    var items :- ChainItems(chain);
    var _ :- Need(|items| + 2 <= MAX_DELEGATION_HOPS + 1, "DELEGATION_HOP_LIMIT_EXCEEDED");
    var entries :- ChainTexts(items);
    var hash :- ComputeChainHash(v.suite, entries);
    var _ :- Need(Str(hash) == Get(outer, "chain_hash"), "DELEGATION_CHAIN_HASH_MISMATCH");
    if chain.Arr? then Ok(entries) else Crash("TypeError")
  }

  /** The names under which the sweep looks a hop up. */
  function SweptNames(hop: string): Outcome<(string, Json)> {
    var parsed :- ParseCompact(hop, BAD_TOKEN);
    Ok((TextOf(Get(parsed.claims, "iss")), Get(parsed.claims, "jti")))
  }

  /** One step of the per-hop sweep. */
  function SweepHop(index: map<string, set<string>>, mode: string, iss: string, jti: Json): Outcome<()> {
    if iss in index && jti.Str? && jti.s in index[iss] then Err(REVOKED)
    else Need(iss in index || mode != FAIL_CLOSED, REVOKED)
  }

  function SweepOutcome(index: map<string, set<string>>, mode: string, hops: seq<string>, n: nat): Outcome<()>
    requires n <= |hops|
  {
    if n == 0 then Ok(())
    else
      var _ :- SweepOutcome(index, mode, hops, n - 1);
      var (iss, jti) :- SweptNames(hops[n - 1]);
      SweepHop(index, mode, iss, jti)
  }

  /** Everything after the claims: the verifier's own list for the source TCT, then the sweep. */
  function CheckDelegationRevocation(inp: Claims, p: Pending): Outcome<()> {
    var bodies :- VerifiedBodies(p.v.suite, inp, p.v.selfAid);
    var _ :- CheckSourceRevocation(p.v.suite, inp, bodies, p.v.selfAid, p.srcJti, p.v.now);
    var index := RevocationIndex(Fresh(p.v.suite, bodies, PolicyOf(inp), p.v.now));
    SweepOutcome(index, PolicyFailMode(inp), p.swept, |p.swept|)
  }

  /** The checks of `_verify_multihop` before revocation. */
  function MultihopClaims(v: Verifier, token: string, outer: Claims): Outcome<Pending> {
    var chain :- CommittedChain(v, outer);
    var hops := chain + [token];
    var _ :- ChainOutcome(v, hops, |hops|);
    var root :- HopAlone(v, hops[0]);
    var voucher :- CheckRoot(v, root);
    var last :- HopAlone(v, token);
    Ok(Pending(v, hops, voucher.srcJti, last.scope))
  }

  /** What `_verify_multihop` computes. */
  function Multihop(v: Verifier, inp: Claims, token: string, outer: Claims): Outcome<seq<string>> {
    var p :- MultihopClaims(v, token, outer);
    var _ :- CheckDelegationRevocation(inp, p);
    Ok(p.grants)
  }

  lemma {:induction false} ChainStops(v: Verifier, hops: seq<string>, i: nat, n: nat)
    requires i < n <= |hops| && ChainOutcome(v, hops, i).Ok? && !HopOutcome(v, hops, i).Ok?
    ensures ChainOutcome(v, hops, n) == HopOutcome(v, hops, i)
  {
    hide HopOutcome;
    if n > i + 1 {
      ChainStops(v, hops, i, n - 1);
    }
  }

  lemma {:induction false} SweepStops(index: map<string, set<string>>, mode: string, hops: seq<string>, i: nat, n: nat)
    requires i < n <= |hops| && SweepOutcome(index, mode, hops, i).Ok?
    requires !SweepOutcome(index, mode, hops, i + 1).Ok?
    ensures SweepOutcome(index, mode, hops, n) == SweepOutcome(index, mode, hops, i + 1)
  {
    hide SweptNames, SweepHop;
    if n > i + 1 {
      SweepStops(index, mode, hops, i, n - 1);
    }
  }

  /** The loop over the hops: it carries the jtis seen, the last hop and the root voucher. */
  method VerifyHops(v: Verifier, hops: seq<string>) returns (r: Outcome<(Hop, Voucher)>)
    requires hops != []
    ensures ChainOutcome(v, hops, |hops|).Ok? ==>
              && r.Ok? && HopAlone(v, hops[|hops| - 1]) == Ok(r.value.0)
              && HopAlone(v, hops[0]).Ok? && CheckRoot(v, HopAlone(v, hops[0]).value) == Ok(r.value.1)
    ensures !ChainOutcome(v, hops, |hops|).Ok? ==>
              !r.Ok? && r.PropagateFailure<()>() == ChainOutcome(v, hops, |hops|)
  {
    hide HopAlone, CheckRoot, CheckLink;
    var seen: set<string> := {};
    var prev: Option<Hop> := None;
    var prevScope: set<string> := {};
    var root: Option<Voucher> := None;
    for i := 0 to |hops|
      invariant ChainOutcome(v, hops, i).Ok?
      invariant forall s :: s in seen <==> exists j: nat :: j < i && JtiAt(v, hops, j) == s
      invariant prev.Some? == root.Some? == (i > 0)
      invariant i > 0 ==> HopAlone(v, hops[i - 1]) == Ok(prev.value) && prevScope == Set(prev.value.scope)
      invariant i > 0 ==> HopAlone(v, hops[0]).Ok? && CheckRoot(v, HopAlone(v, hops[0]).value) == Ok(root.value)
    {
      var verdict := HopStep(v, hops, i, seen, prev, prevScope);
      if !verdict.Ok? {
        ChainStops(v, hops, i, |hops|);
        return verdict.PropagateFailure();
      }
      var (h, jti, voucher) := verdict.value;
      seen := seen + {jti};
      prev, prevScope := Some(h), Set(h.scope);
      if i == 0 {
        root := voucher;
      }
    }
    return Ok((prev.value, root.value));
  }

  /** The body of the loop: the hop, its jti and, at the root, its voucher. */
  method HopStep(v: Verifier, hops: seq<string>, i: nat, seen: set<string>, prev: Option<Hop>, prevScope: set<string>)
    returns (r: Outcome<(Hop, string, Option<Voucher>)>)
    requires i < |hops|
    requires forall s :: s in seen <==> exists j: nat :: j < i && JtiAt(v, hops, j) == s
    requires i > 0 ==> prev.Some? && HopAlone(v, hops[i - 1]) == Ok(prev.value) && prevScope == Set(prev.value.scope)
    ensures HopOutcome(v, hops, i).Ok? <==> r.Ok?
    ensures !r.Ok? ==> r.PropagateFailure<()>() == HopOutcome(v, hops, i)
    ensures r.Ok? ==>
              && HopAlone(v, hops[i]) == Ok(r.value.0) && r.value.1 == JtiAt(v, hops, i)
              && (i == 0 ==> r.value.2.Some? && CheckRoot(v, r.value.0) == Ok(r.value.2.value))
  {
    hide HopAlone, CheckRoot;
    var h :- HopAlone(v, hops[i]);
    if h.jti.None? || h.jti.value == "" || h.jti.value in seen {
      return Err(BAD_VOUCHER);
    }
    if v.now >= h.exp {
      return Err(EXPIRED);
    }
    if i == 0 {
      var voucher :- CheckRoot(v, h);
      return Ok((h, h.jti.value, Some(voucher)));
    }
    if h.voucher.Some? || h.iss != prev.value.sub {
      return Err(BAD_VOUCHER);
    }
    if h.exp > prev.value.exp {
      return Err(EXPIRED);
    }
    if !(Set(h.scope) <= prevScope) {
      return Err(SCOPE_EXCEEDED);
    }
    return Ok((h, h.jti.value, None));
  }

  /** The revocation part of both paths, with its two loops. */
  method SweepRevocation(inp: Claims, p: Pending) returns (r: Outcome<()>)
    ensures r == CheckDelegationRevocation(inp, p)
  {
    hide VerifiedBodies, CheckSourceRevocation, RevocationIndex, Fresh, SweptNames, SweepHop;
    var v, hops := p.v, p.swept;
    var bodies :- VerifiedSnapshotBodies(v.suite, inp, v.selfAid);
    var _ :- CheckSourceRevocation(v.suite, inp, bodies, v.selfAid, p.srcJti, v.now);
    var index := BuildRevocationIndex(Fresh(v.suite, bodies, PolicyOf(inp), v.now));
    var mode := PolicyFailMode(inp);
    for i := 0 to |hops|
      invariant SweepOutcome(index, mode, hops, i) == Ok(())
    {
      var names := SweptNames(hops[i]);
      if !names.Ok? {
        SweepStops(index, mode, hops, i, |hops|);
        return names.PropagateFailure();
      }
      var step := SweepHop(index, mode, names.value.0, names.value.1);
      if !step.Ok? {
        SweepStops(index, mode, hops, i, |hops|);
        return step;
      }
      assert step.value == ();
    }
    return Ok(());
  }

  /** `_verify_multihop`. */
  method VerifyMultihop(v: Verifier, inp: Claims, token: string, outer: Claims) returns (r: Outcome<seq<string>>)
    ensures r == Multihop(v, inp, token, outer)
  {
    hide CommittedChain, ChainOutcome, HopAlone, CheckRoot, CheckDelegationRevocation;
    var chain :- CommittedChain(v, outer);
    var hops := chain + [token];
    assert hops[|hops| - 1] == token;
    var verified :- VerifyHops(v, hops);
    var (last, voucher) := verified;
    var _ :- SweepRevocation(inp, Pending(v, hops, voucher.srcJti, last.scope));
    return Ok(last.scope);
  }

  // ----- the entry point -----

  type Resolver = (Json, Json, int) -> Outcome<()>

  /** The verifier that `verify_delegation_token` sets up once its guards have passed. */
  function VerifierOf(suite: Suite, inp: Claims, now: int, resolve: Resolver): Verifier {
    Verifier(suite, TextOf(Get(inp, "self_aid")), now,
             if "issuer_manifests" in inp then Some(inp["issuer_manifests"]) else None, resolve)
  }

  /** The guards of `verify_delegation_token` and the claims checks of its two paths. */
  function VerifyDelegationClaims(suite: Suite, inp: Claims, now: int, resolve: Resolver): Outcome<Pending> {
    var token := Get(inp, "delegation_token");
    if token.Null? && Get(inp, "delegation").Obj? then RejectObjectToken(Get(inp, "delegation").members)
    else if !token.Str? then Err(BAD_TOKEN)
    else
      var outer :- ParseCompact(token.s, BAD_TOKEN);
      var multihop := "chain" in outer.claims;
      if multihop && Get(inp, "_feature") != Str(MULTIHOP_FEATURE) then Err("DELEGATION_MULTIHOP_NOT_SUPPORTED")
      else
        var selfAid := Get(inp, "self_aid");
        if !selfAid.Str? then Err("DELEGATION_AUDIENCE_MISMATCH")
        else
          var manifests := if "issuer_manifests" in inp then Some(inp["issuer_manifests"]) else None;
          var v := Verifier(suite, selfAid.s, now, manifests, resolve);
          if multihop then MultihopClaims(v, token.s, outer.claims) else SingleHopClaims(v, token.s)
  }

  /** `verify_delegation_token` with `inp` and the clock `now`. */
  function VerifyDelegationToken(suite: Suite, inp: Claims, now: int, resolve: Resolver): Outcome<seq<string>> {
    var p :- VerifyDelegationClaims(suite, inp, now, resolve);
    var _ :- CheckDelegationRevocation(inp, p);
    Ok(p.grants)
  }

  /** Python's truth value. */
  predicate Truthy(v: Json) {
    match v
    case Null => false
    case Bool(b) => b
    case Num(n) => !n.Zero?
    case Str(s) => s != ""
    case Arr(items) => items != []
    case Obj(members) => members != map[]
  }

  /** `_reject_v01_object_token`. */
  function RejectObjectToken(token: Claims): Outcome<Pending> {
    if Truthy(Get(token, "chain")) then Err("DELEGATION_MULTIHOP_NOT_SUPPORTED") else Err(BAD_TOKEN)
  }
}
