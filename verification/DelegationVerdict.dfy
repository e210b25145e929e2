/** The verdict of `verify_delegation_token` against the order of the snapshots and the fail mode. */
module DelegationVerdict {
  import opened Wrappers
  import opened KeyMath
  import opened Aids
  import opened Jcs
  import opened Jws
  import opened Revocation
  import opened Snapshots
  import opened Delegation
  import opened DelegationSafety
  import opened DelegationPolicy

  /** The inputs that the checks before revocation read. */
  ghost predicate SameClaims(a: Claims, b: Claims) {
    && Get(a, "delegation_token") == Get(b, "delegation_token") && Get(a, "delegation") == Get(b, "delegation")
    && Get(a, "_feature") == Get(b, "_feature") && Get(a, "self_aid") == Get(b, "self_aid")
    && ("issuer_manifests" in a <==> "issuer_manifests" in b)
    && Get(a, "issuer_manifests") == Get(b, "issuer_manifests")
  }

  lemma ClaimsFrame(suite: Suite, a: Claims, b: Claims, now: int, resolve: Resolver)
    requires SameClaims(a, b)
    ensures VerifyDelegationClaims(suite, a, now, resolve) == VerifyDelegationClaims(suite, b, now, resolve)
  {
    hide MultihopClaims, SingleHopClaims, ParseCompact;
  }

  // ----- the order of the snapshots -----

  lemma SameBodiesClear(suite: Suite, inp: Claims, other: Claims, a: seq<Body>, b: seq<Body>,
                        iss: string, jti: string, now: int)
    requires PolicyOf(inp) == PolicyOf(other) && PolicyFailMode(inp) == PolicyFailMode(other)
    requires forall x :: x in a <==> x in b
    ensures Clear(suite, inp, a, iss, jti, now) == Clear(suite, other, b, iss, jti, now)
    ensures Covered(suite, a, PolicyOf(inp), iss, now) == Covered(suite, b, PolicyOf(other), iss, now)
  {
    hide SnapshotIsStale, PolicyOf, PolicyFailMode;
  }

  lemma SameBodiesAllClear(inp: Claims, other: Claims, a: seq<Body>, b: seq<Body>, p: Pending)
    requires PolicyOf(inp) == PolicyOf(other) && PolicyFailMode(inp) == PolicyFailMode(other)
    requires forall x :: x in a <==> x in b
    ensures AllClear(p.v, inp, a, p.swept, p.srcJti) == AllClear(p.v, other, b, p.swept, p.srcJti)
  {
    hide Clear, Covered, SweptNames, PolicyOf, PolicyFailMode;
    SameBodiesClear(p.v.suite, inp, other, a, b, p.v.selfAid, p.srcJti, p.v.now);
    forall i | 0 <= i < |p.swept|
      ensures HopClear(p.v, inp, a, p.swept[i]) == HopClear(p.v, other, b, p.swept[i])
    {
      var names := SweptNames(p.swept[i]);
      if names.Ok? {
        var jti := if names.value.1.Str? then names.value.1.s else "";
        SameBodiesClear(p.v.suite, inp, other, a, b, names.value.0, jti, p.v.now);
      }
    }
  }

  lemma SameRecordsSameBodies(suite: Suite, a: seq<Json>, b: seq<Json>, selfAid: string)
    requires forall x :: x in a <==> x in b
    ensures Bodies(suite, a, selfAid).Ok? == Bodies(suite, b, selfAid).Ok?
    ensures Bodies(suite, a, selfAid).Ok? ==>
              forall x :: x in Bodies(suite, a, selfAid).value <==> x in Bodies(suite, b, selfAid).value
  {
    hide Trust, MayBeOwn;
    BodiesMeaning(suite, a, selfAid);
    BodiesMeaning(suite, b, selfAid);
    hide Bodies;
  }

  lemma SnapshotsReplaced(inp: Claims, a: seq<Json>)
    ensures var x := inp["revocation_snapshots" := Arr(a)];
            && SameClaims(inp, x) && Records(x) == Ok(a)
            && PolicyOf(x) == PolicyOf(inp) && PolicyFailMode(x) == PolicyFailMode(inp)
  {
  }

  /** Acceptance and the grants do not depend on the order, or the repetition, of the supplied snapshots. */
  lemma SnapshotOrder(suite: Suite, inp: Claims, now: int, resolve: Resolver, a: seq<Json>, b: seq<Json>,
                      grants: seq<string>)
    requires forall x :: x in a <==> x in b
    ensures VerifyDelegationToken(suite, inp["revocation_snapshots" := Arr(a)], now, resolve) == Ok(grants)
            <==> VerifyDelegationToken(suite, inp["revocation_snapshots" := Arr(b)], now, resolve) == Ok(grants)
  {
    hide VerifyDelegationClaims, CheckDelegationRevocation, AllClear, Bodies, Records, PolicyOf, PolicyFailMode,
         SameClaims;
    var x, y := inp["revocation_snapshots" := Arr(a)], inp["revocation_snapshots" := Arr(b)];
    SnapshotsReplaced(inp, a);
    SnapshotsReplaced(inp, b);
    ClaimsFrame(suite, inp, x, now, resolve);
    ClaimsFrame(suite, inp, y, now, resolve);
    var r := VerifyDelegationClaims(suite, x, now, resolve);
    if r.Ok? {
      var p := r.value;
      SameRecordsSameBodies(p.v.suite, a, b, p.v.selfAid);
      if Bodies(p.v.suite, a, p.v.selfAid).Ok? {
        SameBodiesAllClear(x, y, Bodies(p.v.suite, a, p.v.selfAid).value, Bodies(p.v.suite, b, p.v.selfAid).value, p);
      }
      RevocationMeaning(x, p);
      RevocationMeaning(y, p);
    }
  }

  // ----- what an acceptance says about revocation -----

  /** The issuer has a fresh body if the mode asks for one, and no fresh body of it lists the jti. */
  ghost predicate NotListed(v: Verifier, inp: Claims, bodies: seq<Body>, iss: string, jti: string) {
    && (PolicyFailMode(inp) == FAIL_CLOSED ==> Covered(v.suite, bodies, PolicyOf(inp), iss, v.now))
    && !ListedBy(v.suite, bodies, PolicyOf(inp), iss, jti, v.now)
  }

  /**
   * On both paths: the verified bodies of an accepted delegation do not list its source TCT for the
   * verifier nor, on a chain, any hop for its issuer. Under `fail_closed` the verifier and all those
   * issuers have a fresh body among them.
   */
  lemma AcceptedCoverage(suite: Suite, inp: Claims, now: int, resolve: Resolver)
    requires VerifyDelegationToken(suite, inp, now, resolve).Ok?
    ensures VerifyDelegationClaims(suite, inp, now, resolve).Ok?
    ensures var p := VerifyDelegationClaims(suite, inp, now, resolve).value;
            var bodies := VerifiedBodies(p.v.suite, inp, p.v.selfAid);
            && bodies.Ok? && NotListed(p.v, inp, bodies.value, p.v.selfAid, p.srcJti)
            && forall hop <- p.swept ::
                 var names := SweptNames(hop);
                 && names.Ok? && names.value.1.Str?
                 && NotListed(p.v, inp, bodies.value, names.value.0, names.value.1.s)
  {
    hide VerifyDelegationClaims, CheckDelegationRevocation, VerifiedBodies, SweptNames, Covered, ListedBy,
         PolicyFailMode;
    var p := VerifyDelegationClaims(suite, inp, now, resolve).value;
    RevocationMeaning(inp, p);
    SweptNamed(suite, inp, now, resolve);
    forall hop | hop in p.swept ensures HopClear(p.v, inp, VerifiedBodies(p.v.suite, inp, p.v.selfAid).value, hop) {
      var i :| 0 <= i < |p.swept| && p.swept[i] == hop;
    }
  }

  lemma ChainNamed(v: Verifier, hops: seq<string>)
    requires hops != [] && ChainOutcome(v, hops, |hops|).Ok?
    ensures forall hop <- hops :: SweptNames(hop).Ok? && SweptNames(hop).value.1.Str?
  {
    AcceptedIsValid(v, hops);
    hide ChainOutcome, CheckRoot, SweptNames, Signed, Authorises, Continues, HopAlone, ParseAid, Thumbprint;
    var hs := Views(v, hops);
    forall hop | hop in hops ensures SweptNames(hop).Ok? && SweptNames(hop).value.1.Str? {
      var i :| 0 <= i < |hops| && hops[i] == hop;
      assert GenuineHop(v, hops[i], hs[i]);
      SignedNames(v, hop, hs[i]);
    }
  }

  /** Every hop that is swept has a jti to be looked up. */
  lemma SweptNamed(suite: Suite, inp: Claims, now: int, resolve: Resolver)
    requires VerifyDelegationClaims(suite, inp, now, resolve).Ok?
    ensures forall hop <- VerifyDelegationClaims(suite, inp, now, resolve).value.swept ::
              SweptNames(hop).Ok? && SweptNames(hop).value.1.Str?
  {
    hide ParseCompact, CommittedChain, ChainOutcome, HopAlone, CheckRoot, SweptNames, SignedHop;
    var p := VerifyDelegationClaims(suite, inp, now, resolve).value;
    if p.swept != [] {
      ChainNamed(p.v, p.swept);
    }
  }

  // ----- the fail mode -----

  lemma {:induction false} FreshSame(suite: Suite, bodies: seq<Body>, p: Claims, q: Claims, now: int)
    requires forall b :: SnapshotIsStale(suite, b, p, now) == SnapshotIsStale(suite, b, q, now)
    ensures Fresh(suite, bodies, p, now) == Fresh(suite, bodies, q, now)
  {
    hide SnapshotIsStale;
    if bodies != [] {
      FreshSame(suite, bodies[1..], p, q, now);
    }
  }

  lemma {:induction false} SweepModes(index: map<string, set<string>>, hops: seq<string>, n: nat, m: string)
    requires n <= |hops| && m != FAIL_CLOSED
    ensures SweepOutcome(index, m, hops, n) == SweepOutcome(index, "fail_open", hops, n)
    ensures SweepOutcome(index, FAIL_CLOSED, hops, n).Ok? <==>
            && SweepOutcome(index, m, hops, n).Ok?
            && forall i | 0 <= i < n :: SweptNames(hops[i]).Ok? && SweptNames(hops[i]).value.0 in index
  {
    hide SweptNames;
    if n > 0 {
      SweepModes(index, hops, n - 1, m);
    }
  }

  lemma ModeInputs(suite: Suite, inp: Claims, mode: string, now: int, resolve: Resolver)
    requires mode in ["fail_closed", "fail_open", "soft_fail"]
    ensures var changed := WithFailMode(inp, mode);
            && PolicyFailMode(changed) == mode
            && VerifyDelegationClaims(suite, changed, now, resolve) == VerifyDelegationClaims(suite, inp, now, resolve)
            && (forall selfAid :: VerifiedBodies(suite, changed, selfAid) == VerifiedBodies(suite, inp, selfAid))
            && forall bodies, t ::
                 Fresh(suite, bodies, PolicyOf(changed), t) == Fresh(suite, bodies, PolicyOf(inp), t)
  {
    var changed := WithFailMode(inp, mode);
    OnlyTheMode(suite, inp, mode);
    ClaimsFrame(suite, changed, inp, now, resolve);
    assert Records(changed) == Records(inp);
    forall bodies, t ensures Fresh(suite, bodies, PolicyOf(changed), t) == Fresh(suite, bodies, PolicyOf(inp), t) {
      FreshSame(suite, bodies, PolicyOf(changed), PolicyOf(inp), t);
    }
    hide VerifyDelegationClaims, WithFailMode, Bodies, Records, PolicyOf, PolicyFailMode, Fresh;
  }

  /** The verifier and every swept issuer have a fresh body. */
  ghost predicate FullyCovered(inp: Claims, p: Pending) {
    var bodies := VerifiedBodies(p.v.suite, inp, p.v.selfAid);
    && bodies.Ok?
    && Fresh(p.v.suite, SignedBy(bodies.value, p.v.selfAid), PolicyOf(inp), p.v.now) != []
    && forall i | 0 <= i < |p.swept| ::
         && SweptNames(p.swept[i]).Ok?
         && SweptNames(p.swept[i]).value.0 in RevocationIndex(Fresh(p.v.suite, bodies.value, PolicyOf(inp), p.v.now))
  }

  /** The mode answers for absent bodies only, in the verifier's own list and in the sweep. */
  lemma RevocationModes(inp: Claims, p: Pending, closed: Claims, open: Claims, soft: Claims)
    requires PolicyFailMode(closed) == FAIL_CLOSED
    requires PolicyFailMode(open) == "fail_open" && PolicyFailMode(soft) == "soft_fail"
    requires forall x | x in [closed, open, soft] ::
               && VerifiedBodies(p.v.suite, x, p.v.selfAid) == VerifiedBodies(p.v.suite, inp, p.v.selfAid)
               && forall bodies ::
                    Fresh(p.v.suite, bodies, PolicyOf(x), p.v.now) == Fresh(p.v.suite, bodies, PolicyOf(inp), p.v.now)
    ensures CheckDelegationRevocation(open, p) == CheckDelegationRevocation(soft, p)
    ensures CheckDelegationRevocation(closed, p).Ok?
            <==> CheckDelegationRevocation(open, p).Ok? && FullyCovered(inp, p)
  {
    hide VerifiedBodies, Fresh, SignedBy, RevocationIndex, SweptNames, SweepOutcome, PolicyOf, PolicyFailMode;
    assert closed in [closed, open, soft] && open in [closed, open, soft] && soft in [closed, open, soft];
    var bodies := VerifiedBodies(p.v.suite, inp, p.v.selfAid);
    if bodies.Ok? {
      var index := RevocationIndex(Fresh(p.v.suite, bodies.value, PolicyOf(inp), p.v.now));
      SweepModes(index, p.swept, |p.swept|, "soft_fail");
      SweepModes(index, p.swept, |p.swept|, "fail_open");
    }
  }

  /**
   * Fail-mode refinement of delegations: the permissive modes give the same verdict, `fail_closed`
   * accepts nothing they do not, and what it refuses in addition is exactly what is not covered.
   */
  lemma FailModes(suite: Suite, inp: Claims, now: int, resolve: Resolver)
    ensures var closed := VerifyDelegationToken(suite, WithFailMode(inp, "fail_closed"), now, resolve);
            var soft := VerifyDelegationToken(suite, WithFailMode(inp, "soft_fail"), now, resolve);
            var open := VerifyDelegationToken(suite, WithFailMode(inp, "fail_open"), now, resolve);
            var p := VerifyDelegationClaims(suite, inp, now, resolve);
            && soft == open
            && (closed.Ok? ==> open == closed)
            && (closed.Ok? <==> open.Ok? && p.Ok? && FullyCovered(inp, p.value))
  {
    hide VerifyDelegationClaims, CheckDelegationRevocation, FullyCovered, VerifiedBodies, Fresh, WithFailMode,
         PolicyOf, PolicyFailMode;
    ModeInputs(suite, inp, "fail_closed", now, resolve);
    ModeInputs(suite, inp, "soft_fail", now, resolve);
    ModeInputs(suite, inp, "fail_open", now, resolve);
    var r := VerifyDelegationClaims(suite, inp, now, resolve);
    if r.Ok? {
      PendingSuite(suite, inp, now, resolve);
      RevocationModes(inp, r.value, WithFailMode(inp, "fail_closed"), WithFailMode(inp, "fail_open"),
                      WithFailMode(inp, "soft_fail"));
    }
  }

  lemma PendingSuite(suite: Suite, inp: Claims, now: int, resolve: Resolver)
    requires VerifyDelegationClaims(suite, inp, now, resolve).Ok?
    ensures VerifyDelegationClaims(suite, inp, now, resolve).value.v.suite == suite
  {
    hide ParseCompact, SignedHop, CheckRoot, CommittedChain, ChainOutcome, HopAlone;
  }
}
