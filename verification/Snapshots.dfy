/** The revocation snapshots of a delegation: verified bodies, their index, the verifier's own list. */
module Snapshots {
  import opened Wrappers
  import opened KeyMath
  import opened Jcs
  import opened Jws
  import opened Revocation

  const REVOKED := "DELEGATION_SOURCE_TCT_REVOKED"

  /** `revocation_snapshots`: absent is empty, anything but a list is a malformed field. */
  function Records(inp: Claims): Outcome<seq<Json>> {
    match Get(inp, "revocation_snapshots")
    case Null => Ok([])
    case Arr(items) => Ok(items)
    case _ => Err(INVALID)
  }

  function MemberOf(record: Json, name: string): Json {
    if record.Obj? then Get(record.members, name) else Null
  }

  function Trust(suite: Suite, record: Json): Outcome<Body> {
    VerifySnapshotTrust(suite, MemberOf(record, "snapshot"))
  }

  /** Labelled as the verifier's own list, or not labelled, so that it may be. */
  predicate MayBeOwn(record: Json, selfAid: string) {
    var name := MemberOf(record, "issuer_aid");
    !name.Str? || name.s == selfAid
  }

  /** A record is somebody else's only if it is an object with a text label that names another issuer. */
  lemma OwnMeaning(record: Json, selfAid: string)
    ensures MayBeOwn(record, selfAid) <==>
            !exists other: string ::
               record.Obj? && Get(record.members, "issuer_aid") == Str(other) && other != selfAid
  {
  }

  /** The verified bodies in order, or the defect of the first failing record that may be the verifier's own. */
  function Bodies(suite: Suite, records: seq<Json>, selfAid: string): Outcome<seq<Body>> {
    if records == [] then Ok([])
    else
      var last := records[|records| - 1];
      var bodies :- Bodies(suite, records[..|records| - 1], selfAid);
      match Trust(suite, last)
      case Ok(body) => Ok(bodies + [body])
      case Err(code) => if MayBeOwn(last, selfAid) then Err(code) else Ok(bodies)
      case Crash(kind) => Crash(kind)
  }

  /** `_verified_snapshot_bodies`. */
  method VerifiedSnapshotBodies(suite: Suite, inp: Claims, selfAid: string) returns (r: Outcome<seq<Body>>)
    ensures r == VerifiedBodies(suite, inp, selfAid)
  {
    hide VerifySnapshotTrust, MayBeOwn;
    var records :- Records(inp);
    var bodies: seq<Body> := [];
    assert records[..0] == [];
    for i := 0 to |records|
      invariant Bodies(suite, records[..i], selfAid) == Ok(bodies)
    {
      var record := records[i];
      assert records[..i + 1][..i] == records[..i];
      var t := Trust(suite, record);
      if t.Ok? {
        bodies := bodies + [t.value];
      } else if MayBeOwn(record, selfAid) {
        BodiesFail(suite, records, selfAid, i);
        return Err(t.code);
      }
    }
    assert records[..|records|] == records;
    return Ok(bodies);
  }

  function VerifiedBodies(suite: Suite, inp: Claims, selfAid: string): Outcome<seq<Body>> {
    var records :- Records(inp);
    Bodies(suite, records, selfAid)
  }

  /** A record that fails and may be the verifier's own decides the outcome. */
  lemma {:induction false} BodiesFail(suite: Suite, records: seq<Json>, selfAid: string, i: nat)
    requires i < |records| && Bodies(suite, records[..i], selfAid).Ok?
    requires Trust(suite, records[i]).Err? && MayBeOwn(records[i], selfAid)
    ensures Bodies(suite, records, selfAid) == Err(Trust(suite, records[i]).code)
    decreases |records|
  {
    hide VerifySnapshotTrust, MayBeOwn;
    var front := records[..|records| - 1];
    if i < |front| {
      assert front[..i] == records[..i];
      BodiesFail(suite, front, selfAid, i);
    }
  }

  /**
   * What the verified bodies are: the bodies of the records that verify, all of them. They exist
   * exactly when every record that may be the verifier's own verifies, in whatever mode.
   */
  lemma {:induction false} BodiesMeaning(suite: Suite, records: seq<Json>, selfAid: string)
    ensures var r := Bodies(suite, records, selfAid);
            && !r.Crash?
            && (r.Ok? <==> forall x <- records :: MayBeOwn(x, selfAid) ==> Trust(suite, x).Ok?)
            && (r.Ok? ==> forall b :: b in r.value <==> exists x :: x in records && Trust(suite, x) == Ok(b))
  {
    hide VerifySnapshotTrust, MayBeOwn;
    if records != [] {
      var front, last := records[..|records| - 1], records[|records| - 1];
      BodiesMeaning(suite, front, selfAid);
      assert forall x :: x in records <==> x in front || x == last;
    }
  }

  // ----- the index -----

  function Set(ss: seq<string>): (r: set<string>)
    ensures forall s :: s in r <==> s in ss
  {
    set s | s in ss
  }

  function Issuers(bodies: seq<Body>): set<string> {
    set b | b in bodies :: b.issuer
  }

  /** For each issuer with a body, every jti that one of its bodies lists. */
  function RevocationIndex(bodies: seq<Body>): map<string, set<string>> {
    map iss | iss in Issuers(bodies) :: set b, j | b in bodies && b.issuer == iss && j in b.jtis :: j
  }

  lemma IndexStep(bodies: seq<Body>, b: Body)
    ensures var before := RevocationIndex(bodies);
            RevocationIndex(bodies + [b])
            == before[b.issuer := (if b.issuer in before then before[b.issuer] else {}) + Set(b.jtis)]
  {
    var before, after := RevocationIndex(bodies), RevocationIndex(bodies + [b]);
    assert forall x :: x in bodies + [b] <==> x in bodies || x == b;
    assert after.Keys == before.Keys + {b.issuer};
    forall iss <- after ensures after[iss]
      == if iss != b.issuer then before[iss]
         else (if b.issuer in before then before[b.issuer] else {}) + Set(b.jtis)
    {
    }
  }

  /** `_revocation_index`. */
  method BuildRevocationIndex(bodies: seq<Body>) returns (index: map<string, set<string>>)
    ensures index == RevocationIndex(bodies)
  {
    index := map[];
    assert bodies[..0] == [];
    for i := 0 to |bodies|
      invariant index == RevocationIndex(bodies[..i])
    {
      var b := bodies[i];
      IndexStep(bodies[..i], b);
      assert bodies[..i + 1] == bodies[..i] + [b];
      var before := if b.issuer in index then index[b.issuer] else {};
      index := index[b.issuer := before + Set(b.jtis)];
    }
    assert bodies[..|bodies|] == bodies;
  }

  /** The index against a direct scan of the bodies, and its order-independence. */
  lemma IndexAgrees(bodies: seq<Body>, iss: string, jti: string)
    ensures iss in RevocationIndex(bodies) <==> exists b :: b in bodies && b.issuer == iss
    ensures iss in RevocationIndex(bodies) && jti in RevocationIndex(bodies)[iss]
            <==> exists b :: b in bodies && b.issuer == iss && jti in b.jtis
  {
  }

  // ----- freshness and the verifier's own list -----

  function Select(bodies: seq<Body>, keep: Body -> bool): (r: seq<Body>)
    ensures forall b :: b in r <==> b in bodies && keep(b)
  {
    if bodies == [] then []
    else (if keep(bodies[0]) then [bodies[0]] else []) + Select(bodies[1..], keep)
  }

  function Fresh(suite: Suite, bodies: seq<Body>, policy: Claims, now: int): seq<Body> {
    Select(bodies, (b: Body) => !SnapshotIsStale(suite, b, policy, now))
  }

  function SignedBy(bodies: seq<Body>, iss: string): seq<Body> {
    Select(bodies, (b: Body) => b.issuer == iss)
  }

  /** `_check_source_tct_revocation`. */
  function CheckSourceRevocation(suite: Suite, inp: Claims, bodies: seq<Body>, selfAid: string,
                                 srcJti: string, now: int): Outcome<()>
  {
    var applicable := Fresh(suite, SignedBy(bodies, selfAid), PolicyOf(inp), now);
    if applicable == [] then Need(PolicyFailMode(inp) != FAIL_CLOSED, REVOKED)
    else Need(forall b <- applicable :: srcJti !in b.jtis, REVOKED)
  }

  /** Some fresh body in `bodies` is signed by `iss`. */
  predicate Covered(suite: Suite, bodies: seq<Body>, policy: Claims, iss: string, now: int) {
    exists b <- bodies :: b.issuer == iss && !SnapshotIsStale(suite, b, policy, now)
  }

  /** Some fresh body signed by `iss` lists `jti`. */
  predicate ListedBy(suite: Suite, bodies: seq<Body>, policy: Claims, iss: string, jti: string, now: int) {
    exists b <- bodies :: b.issuer == iss && !SnapshotIsStale(suite, b, policy, now) && jti in b.jtis
  }

  /** Listing, said of the records: some trusted snapshot of `iss`, still fresh, has an entry for the jti. */
  lemma ListedInRecords(suite: Suite, records: seq<Json>, selfAid: string, policy: Claims,
                        iss: string, jti: string, now: int)
    requires Bodies(suite, records, selfAid).Ok?
    ensures ListedBy(suite, Bodies(suite, records, selfAid).value, policy, iss, jti, now) <==>
            exists record, body: Body ::
              && record in records && Trust(suite, record) == Ok(body)
              && body.issuer == iss && !SnapshotIsStale(suite, body, policy, now)
              && Lists(MemberOf(record, "snapshot"), jti)
  {
    hide Bodies, SnapshotIsStale, Lists, VerifySnapshotTrust;
    BodiesMeaning(suite, records, selfAid);
    forall record, body: Body | record in records && Trust(suite, record) == Ok(body)
      ensures jti in body.jtis <==> Lists(MemberOf(record, "snapshot"), jti)
    {
      Revocation.ListedMeaning(suite, MemberOf(record, "snapshot"), body, jti);
    }
  }

  /** Not listed by any fresh body of `iss`, which has one unless the mode is permissive. */
  predicate Clear(suite: Suite, inp: Claims, bodies: seq<Body>, iss: string, jti: string, now: int) {
    && !ListedBy(suite, bodies, PolicyOf(inp), iss, jti, now)
    && (Covered(suite, bodies, PolicyOf(inp), iss, now) || PolicyFailMode(inp) != FAIL_CLOSED)
  }

  lemma SourceMeaning(suite: Suite, inp: Claims, bodies: seq<Body>, selfAid: string, srcJti: string, now: int)
    ensures CheckSourceRevocation(suite, inp, bodies, selfAid, srcJti, now)
         == if Clear(suite, inp, bodies, selfAid, srcJti, now) then Ok(()) else Err("DELEGATION_SOURCE_TCT_REVOKED")
  {
    hide SnapshotIsStale, PolicyFailMode, PolicyOf;
    var policy := PolicyOf(inp);
    var applicable := Fresh(suite, SignedBy(bodies, selfAid), policy, now);
    assert forall b :: b in applicable <==>
      b in bodies && b.issuer == selfAid && !SnapshotIsStale(suite, b, policy, now);
    if applicable != [] {
      assert applicable[0] in applicable;
    }
  }

  /** The sweep's lookups in the index of the fresh bodies are the same question. */
  lemma SweepMeaning(suite: Suite, inp: Claims, bodies: seq<Body>, iss: string, jti: string, now: int)
    ensures var index := RevocationIndex(Fresh(suite, bodies, PolicyOf(inp), now));
            Clear(suite, inp, bodies, iss, jti, now)
            <==> && !(iss in index && jti in index[iss])
                 && (iss in index || PolicyFailMode(inp) != FAIL_CLOSED)
  {
    var timely := Fresh(suite, bodies, PolicyOf(inp), now);
    assert forall b :: b in timely <==> b in bodies && !SnapshotIsStale(suite, b, PolicyOf(inp), now);
    IndexAgrees(timely, iss, jti);
    hide SnapshotIsStale, PolicyFailMode, PolicyOf, RevocationIndex, Fresh;
  }
}
