/** Revocation snapshots and policy (sections 1.5 and 3 of RFC-AITP-0008). */
module Revocation {
  import opened Wrappers
  import opened KeyMath
  import opened Aids
  import opened Jcs
  import opened Jws
  import opened Fields
  import Base64Url

  const INVALID := "REVOCATION_SNAPSHOT_INVALID"
  const BAD_SIGNATURE := "REVOCATION_SNAPSHOT_SIGNATURE_INVALID"

  /** What a verified `revocation_list` says. */
  datatype Body = Body(issuer: string, publishedAt: int, expiresAt: int, jtis: seq<string>)

  // ----- the snapshot -----

  predicate EntryShape(e: Json) {
    && e.Obj?
    && WellTyped(e.members, {"jti", "revoked_at"},
                 map["jti" := Text, "revoked_at" := Integer, "reason" := Text])
  }

  predicate BodyShape(b: Json) {
    && b.Obj?
    && WellTyped(b.members, {"version", "issuer", "published_at", "expires_at", "entries"},
                 map["version" := Text, "issuer" := Text, "published_at" := Integer,
                     "expires_at" := Integer, "entries" := List, "extensions" := Dict])
    && b.members["version"] == Str(PROTOCOL_VERSION)
    && b.members["entries"].Arr?
    && forall e <- b.members["entries"].items :: EntryShape(e)
  }

  /** `_validate_shape`. */
  predicate SnapshotShape(snapshot: Json) {
    && snapshot.Obj?
    && {"revocation_list", "signature"} <= snapshot.members.Keys
    && snapshot.members["signature"].Str?
    && BodyShape(snapshot.members["revocation_list"])
  }

  predicate EntriesKnown(entries: seq<Json>) {
    forall e <- entries :: e.Obj? && e.members.Keys <= {"jti", "revoked_at", "reason"}
  }

  function Listed(entries: seq<Json>): (jtis: seq<string>)
    requires forall e <- entries :: EntryShape(e)
  {
    seq(|entries|, i requires 0 <= i < |entries| => JtiOf(entries[i]))
  }

  function JtiOf(e: Json): string
    requires EntryShape(e)
  {
    e.members["jti"].s
  }

  function BodyOf(b: Json): Body
    requires BodyShape(b)
  {
    Body(b.members["issuer"].s, IntOf(b.members["published_at"]), IntOf(b.members["expires_at"]),
         Listed(b.members["entries"].items))
  }

  /** `verify_snapshot_trust`: shape, member sets, signature. */
  function VerifySnapshotTrust(suite: Suite, snapshot: Json): (r: Outcome<Body>)
    ensures !r.Crash?
  {
    if !SnapshotShape(snapshot) then Err(INVALID)
    else
      var b := snapshot.members["revocation_list"];
      var _ :- KnownOnly(snapshot.members, {"revocation_list", "signature"});
      var _ :- KnownOnly(b.members, {"version", "issuer", "published_at", "expires_at", "entries", "extensions"});
      var _ :- Need(EntriesKnown(b.members["entries"].items), "UNKNOWN_FIELD");
      var issuer :- OrErr(ParseAid(suite, b.members["issuer"].s), INVALID);
      var raw :- DecodeTagged(snapshot.members["signature"].s, issuer.alg, BAD_SIGNATURE);
      var canonical :- OrErr(Canonicalize(b), INVALID);
      if VerifyDigest(suite, issuer, suite.sha256(canonical), raw) then Ok(BodyOf(b)) else Err(BAD_SIGNATURE)
  }

  /** A 64-byte signature by the issuer over the digest of the body's canonical form. */
  ghost predicate SignedByIssuer(suite: Suite, b: Claims, issuer: string, signature: string) {
    exists aid, raw, canonical ::
      && ParseAid(suite, issuer) == Some(aid)
      && DecodeTagged(signature, aid.alg, BAD_SIGNATURE) == Ok(raw)
      && Canonicalize(Obj(b)) == Some(canonical)
      && VerifyDigest(suite, aid, suite.sha256(canonical), raw)
  }

  /** An entry of the schema, for this jti. */
  ghost predicate EntrySays(e: Json, jti: string) {
    && e.Obj? && Get(e.members, "jti") == Str(jti) && IsWhole(Get(e.members, "revoked_at"))
    && ("reason" in e.members ==> e.members["reason"].Str?)
  }

  /** The revocation list says this: its issuer, its two times, and the jti of every entry in order. */
  ghost predicate ListSays(b: Claims, body: Body) {
    && Get(b, "version") == Str("aitp/0.3") && Get(b, "issuer") == Str(body.issuer)
    && IsInt(Get(b, "published_at"), body.publishedAt) && IsInt(Get(b, "expires_at"), body.expiresAt)
    && ("extensions" in b ==> b["extensions"].Obj?)
    && Get(b, "entries").Arr? && |Get(b, "entries").items| == |body.jtis|
    && forall i | 0 <= i < |body.jtis| :: EntrySays(Get(b, "entries").items[i], body.jtis[i])
  }

  lemma EntryMeaning(e: Json, jti: string)
    ensures EntryShape(e) && JtiOf(e) == jti <==> EntrySays(e, jti)
  {
    hide IsInteger, IsWhole;
    if e.Obj? {
      IntMeaning(Get(e.members, "revoked_at"), 0);
    }
  }

  lemma BodyShapeMembers(b: Claims)
    ensures BodyShape(Obj(b)) <==>
            && Get(b, "version") == Str("aitp/0.3") && Get(b, "issuer").Str?
            && HasKind(Get(b, "published_at"), Integer) && HasKind(Get(b, "expires_at"), Integer)
            && ("extensions" in b ==> b["extensions"].Obj?)
            && Get(b, "entries").Arr? && forall e <- Get(b, "entries").items :: EntryShape(e)
  {
    hide EntryShape, IsInteger;
  }

  lemma ListMeaning(b: Claims, body: Body)
    ensures BodyShape(Obj(b)) && BodyOf(Obj(b)) == body <==> ListSays(b, body)
  {
    hide BodyShape, EntryShape, EntrySays, IsInteger, IsInt, JtiOf, HasKind;
    BodyShapeMembers(b);
    if BodyShape(Obj(b)) {
      BodyOfMembers(b);
    }
    IntMeaning(Get(b, "published_at"), body.publishedAt);
    IntMeaning(Get(b, "expires_at"), body.expiresAt);
    if Get(b, "entries").Arr? {
      EntriesMeaning(Get(b, "entries").items, body.jtis);
    }
  }

  lemma BodyOfMembers(b: Claims)
    requires BodyShape(Obj(b))
    ensures Get(b, "entries").Arr? && (forall e <- Get(b, "entries").items :: EntryShape(e))
    ensures HasKind(Get(b, "published_at"), Integer) && HasKind(Get(b, "expires_at"), Integer)
    ensures Get(b, "issuer").Str?
    ensures BodyOf(Obj(b)) == Body(Get(b, "issuer").s, IntOf(Get(b, "published_at")), IntOf(Get(b, "expires_at")),
                                   Listed(Get(b, "entries").items))
  {
    hide EntryShape, IsInteger, Truncate;
  }

  lemma EntriesMeaning(entries: seq<Json>, jtis: seq<string>)
    ensures (forall e <- entries :: EntryShape(e)) && Listed(entries) == jtis
            <==> |entries| == |jtis| && forall i | 0 <= i < |jtis| :: EntrySays(entries[i], jtis[i])
  {
    hide EntryShape, EntrySays, JtiOf;
    if forall e <- entries :: EntryShape(e) {
      forall i | 0 <= i < |entries| ensures EntrySays(entries[i], Listed(entries)[i]) {
        EntryMeaning(entries[i], JtiOf(entries[i]));
      }
    }
    if |entries| == |jtis| && forall i | 0 <= i < |jtis| :: EntrySays(entries[i], jtis[i]) {
      forall i | 0 <= i < |entries| ensures EntryShape(entries[i]) && JtiOf(entries[i]) == jtis[i] {
        EntryMeaning(entries[i], jtis[i]);
      }
      forall e | e in entries ensures EntryShape(e) {
        var i :| 0 <= i < |entries| && entries[i] == e;
      }
      assert Listed(entries) == jtis;
    }
  }

  /** The entries of a snapshot, wherever they can be found. */
  function EntriesOf(snapshot: Json): seq<Json> {
    var list := if snapshot.Obj? then Get(snapshot.members, "revocation_list") else Null;
    var entries := if list.Obj? then Get(list.members, "entries") else Null;
    if entries.Arr? then entries.items else []
  }

  /** Some entry of the snapshot is for this jti. */
  ghost predicate Lists(snapshot: Json, jti: string) {
    exists e <- EntriesOf(snapshot) :: e.Obj? && Get(e.members, "jti") == Str(jti)
  }

  /** A wrapper of exactly two members, around a list that says this and a signature of its issuer. */
  ghost predicate Genuine(suite: Suite, snapshot: Json, b: Claims, signature: string, body: Body) {
    && snapshot == Obj(map["revocation_list" := Obj(b), "signature" := Str(signature)])
    && ListSays(b, body)
    && b.Keys <= {"version", "issuer", "published_at", "expires_at", "entries", "extensions"}
    && (forall e <- Get(b, "entries").items :: e.members.Keys <= {"jti", "revoked_at", "reason"})
    && SignedByIssuer(suite, b, body.issuer, signature)
  }

  lemma SnapshotShapeMembers(snapshot: Json)
    ensures SnapshotShape(snapshot) <==>
            && snapshot.Obj? && Get(snapshot.members, "signature").Str?
            && Get(snapshot.members, "revocation_list").Obj? && BodyShape(Get(snapshot.members, "revocation_list"))
  {
    hide EntryShape, HasKind, WellTyped;
  }

  lemma WrapperMembers(members: Claims)
    requires Get(members, "revocation_list") != Null && Get(members, "signature") != Null
    ensures members.Keys <= {"revocation_list", "signature"} <==>
            members == map["revocation_list" := Get(members, "revocation_list"), "signature" := Get(members, "signature")]
  {
    var w := map["revocation_list" := Get(members, "revocation_list"), "signature" := Get(members, "signature")];
    if members.Keys <= {"revocation_list", "signature"} {
      assert members.Keys == w.Keys;
    }
  }

  lemma ListMembers(b: Claims, body: Body)
    requires ListSays(b, body)
    ensures Get(b, "issuer") == Str(body.issuer) && Get(b, "entries").Arr?
    ensures forall e <- Get(b, "entries").items :: e.Obj?
    ensures EntriesKnown(Get(b, "entries").items)
            <==> forall e <- Get(b, "entries").items :: e.members.Keys <= {"jti", "revoked_at", "reason"}
  {
    forall e | e in Get(b, "entries").items ensures e.Obj? {
      var i :| 0 <= i < |Get(b, "entries").items| && Get(b, "entries").items[i] == e;
    }
    hide IsInt, EntrySays;
  }

  /** A snapshot is trusted exactly when it is genuine, and then for what its own JSON says. */
  lemma TrustMeaning(suite: Suite, snapshot: Json, body: Body)
    ensures VerifySnapshotTrust(suite, snapshot) == Ok(body) <==>
            exists b: Claims, signature: string :: Genuine(suite, snapshot, b, signature, body)
  {
    if VerifySnapshotTrust(suite, snapshot) == Ok(body) {
      TrustSound(suite, snapshot);
    }
    forall b: Claims, signature: string | Genuine(suite, snapshot, b, signature, body)
      ensures VerifySnapshotTrust(suite, snapshot) == Ok(body)
    {
      TrustComplete(suite, snapshot, b, signature, body);
    }
    hide VerifySnapshotTrust, Genuine;
  }

  lemma TrustSound(suite: Suite, snapshot: Json)
    requires VerifySnapshotTrust(suite, snapshot).Ok?
    ensures exists b: Claims, signature: string ::
              Genuine(suite, snapshot, b, signature, VerifySnapshotTrust(suite, snapshot).value)
  {
    hide ParseAid, DecodeTagged, Canonicalize, VerifyDigest, EntriesKnown, BodyShape, BodyOf, ListSays, SnapshotShape;
    SnapshotShapeMembers(snapshot);
    var b := Get(snapshot.members, "revocation_list").members;
    var signature := Get(snapshot.members, "signature").s;
    var body := BodyOf(Obj(b));
    ListMeaning(b, body);
    ListMembers(b, body);
    WrapperMembers(snapshot.members);
    assert Genuine(suite, snapshot, b, signature, body);
  }

  lemma TrustComplete(suite: Suite, snapshot: Json, b: Claims, signature: string, body: Body)
    requires Genuine(suite, snapshot, b, signature, body)
    ensures VerifySnapshotTrust(suite, snapshot) == Ok(body)
  {
    hide ParseAid, DecodeTagged, Canonicalize, VerifyDigest, EntriesKnown, BodyShape, BodyOf, ListSays, SnapshotShape;
    var w := map["revocation_list" := Obj(b), "signature" := Str(signature)];
    assert Get(w, "revocation_list") == Obj(b) && Get(w, "signature") == Str(signature);
    SnapshotShapeMembers(snapshot);
    ListMeaning(b, body);
    ListMembers(b, body);
  }

  /** The deny list of a trusted snapshot is what its entries say, all of them. */
  lemma ListedMeaning(suite: Suite, snapshot: Json, body: Body, jti: string)
    requires VerifySnapshotTrust(suite, snapshot) == Ok(body)
    ensures jti in body.jtis <==> Lists(snapshot, jti)
  {
    hide VerifySnapshotTrust, SignedByIssuer, IsInt;
    TrustMeaning(suite, snapshot, body);
    var b: Claims, signature: string :| Genuine(suite, snapshot, b, signature, body);
    var w := map["revocation_list" := Obj(b), "signature" := Str(signature)];
    assert Get(w, "revocation_list") == Obj(b);
    var entries := Get(b, "entries").items;
    assert EntriesOf(snapshot) == entries;
    if jti in body.jtis {
      var i :| 0 <= i < |body.jtis| && body.jtis[i] == jti;
      assert EntrySays(entries[i], body.jtis[i]) && entries[i] in entries;
    }
    if e :| e in entries && e.Obj? && Get(e.members, "jti") == Str(jti) {
      var i :| 0 <= i < |entries| && entries[i] == e;
      assert EntrySays(entries[i], body.jtis[i]);
    }
  }

  lemma DecodeTaggedCode(sig: string, alg: Alg, code: string)
    ensures DecodeTagged(sig, alg, code).Ok? || DecodeTagged(sig, alg, code) == Err(code)
  {
    hide Base64Url.Decode;
  }

  /**
   * What the three codes mean. A shape defect wins over an unknown member and that over everything
   * about the signature; there an issuer that is no AID or a body that cannot be canonicalized is
   * `INVALID`, and every other defect `BAD_SIGNATURE`.
   */
  lemma TrustCodes(suite: Suite, snapshot: Json)
    ensures var r := VerifySnapshotTrust(suite, snapshot);
            && (r.Ok? || r in [Err("REVOCATION_SNAPSHOT_INVALID"), Err("UNKNOWN_FIELD"),
                               Err("REVOCATION_SNAPSHOT_SIGNATURE_INVALID")])
            && (!SnapshotShape(snapshot) ==> r == Err("REVOCATION_SNAPSHOT_INVALID"))
            && (SnapshotShape(snapshot) ==>
                  var b := snapshot.members["revocation_list"];
                  var known := snapshot.members.Keys == {"revocation_list", "signature"}
                               && b.members.Keys <= {"version", "issuer", "published_at", "expires_at", "entries", "extensions"}
                               && EntriesKnown(b.members["entries"].items);
                  && (r == Err("UNKNOWN_FIELD") <==> !known)
                  && (known ==>
                        var issuer := ParseAid(suite, b.members["issuer"].s);
                        (r == Err("REVOCATION_SNAPSHOT_INVALID") <==>
                           || issuer.None?
                           || (DecodeTagged(snapshot.members["signature"].s, issuer.value.alg, BAD_SIGNATURE).Ok?
                               && Canonicalize(b).None?))))
  {
    hide ParseAid, DecodeTagged, Canonicalize, VerifyDigest, EntriesKnown;
    if SnapshotShape(snapshot) {
      var b := snapshot.members["revocation_list"];
      var aid := ParseAid(suite, b.members["issuer"].s);
      if aid.Some? {
        DecodeTaggedCode(snapshot.members["signature"].s, aid.value.alg, BAD_SIGNATURE);
      }
    }
  }

  // ----- the policy -----

  const FAIL_CLOSED := "fail_closed"

  /** `resolve_fail_mode`. */
  function ResolveFailMode(v: Json): string {
    if v.Str? && v.s in ["fail_closed", "fail_open", "soft_fail"] then v.s else FAIL_CLOSED
  }

  /** `policy_of`. */
  function PolicyOf(inp: Claims): Claims {
    var policy := Get(inp, "policy");
    if policy.Obj? then policy.members else map[]
  }

  /** `policy_fail_mode`. */
  function PolicyFailMode(inp: Claims): string {
    var policy := PolicyOf(inp);
    if "fail_mode" in policy then ResolveFailMode(policy["fail_mode"]) else FAIL_CLOSED
  }

  /** The mode is permissive only where the caller's own policy spells one of the two permissive names. */
  lemma PermissiveOnlyByName(inp: Claims)
    ensures PolicyFailMode(inp) != FAIL_CLOSED <==>
            exists m, p: Claims ::
              && m in ["fail_open", "soft_fail"]
              && Get(inp, "policy") == Obj(p) && Get(p, "fail_mode") == Str(m)
  {
    if PolicyFailMode(inp) != FAIL_CLOSED {
      var m, p := PolicyFailMode(inp), PolicyOf(inp);
      assert Get(inp, "policy") == Obj(p) && Get(p, "fail_mode") == Str(m);
    }
  }

  /** `snapshot_is_stale`. */
  predicate SnapshotIsStale(suite: Suite, body: Body, policy: Claims, now: int) {
    if now >= body.expiresAt then true
    else
      var limit := Get(policy, "max_staleness_secs");
      if limit.Null? then false
      else
        match PyInt(suite, limit)
        case Ok(bound) => now - body.publishedAt > bound
        case _ => true
  }

  function Min(a: int, b: int): int { if a <= b then a else b }

  /** The instant at which a snapshot stops being fresh; an unusable bound leaves it none. */
  function FreshUntil(suite: Suite, body: Body, policy: Claims): Option<int> {
    var limit := Get(policy, "max_staleness_secs");
    if limit.Null? then Some(body.expiresAt)
    else
      match PyInt(suite, limit)
      case Ok(bound) => Some(Min(body.expiresAt, body.publishedAt + bound + 1))
      case _ => None
  }

  /** Under one policy a snapshot is fresh at exactly the times before that instant. */
  lemma FreshBefore(suite: Suite, body: Body, policy: Claims)
    ensures forall now ::
              !SnapshotIsStale(suite, body, policy, now)
              <==> FreshUntil(suite, body, policy).Some? && now < FreshUntil(suite, body, policy).value
  {
  }

  lemma FreshEarlier(suite: Suite, body: Body, policy: Claims, now: int, earlier: int)
    requires earlier <= now && !SnapshotIsStale(suite, body, policy, now)
    ensures !SnapshotIsStale(suite, body, policy, earlier)
  {
    hide SnapshotIsStale, FreshUntil;
    FreshBefore(suite, body, policy);
  }

  // ----- the operation on the snapshot itself -----

  datatype Verdict = NotRevoked(stale: bool)

  /** `verify_revocation_snapshot` with the clock `now`. */
  function VerifyRevocationSnapshot(suite: Suite, inp: Claims, now: int): Outcome<Verdict> {
    if "snapshot" !in inp then Crash("KeyError")
    else
      var body :- VerifySnapshotTrust(suite, inp["snapshot"]);
      var usable := Str(body.issuer) == Get(inp, "expected_issuer")
                    && !SnapshotIsStale(suite, body, PolicyOf(inp), now);
      if !usable then
        if PolicyFailMode(inp) in ["soft_fail", "fail_open"] then Ok(NotRevoked(true)) else Err("TCT_REVOKED")
      else
        var queried := Get(inp, "queried_jti");
        if queried.Str? && queried.s in body.jtis then Err("TCT_REVOKED") else Ok(NotRevoked(false))
  }

  function WithFailMode(inp: Claims, mode: string): Claims {
    inp["policy" := Obj(PolicyOf(inp)["fail_mode" := Str(mode)])]
  }

  /** Changing the mode changes neither the rest of the policy nor any other input. */
  lemma OnlyTheMode(suite: Suite, inp: Claims, mode: string)
    requires mode in ["fail_closed", "fail_open", "soft_fail"]
    ensures PolicyFailMode(WithFailMode(inp, mode)) == mode
    ensures forall k | k != "policy" ::
              (k in WithFailMode(inp, mode) <==> k in inp) && Get(WithFailMode(inp, mode), k) == Get(inp, k)
    ensures forall body, now ::
              SnapshotIsStale(suite, body, PolicyOf(WithFailMode(inp, mode)), now)
              == SnapshotIsStale(suite, body, PolicyOf(inp), now)
  {
    assert Get(PolicyOf(WithFailMode(inp, mode)), "max_staleness_secs") == Get(PolicyOf(inp), "max_staleness_secs");
  }

  /** The snapshot applies: it is the expected peer's and fresh. */
  ghost predicate Applies(suite: Suite, inp: Claims, body: Body, now: int) {
    Str(body.issuer) == Get(inp, "expected_issuer") && !SnapshotIsStale(suite, body, PolicyOf(inp), now)
  }

  /** Some entry of the supplied snapshot is for the queried jti. */
  ghost predicate QueryListed(inp: Claims) {
    exists e <- EntriesOf(Get(inp, "snapshot")) :: e.Obj? && Get(e.members, "jti") == Get(inp, "queried_jti")
  }

  lemma QueryMeaning(suite: Suite, inp: Claims, body: Body)
    requires VerifySnapshotTrust(suite, Get(inp, "snapshot")) == Ok(body)
    ensures QueryListed(inp) <==> Get(inp, "queried_jti").Str? && Get(inp, "queried_jti").s in body.jtis
  {
    hide VerifySnapshotTrust, ListSays, SignedByIssuer;
    var snapshot, queried := Get(inp, "snapshot"), Get(inp, "queried_jti");
    if queried.Str? {
      ListedMeaning(suite, snapshot, body, queried.s);
    } else {
      EntriesNamed(suite, snapshot, body);
    }
  }

  lemma EntriesNamed(suite: Suite, snapshot: Json, body: Body)
    requires VerifySnapshotTrust(suite, snapshot) == Ok(body)
    ensures forall e <- EntriesOf(snapshot) :: e.Obj? && Get(e.members, "jti").Str?
  {
    hide VerifySnapshotTrust, SignedByIssuer, IsInt;
    TrustMeaning(suite, snapshot, body);
    var b: Claims, signature: string :| Genuine(suite, snapshot, b, signature, body);
    var w := map["revocation_list" := Obj(b), "signature" := Str(signature)];
    assert Get(w, "revocation_list") == Obj(b);
    var entries := Get(b, "entries").items;
    assert EntriesOf(snapshot) == entries;
    forall e | e in entries ensures e.Obj? && Get(e.members, "jti").Str? {
      var i :| 0 <= i < |entries| && entries[i] == e;
      assert EntrySays(entries[i], body.jtis[i]);
    }
  }

  /**
   * A snapshot that was obtained and cannot be trusted reports its own defect under every mode. The
   * mode answers only for an untimely or foreign one: where the snapshot applies, every mode gives
   * the same answer, and a listed jti is revoked.
   */
  lemma ModeOnlyForAbsence(suite: Suite, inp: Claims, now: int, mode: string)
    requires "snapshot" in inp && mode in ["fail_open", "soft_fail"]
    ensures var closed := VerifyRevocationSnapshot(suite, WithFailMode(inp, "fail_closed"), now);
            var open := VerifyRevocationSnapshot(suite, WithFailMode(inp, mode), now);
            var trust := VerifySnapshotTrust(suite, inp["snapshot"]);
            if !trust.Ok? then closed == open && !open.Ok? && open.PropagateFailure<Body>() == trust
            else if Applies(suite, inp, trust.value, now) then
              && closed == open
              && open == if QueryListed(inp) then Err("TCT_REVOKED") else Ok(NotRevoked(false))
            else closed == Err("TCT_REVOKED") && open == Ok(NotRevoked(true))
  {
    hide VerifySnapshotTrust, SnapshotIsStale, WithFailMode, PolicyFailMode, PolicyOf;
    OnlyTheMode(suite, inp, "fail_closed");
    OnlyTheMode(suite, inp, mode);
    var closed, open := WithFailMode(inp, "fail_closed"), WithFailMode(inp, mode);
    assert closed["snapshot"] == Get(closed, "snapshot") && open["snapshot"] == Get(open, "snapshot");
    var trust := VerifySnapshotTrust(suite, inp["snapshot"]);
    if trust.Ok? {
      QueryMeaning(suite, inp, trust.value);
    }
    hide QueryListed;
  }
}
