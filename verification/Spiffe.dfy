/** SPIFFE trust bundles and X509-SVID certification paths (section 6.4 of RFC-AITP-0002). */
module Spiffe {
  import opened Wrappers
  import opened Bytes
  import opened Jcs
  import opened Jws

  const FAILED := "IDENTITY_FAILED"
  const MAX_CHAIN := 8

  // ----- the bundle store -----

  function DomainOf(entry: Json): Json {
    if entry.Obj? then Get(entry.members, "trust_domain") else Null
  }

  /** Every entry names a trust domain, and no two the same. */
  ghost predicate WellFormedStore(entries: seq<Json>) {
    && (forall i | 0 <= i < |entries| :: entries[i].Obj? && Get(entries[i].members, "trust_domain").Str?)
    && (forall i, j | 0 <= i < j < |entries| :: entries[i].Obj? && entries[j].Obj? ==>
          Get(entries[i].members, "trust_domain") != Get(entries[j].members, "trust_domain"))
  }

  /** The entry of a trust domain carries this bundle. */
  ghost predicate Holds(entries: seq<Json>, trustDomain: string, bundle: Json) {
    exists i | 0 <= i < |entries| ::
      && entries[i].Obj? && Get(entries[i].members, "trust_domain") == Str(trustDomain)
      && bundle == Get(entries[i].members, "bundle")
  }

  /** `_bundle_for`: the one bundle of the domain, in a store that is well formed throughout. */
  method BundleFor(store: Json, trustDomain: string) returns (r: Outcome<Json>)
    ensures r.Ok? || r == Err("IDENTITY_FAILED")
    ensures r.Ok? <==>
            && store.Arr? && WellFormedStore(store.items)
            && exists bundle :: bundle != Null && Holds(store.items, trustDomain, bundle)
    ensures r.Ok? ==> forall bundle :: Holds(store.items, trustDomain, bundle) <==> bundle == r.value
  {
    if !store.Arr? {
      return Err(FAILED);
    }
    var entries := store.items;
    var seen: set<string> := {};
    var found := Null;
    ghost var at: Option<nat> := None;
    for i := 0 to |entries|
      invariant WellFormedStore(entries[..i])
      invariant forall s :: s in seen <==> exists j :: 0 <= j < i && DomainOf(entries[j]) == Str(s)
      invariant at.None? ==> found == Null && forall j | 0 <= j < i :: DomainOf(entries[j]) != Str(trustDomain)
      invariant at.Some? ==> at.value < i && entries[at.value].Obj? && DomainOf(entries[at.value]) == Str(trustDomain)
      invariant at.Some? ==> found == Get(entries[at.value].members, "bundle")
    {
      var domain := DomainOf(entries[i]);
      if !domain.Str? || domain.s in seen {
        NotWellFormed(entries, i);
        return Err(FAILED);
      }
      seen := seen + {domain.s};
      if domain.s == trustDomain {
        found := Get(entries[i].members, "bundle");
        at := Some(i);
      }
    }
    assert entries[..|entries|] == entries;
    if at.Some? {
      assert Holds(entries, trustDomain, found);
    }
    if found == Null {
      return Err(FAILED);
    }
    return Ok(found);
  }

  lemma NotWellFormed(entries: seq<Json>, i: nat)
    requires i < |entries|
    requires !DomainOf(entries[i]).Str? || exists j :: 0 <= j < i && DomainOf(entries[j]) == DomainOf(entries[i])
    ensures !WellFormedStore(entries)
  {
  }

  // ----- certificates -----

  datatype BasicConstraints = BasicConstraints(ca: bool, pathLength: Option<nat>)

  datatype Name = Uri(host: string) | OtherName

  datatype NameConstraints = NameConstraints(permitted: Option<seq<Name>>, excluded: Option<seq<Name>>)

  /** What path validation reads of a certificate. */
  datatype Certificate = Certificate(
    id: int, v3: bool, notBefore: int, notAfter: int, unprocessedCritical: bool,
    basic: Option<BasicConstraints>, keyCertSign: bool, names: Option<NameConstraints>)

  /** The store's clock and `verify_directly_issued_by`, any relation whatever. */
  datatype Validation = Validation(now: int, issuedBy: (Certificate, Certificate) -> bool, trustDomain: string)

  /** `_check_ca`: a CA that may sign, with `below` CA certificates under it allowed. */
  predicate CheckCa(cert: Certificate, below: nat) {
    && cert.basic.Some? && cert.basic.value.ca
    && (cert.basic.value.pathLength.Some? ==> below <= cert.basic.value.pathLength.value)
    && cert.keyCertSign
  }

  /** `_uri_host_matches`. */
  predicate UriHostMatches(host: string, constraint: string) {
    if constraint != "" && constraint[0] == '.' then
      |constraint| <= |host| && host[|host| - |constraint|..] == constraint
    else host == constraint
  }

  /** A constraint with a leading dot admits every host it ends, also itself; any other only itself. */
  lemma HostMatchMeaning(host: string, constraint: string)
    ensures UriHostMatches(host, constraint) <==>
            host == constraint || ("." <= constraint && exists labels: string :: host == labels + constraint)
  {
    if "." <= constraint && UriHostMatches(host, constraint) {
      GlueTail(host, |host| - |constraint|);
      assert host == host[..|host| - |constraint|] + constraint;
    }
    if "." <= constraint {
      forall labels: string | host == labels + constraint ensures UriHostMatches(host, constraint) {
        CutTail(labels, constraint);
      }
    }
  }

  function Subtrees(names: Option<seq<Name>>): seq<Name> {
    if names.Some? then names.value else []
  }

  predicate MatchesAny(host: string, names: seq<Name>) {
    exists name <- names :: name.Uri? && UriHostMatches(host, name.host)
  }

  predicate UriOnly(nc: NameConstraints) {
    forall name <- Subtrees(nc.permitted) + Subtrees(nc.excluded) :: name.Uri?
  }

  /** `_check_name_constraints`. */
  predicate CheckNameConstraints(cert: Certificate, host: string) {
    cert.names.Some? ==>
      && UriOnly(cert.names.value)
      && (cert.names.value.permitted.Some? ==> MatchesAny(host, cert.names.value.permitted.value))
      && !MatchesAny(host, Subtrees(cert.names.value.excluded))
  }

  predicate InValidity(cert: Certificate, now: int) { cert.notBefore <= now <= cert.notAfter }

  // ----- the path -----

  /** The checks of the loop on certificate `i` of the chain. */
  predicate StepOk(v: Validation, chain: seq<Certificate>, i: nat)
    requires i < |chain|
  {
    && chain[i].v3 && InValidity(chain[i], v.now) && !chain[i].unprocessedCritical
    && (i > 0 ==> CheckCa(chain[i], i - 1) && CheckNameConstraints(chain[i], v.trustDomain))
    && (i + 1 < |chain| ==> v.issuedBy(chain[i], chain[i + 1]))
  }

  /** The first anchor that issued the top of the chain. */
  ghost predicate IsAnchor(v: Validation, chain: seq<Certificate>, anchors: seq<Certificate>, k: nat)
    requires chain != []
  {
    && k < |anchors| && v.issuedBy(chain[|chain| - 1], anchors[k])
    && forall j | 0 <= j < k :: !v.issuedBy(chain[|chain| - 1], anchors[j])
  }

  predicate AnchorOk(v: Validation, anchor: Certificate, intermediates: nat) {
    InValidity(anchor, v.now) && CheckCa(anchor, intermediates) && CheckNameConstraints(anchor, v.trustDomain)
  }

  ghost predicate PathOk(v: Validation, chain: seq<Certificate>, anchors: seq<Certificate>, k: nat) {
    && 1 <= |chain| <= MAX_CHAIN
    && (forall i | 0 <= i < |chain| :: StepOk(v, chain, i))
    && IsAnchor(v, chain, anchors, k) && AnchorOk(v, anchors[k], |chain| - 1)
  }

  /** The certification path of `_verify_x509_svid`: leaf, intermediates, then a bundle CA. */
  method VerifyPath(v: Validation, chain: seq<Certificate>, anchors: seq<Certificate>)
    returns (r: Outcome<Certificate>)
    ensures r.Ok? || r == Err("IDENTITY_FAILED")
    ensures r.Ok? <==> exists k: nat :: PathOk(v, chain, anchors, k)
    ensures r.Ok? ==> exists k: nat :: PathOk(v, chain, anchors, k) && r.value == anchors[k]
  {
    if |chain| == 0 || |chain| > MAX_CHAIN {
      return Err(FAILED);
    }
    for i := 0 to |chain|
      invariant forall j | 0 <= j < i :: StepOk(v, chain, j)
    {
      var cert := chain[i];
      if !cert.v3 || !InValidity(cert, v.now) || cert.unprocessedCritical {
        assert !StepOk(v, chain, i);
        return Err(FAILED);
      }
      if i > 0 && !(CheckCa(cert, i - 1) && CheckNameConstraints(cert, v.trustDomain)) {
        assert !StepOk(v, chain, i);
        return Err(FAILED);
      }
      if i + 1 < |chain| && !v.issuedBy(cert, chain[i + 1]) {
        assert !StepOk(v, chain, i);
        return Err(FAILED);
      }
    }
    var k := 0;
    while k < |anchors| && !v.issuedBy(chain[|chain| - 1], anchors[k])
      invariant k <= |anchors|
      invariant forall j | 0 <= j < k :: !v.issuedBy(chain[|chain| - 1], anchors[j])
    {
      k := k + 1;
    }
    if k == |anchors| || !AnchorOk(v, anchors[k], |chain| - 1) {
      return Err(FAILED);
    }
    assert PathOk(v, chain, anchors, k);
    return Ok(anchors[k]);
  }

  // ----- section 6.1.4 of RFC 5280 -----

  /**
   * Steps (l) and (m) over the CA certificates from the top down, every one counted as not
   * self-issued: `max` must not have run out, loses one, and is capped by the certificate's own
   * constraint.
   */
  predicate Countdown(constraints: seq<Option<nat>>, max: nat) {
    constraints == [] ||
    (&& max > 0
     && var left := max - 1;
        var next := if constraints[0].Some? && constraints[0].value < left then constraints[0].value else left;
        Countdown(constraints[1..], next))
  }

  /** The countdown survives when nothing has more CA certificates below it than it allows. */
  lemma {:induction false} CountdownMeaning(constraints: seq<Option<nat>>, max: nat)
    ensures Countdown(constraints, max) <==>
            && |constraints| <= max
            && forall j | 0 <= j < |constraints| ::
                 constraints[j].Some? ==> |constraints| - 1 - j <= constraints[j].value
  {
    if constraints != [] && max > 0 {
      var left := max - 1;
      var next := if constraints[0].Some? && constraints[0].value < left then constraints[0].value else left;
      CountdownMeaning(constraints[1..], next);
      assert forall j | 1 <= j < |constraints| :: constraints[j] == constraints[1..][j - 1];
    }
  }

  function Constraint(cert: Certificate): Option<nat> {
    if cert.basic.Some? then cert.basic.value.pathLength else None
  }

  /** The constraints of the intermediates, from the top down. */
  function TopDown(chain: seq<Certificate>): (cs: seq<Option<nat>>)
    requires chain != []
  {
    seq(|chain| - 1, j requires 0 <= j < |chain| - 1 => Constraint(chain[|chain| - 1 - j]))
  }

  /** `max_path_length` starts at the length of the path, capped by the anchor's own constraint. */
  function InitialMax(chain: seq<Certificate>, anchor: Certificate): nat {
    if Constraint(anchor).Some? && Constraint(anchor).value < |chain| then Constraint(anchor).value else |chain|
  }

  ghost predicate IsSigningCa(cert: Certificate) {
    cert.basic.Some? && cert.basic.value.ca && cert.keyCertSign
  }

  /** The local `below` checks hold exactly when the countdown of RFC 5280 never runs out. */
  lemma PathLengthsAreCountdown(chain: seq<Certificate>, anchor: Certificate)
    requires chain != [] && IsSigningCa(anchor) && forall i | 0 < i < |chain| :: IsSigningCa(chain[i])
    ensures (forall i | 0 < i < |chain| :: CheckCa(chain[i], i - 1)) && CheckCa(anchor, |chain| - 1)
            <==> Countdown(TopDown(chain), InitialMax(chain, anchor))
  {
    var cs := TopDown(chain);
    CountdownMeaning(cs, InitialMax(chain, anchor));
    if forall j | 0 <= j < |cs| :: cs[j].Some? ==> |cs| - 1 - j <= cs[j].value {
      forall i | 0 < i < |chain| ensures CheckCa(chain[i], i - 1) {
        assert cs[|chain| - 1 - i] == Constraint(chain[i]);
      }
    }
    if forall i | 0 < i < |chain| :: CheckCa(chain[i], i - 1) {
      forall j | 0 <= j < |cs| ensures cs[j].Some? ==> |cs| - 1 - j <= cs[j].value {
        var i := |chain| - 1 - j;
        assert cs[j] == Constraint(chain[i]) && CheckCa(chain[i], i - 1);
      }
    }
  }

  /** The hosts that the name constraints met so far allow. */
  datatype NameState = NameState(permitted: string -> bool, excluded: string -> bool)

  /** The host is in the set that a list of URI constraints spans, as section 4.2.1.10 of RFC 5280 has it. */
  ghost predicate Covers(names: seq<Name>, host: string) {
    exists i | 0 <= i < |names| ::
      && names[i].Uri?
      && (host == names[i].host
          || ("." <= names[i].host && exists labels: string :: host == labels + names[i].host))
  }

  lemma CoversMeaning(names: seq<Name>, host: string)
    ensures Covers(names, host) <==> MatchesAny(host, names)
  {
    forall name | name in names && name.Uri?
      ensures UriHostMatches(host, name.host) <==>
              host == name.host || ("." <= name.host && exists labels: string :: host == labels + name.host)
    {
      HostMatchMeaning(host, name.host);
    }
    hide UriHostMatches;
    if Covers(names, host) {
      var i :| 0 <= i < |names| && names[i].Uri?
               && (host == names[i].host
                   || ("." <= names[i].host && exists labels: string :: host == labels + names[i].host));
      assert names[i] in names;
    }
    if MatchesAny(host, names) {
      var name :| name in names && name.Uri? && UriHostMatches(host, name.host);
      var i :| 0 <= i < |names| && names[i] == name;
    }
  }

  /** Step (g): the permitted sets are intersected, the excluded sets united. */
  ghost function Constrain(state: NameState, cert: Certificate): NameState {
    if cert.names.None? then state
    else
      var nc := cert.names.value;
      NameState(
        if nc.permitted.Some? then (h: string) => state.permitted(h) && Covers(nc.permitted.value, h)
        else state.permitted,
        if nc.excluded.Some? then (h: string) => state.excluded(h) || Covers(nc.excluded.value, h)
        else state.excluded)
  }

  ghost function NamesAfter(state: NameState, cas: seq<Certificate>): NameState
    decreases cas
  {
    if cas == [] then state else NamesAfter(Constrain(state, cas[0]), cas[1..])
  }

  lemma NoneCovered(host: string)
    ensures !MatchesAny(host, [])
  {
  }

  ghost predicate UriConstraints(cas: seq<Certificate>) {
    forall ca <- cas :: ca.names.Some? ==>
      forall name <- Subtrees(ca.names.value.permitted) + Subtrees(ca.names.value.excluded) :: name.Uri?
  }

  /** Checking each CA alone is membership in every permitted set and in no excluded set. */
  lemma {:induction false} NamesAreStateMachine(state: NameState, cas: seq<Certificate>, host: string)
    requires UriConstraints(cas)
    ensures var end := NamesAfter(state, cas);
            end.permitted(host) && !end.excluded(host)
            <==> state.permitted(host) && !state.excluded(host) && forall ca <- cas :: CheckNameConstraints(ca, host)
    decreases cas
  {
    hide MatchesAny, Covers;
    if cas != [] {
      assert cas[0] in cas;
      if cas[0].names.Some? {
        CoversMeaning(Subtrees(cas[0].names.value.permitted), host);
        CoversMeaning(Subtrees(cas[0].names.value.excluded), host);
        NoneCovered(host);
      }
      NamesAreStateMachine(Constrain(state, cas[0]), cas[1..], host);
      assert forall ca :: ca in cas <==> ca == cas[0] || ca in cas[1..];
    }
  }

  ghost function Everything(): NameState { NameState((h: string) => true, (h: string) => false) }

  /** Everything the path needs besides lengths and names. */
  ghost predicate Sound(v: Validation, chain: seq<Certificate>, anchors: seq<Certificate>, k: nat) {
    && 1 <= |chain| <= 8 && IsAnchor(v, chain, anchors, k)
    && anchors[k].notBefore <= v.now <= anchors[k].notAfter && IsSigningCa(anchors[k])
    && (forall i | 0 <= i < |chain| ::
          chain[i].v3 && chain[i].notBefore <= v.now <= chain[i].notAfter && !chain[i].unprocessedCritical)
    && (forall i | 0 < i < |chain| :: IsSigningCa(chain[i]))
    && (forall i | 0 < i < |chain| :: v.issuedBy(chain[i - 1], chain[i]))
    && UriConstraints([anchors[k]] + chain[1..])
  }

  /** The path lengths and the names of every CA, checked one by one. */
  ghost predicate LocalChecks(v: Validation, chain: seq<Certificate>, anchor: Certificate)
    requires chain != []
  {
    && (forall i | 0 < i < |chain| :: CheckCa(chain[i], i - 1)) && CheckCa(anchor, |chain| - 1)
    && forall ca <- [anchor] + chain[1..] :: CheckNameConstraints(ca, v.trustDomain)
  }

  lemma ChecksAreUris(cas: seq<Certificate>, host: string)
    requires forall ca <- cas :: CheckNameConstraints(ca, host)
    ensures UriConstraints(cas)
  {
    hide MatchesAny;
  }

  lemma PathGivesSteps(v: Validation, chain: seq<Certificate>, anchors: seq<Certificate>, k: nat)
    requires PathOk(v, chain, anchors, k)
    ensures Sound(v, chain, anchors, k) && LocalChecks(v, chain, anchors[k])
  {
    hide MatchesAny, UriOnly;
    var cas := [anchors[k]] + chain[1..];
    forall ca | ca in cas ensures CheckNameConstraints(ca, v.trustDomain) {
      var i :| 0 <= i < |cas| && cas[i] == ca;
      assert i > 0 ==> ca == chain[i] && StepOk(v, chain, i);
    }
    ChecksAreUris(cas, v.trustDomain);
    hide UriConstraints;
    forall i | 0 < i < |chain| ensures v.issuedBy(chain[i - 1], chain[i]) && CheckCa(chain[i], i - 1) {
      assert StepOk(v, chain, i - 1) && StepOk(v, chain, i);
    }
    forall i | 0 <= i < |chain|
      ensures chain[i].v3 && InValidity(chain[i], v.now) && !chain[i].unprocessedCritical
    {
      assert StepOk(v, chain, i);
    }
  }

  lemma StepsGivePath(v: Validation, chain: seq<Certificate>, anchors: seq<Certificate>, k: nat)
    requires Sound(v, chain, anchors, k) && LocalChecks(v, chain, anchors[k])
    ensures PathOk(v, chain, anchors, k)
  {
    hide CheckNameConstraints, CheckCa, UriConstraints;
    var cas := [anchors[k]] + chain[1..];
    assert cas[0] in cas;
    forall i | 0 <= i < |chain| ensures StepOk(v, chain, i) {
      assert cas[i] in cas && (i > 0 ==> cas[i] == chain[i]);
      assert i + 1 < |chain| ==> v.issuedBy(chain[i + 1 - 1], chain[i + 1]);
    }
  }

  /**
   * The accepted paths are those of RFC 5280: a sound chain whose path-length countdown never runs
   * out and whose trust domain the accumulated name constraints permit and do not exclude.
   */
  lemma PathMeaning(v: Validation, chain: seq<Certificate>, anchors: seq<Certificate>, k: nat)
    ensures PathOk(v, chain, anchors, k) <==>
            && Sound(v, chain, anchors, k)
            && Countdown(TopDown(chain), InitialMax(chain, anchors[k]))
            && var names := NamesAfter(Everything(), [anchors[k]] + chain[1..]);
               names.permitted(v.trustDomain) && !names.excluded(v.trustDomain)
  {
    if PathOk(v, chain, anchors, k) {
      PathGivesSteps(v, chain, anchors, k);
    }
    if Sound(v, chain, anchors, k) && LocalChecks(v, chain, anchors[k]) {
      StepsGivePath(v, chain, anchors, k);
    }
    if Sound(v, chain, anchors, k) {
      PathLengthsAreCountdown(chain, anchors[k]);
      NamesAreStateMachine(Everything(), [anchors[k]] + chain[1..], v.trustDomain);
    }
    hide PathOk, Countdown, NamesAfter, CheckCa, CheckNameConstraints, TopDown, InitialMax;
  }
}
