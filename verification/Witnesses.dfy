/** Concrete inputs at which the code does not do what one might expect of it. */
module Witnesses {
  import opened Wrappers
  import opened Bytes
  import opened KeyMath
  import opened Aids
  import opened Jcs
  import opened JcsSize
  import opened Jws
  import opened Fields
  import opened Revocation
  import opened Tct
  import opened Snapshots
  import opened Delegation
  import opened DelegationSafety
  import opened Escapes
  import Base64Url
  import Utf8

  // ----- parties, a signer and tokens -----

  /** A library under which every Ed25519 signature verifies. */
  function Trusting(): Suite {
    Suite(s => None, b => [0], b => false, b => ([], []), (x, y) => false, (n, e) => false,
          (key, input, sig) => true, (key, input, r, s) => false, (key, digest, r, s) => false)
  }

  /** An AID of 43 times the same letter. */
  function AidOf(letter: char): string {
    PREFIX + seq(43, i => letter)
  }

  lemma AidParses(letter: char)
    requires 'A' <= letter <= 'Z'
    ensures ParseAid(Trusting(), AidOf(letter)).Some?
    ensures ParseAid(Trusting(), AidOf(letter)).value.alg == Ed25519
  {
    var ident: string := seq(43, i => letter);
    var text := AidOf(letter);
    CutTail(PREFIX, ident);
    assert ident[0] == letter && "ed25519:"[0] == 'e' && "p256:"[0] == 'p';
    assert !("ed25519:" <= ident) && !("p256:" <= ident);
    hide Base64Url.Decode;
    AidGate(Trusting(), text, Ed25519, ident);
  }

  lemma AidsApart(a: char, b: char)
    requires a != b
    ensures AidOf(a) != AidOf(b)
  {
    assert AidOf(a)[|PREFIX|] == a && AidOf(b)[|PREFIX|] == b;
  }

  /** `encode_jws` with a one-byte signature. */
  function Mint(typ: string, claims: Claims): string
    requires Canonicalize(Obj(claims)).Some?
  {
    MintedToken(typ, claims, b => [0], "EdDSA");
    EncodeJws(typ, claims, b => [0], "EdDSA").value
  }

  function Header(typ: string): Claims {
    map["alg" := Str("EdDSA"), "typ" := Str(typ)]
  }

  lemma MintParses(typ: string, claims: Claims, code: string)
    requires Canonicalize(Obj(claims)).Some?
    ensures ParseCompact(Mint(typ, claims), code).Ok?
    ensures ParseCompact(Mint(typ, claims), code).value.claims == claims
    ensures ParseCompact(Mint(typ, claims), code).value.header == Header(typ)
  {
    ParseMinted(typ, claims, b => [0], "EdDSA", code);
    hide ParseCompact, EncodeJws, Canonicalize;
  }

  lemma MintVerifies(typ: string, claims: Claims, letter: char)
    requires Canonicalize(Obj(claims)).Some? && 'A' <= letter <= 'Z'
    ensures Verified(Trusting(), Mint(typ, claims), AidOf(letter), typ, claims)
  {
    hide ParseCompact, ParseAid, Canonicalize, Mint, VerifyJose, Trusting, AidOf, Header;
    MintParses(typ, claims, "");
    AidParses(letter);
    HeaderMembers(typ);
    TrustingVerifies(ParseAid(Trusting(), AidOf(letter)).value);
  }

  lemma HeaderMembers(typ: string)
    ensures Header(typ) == map["alg" := Get(Header(typ), "alg"), "typ" := Str(typ)]
    ensures Header(typ)["alg"] == Str("EdDSA") && Header(typ).Keys == {"alg", "typ"} && Header(typ)["typ"] == Str(typ)
  {
    var h := Header(typ);
    assert h["alg"] == Str("EdDSA");
  }

  lemma TrustingVerifies(aid: Aid)
    requires aid.alg == Ed25519
    ensures forall data, sig :: VerifyJose(Trusting(), aid, data, sig, false) && VerifyDigest(Trusting(), aid, data, sig)
  {
  }

  /** A leaf, or a list or an object of at most three leaves. */
  predicate Plain(j: Json) {
    match j
    case Arr(items) => |items| <= 3 && forall x <- items :: IsLeaf(x)
    case Obj(members) => |members| <= 3 && forall k <- members :: IsLeaf(members[k])
    case _ => true
  }

  lemma PlainWithin(j: Json)
    requires Plain(j)
    ensures Within(j, 1, 4)
  {
    hide Nodes, DepthWithin, Within;
    match j
    case Arr(items) =>
      forall x | x in items ensures Within(x, 0, 1) {
        LeafWithin(x, 0, 1);
      }
      ArrayWithin(items, 0, 1);
      WithinMore(j, 1, 1 + |items| * 1, 1, 4);
    case Obj(members) =>
      forall k | k in members ensures Within(members[k], 0, 1) {
        LeafWithin(members[k], 0, 1);
      }
      ObjectWithin(members, 0, 1);
      WithinMore(j, 1, 1 + |members| * 1, 1, 4);
    case _ =>
      LeafWithin(j, 1, 4);
  }

  /** An object with a few small members canonicalizes. */
  lemma ClaimsCanonicalize(claims: Claims)
    requires |claims| <= 12 && forall k <- claims :: Within(claims[k], 5, 1000)
    ensures Canonicalize(Obj(claims)).Some?
  {
    hide Within, Canonicalize;
    ObjectWithin(claims, 5, 1000);
    assert |claims| * 1000 <= 12000;
    WithinMore(Obj(claims), 6, 1 + |claims| * 1000, 6, 20000);
    SmallCanonicalizes(Obj(claims), 6, 20000);
  }

  lemma PlainCanonicalizes(claims: Claims)
    requires |claims| <= 12 && forall k <- claims :: Plain(claims[k])
    ensures Canonicalize(Obj(claims)).Some?
  {
    hide Within, Canonicalize, Plain;
    forall k | k in claims ensures Within(claims[k], 5, 1000) {
      PlainWithin(claims[k]);
      WithinMore(claims[k], 1, 4, 5, 1000);
    }
    ClaimsCanonicalize(claims);
  }

  lemma WithinMore(j: Json, d: nat, c: nat, e: nat, f: nat)
    requires Within(j, d, c) && d <= e && c <= f
    ensures Within(j, e, f)
  {
    DeeperWithin(j, d, e);
    hide Nodes, DepthWithin;
  }

  // ----- a malformed issuer escapes from the entry points -----

  function NobodysClaims(): Claims {
    map["iss" := Str("nobody")]
  }

  lemma NobodyIsNoAid(suite: Suite)
    ensures ParseAid(suite, "nobody").None?
  {
    assert |"nobody"| < |PREFIX|;
  }

  /** A signed delegation of the right type whose issuer is no AID: a `ValueError`, under any library. */
  lemma DelegationEscapes(suite: Suite, now: int, resolve: Resolver)
    ensures Canonicalize(Obj(NobodysClaims())).Some?
    ensures var inp := map["delegation_token" := Str(Mint("aitp-delegation+jwt", NobodysClaims())),
                           "self_aid" := Str(AidOf('A'))];
            VerifyDelegationToken(suite, inp, now, resolve).Crash?
  {
    hide Canonicalize, Mint, ParseCompact, ParseAid, Within;
    var claims := NobodysClaims();
    PlainCanonicalizes(claims);
    var token := Mint("aitp-delegation+jwt", claims);
    MintParses("aitp-delegation+jwt", claims, "");
    NobodyIsNoAid(suite);
    var inp := map["delegation_token" := Str(token), "self_aid" := Str(AidOf('A'))];
    VerifyDelegationEscapes(suite, inp, now, resolve);
    var v := VerifierOf(suite, inp, now, resolve);
    assert Get(claims, "iss") == Str("nobody");
    assert ResolveIssuer(v, Str("nobody")) == Ok(());
    assert HopEscapes(v, token);
  }

  const JTI := "00000000-0000-4000-8000-000000000000"

  lemma JtiIsUuid()
    ensures IsUuidV4(JTI)
  {
  }

  /** The claims of a TCT without grants. */
  function GrantClaims(iss: string, sub: string, exp: int, jkt: string): Claims {
    map["ver" := Str(PROTOCOL_VERSION), "jti" := Str(JTI), "iss" := Str(iss), "sub" := Str(sub), "aud" := Str(sub),
        "iat" := JsonInt(0), "exp" := JsonInt(exp), "grants" := Arr([]), "cnf" := Obj(map["jkt" := Str(jkt)])]
  }

  lemma GrantReads(iss: string, sub: string, exp: int, jkt: string)
    ensures ReadTct(GrantClaims(iss, sub, exp, jkt))
         == Ok(Grant(PROTOCOL_VERSION, JTI, iss, sub, sub, exp, [], Str(jkt)))
  {
    hide JsonInt, ReadTct;
    MembersRead(GrantClaims(iss, sub, exp, jkt), iss, sub, exp, jkt);
  }

  lemma MembersRead(c: Claims, iss: string, sub: string, exp: int, jkt: string)
    requires c.Keys == {"ver", "jti", "iss", "sub", "aud", "iat", "exp", "grants", "cnf"}
    requires c["ver"] == Str(PROTOCOL_VERSION) && c["jti"] == Str(JTI) && c["iss"] == Str(iss)
    requires c["sub"] == c["aud"] == Str(sub) && c["iat"] == JsonInt(0) && c["exp"] == JsonInt(exp)
    requires c["grants"] == Arr([]) && c["cnf"] == Obj(map["jkt" := Str(jkt)])
    ensures ReadTct(c) == Ok(Grant(PROTOCOL_VERSION, JTI, iss, sub, sub, exp, [], Str(jkt)))
  {
    hide IsUuidV4, JsonInt, IsInteger, Truncate, TctTyped;
    JtiIsUuid();
    JsonIntValue(exp);
    MembersTyped(c, exp);
    var cnf := map["jkt" := Str(jkt)];
    assert cnf.Keys == {"jkt"} && Get(cnf, "jkt") == Str(jkt);
    assert Strings([]) == [];
  }

  lemma MembersTyped(c: Claims, exp: int)
    requires c.Keys == {"ver", "jti", "iss", "sub", "aud", "iat", "exp", "grants", "cnf"}
    requires c["ver"].Str? && c["jti"].Str? && c["iss"].Str? && c["sub"].Str? && c["aud"].Str?
    requires c["iat"] == JsonInt(0) && c["exp"] == JsonInt(exp) && c["grants"] == Arr([]) && c["cnf"].Obj?
    ensures TctTyped(c)
  {
    hide JsonInt, IsInteger, Truncate;
    JsonIntValue(0);
    JsonIntValue(exp);
  }

  lemma GrantCanonicalizes(iss: string, sub: string, exp: int, jkt: string)
    ensures Canonicalize(Obj(GrantClaims(iss, sub, exp, jkt))).Some?
  {
    hide JsonInt, Canonicalize;
    JsonIntValue(0);
    JsonIntValue(exp);
    var c := GrantClaims(iss, sub, exp, jkt);
    PlainCanonicalizes(c);
  }

  /** A signed, well-formed TCT whose issuer is no AID: a `ValueError`, under any library. */
  lemma TctEscapes(suite: Suite, now: int)
    ensures Canonicalize(Obj(GrantClaims("nobody", AidOf('B'), 1000, ""))).Some?
    ensures var token := Mint("aitp-tct+jwt", GrantClaims("nobody", AidOf('B'), 1000, ""));
            VerifyTct(suite, map["tct_token" := Str(token)], now).Crash?
  {
    hide Canonicalize, Mint, ParseCompact, ParseAid, ReadTct, GrantClaims;
    GrantCanonicalizes("nobody", AidOf('B'), 1000, "");
    GrantReads("nobody", AidOf('B'), 1000, "");
    var claims := GrantClaims("nobody", AidOf('B'), 1000, "");
    var token := Mint("aitp-tct+jwt", claims);
    MintParses("aitp-tct+jwt", claims, "");
    NobodyIsNoAid(suite);
    VerifyTctEscapes(suite, map["tct_token" := Str(token)], now);
    assert TctTokenEscapes(suite, token);
  }

  // ----- snapshots -----

  function Entry(): Claims {
    map["jti" := Str(JTI), "revoked_at" := JsonInt(0)]
  }

  function Entries(listed: bool): seq<Json> {
    if listed then [Obj(Entry())] else []
  }

  /** A revocation list published at time 0 that lists the one jti, or nothing. */
  function ListBody(issuer: string, expiresAt: int, listed: bool): Claims {
    map["version" := Str(PROTOCOL_VERSION), "issuer" := Str(issuer), "published_at" := JsonInt(0),
        "expires_at" := JsonInt(expiresAt), "entries" := Arr(Entries(listed))]
  }

  function SignatureText(): string { seq(86, i => 'A') }

  function Snapshot(issuer: string, expiresAt: int, listed: bool): Json {
    Obj(map["revocation_list" := Obj(ListBody(issuer, expiresAt, listed)), "signature" := Str(SignatureText())])
  }

  lemma EntryShaped()
    ensures EntryShape(Obj(Entry())) && JtiOf(Obj(Entry())) == JTI && Entry().Keys == {"jti", "revoked_at"}
    ensures Plain(Obj(Entry()))
  {
    hide JsonInt, IsInteger, Truncate;
    JsonIntValue(0);
    var e := Entry();
    assert e["jti"] == Str(JTI) && e["revoked_at"] == JsonInt(0);
  }

  lemma EntriesShaped(listed: bool)
    ensures forall e <- Entries(listed) :: EntryShape(e) && e.Obj? && e.members.Keys <= {"jti", "revoked_at", "reason"}
    ensures Listed(Entries(listed)) == if listed then [JTI] else []
    ensures Within(Arr(Entries(listed)), 5, 1000)
  {
    hide EntryShape, Entry, Plain, Within;
    EntryShaped();
    forall e | e in Entries(listed) ensures Within(e, 1, 4) {
      PlainWithin(e);
    }
    ArrayWithin(Entries(listed), 1, 4);
    WithinMore(Arr(Entries(listed)), 2, 1 + |Entries(listed)| * 4, 5, 1000);
  }

  lemma BodyMembers(c: Claims, issuer: string, expiresAt: int, listed: bool)
    requires c.Keys == {"version", "issuer", "published_at", "expires_at", "entries"}
    requires c["version"] == Str(PROTOCOL_VERSION) && c["issuer"] == Str(issuer) && c["published_at"] == JsonInt(0)
    requires c["expires_at"] == JsonInt(expiresAt) && c["entries"] == Arr(Entries(listed))
    ensures BodyShape(Obj(c)) && EntriesKnown(c["entries"].items)
    ensures BodyOf(Obj(c)) == Body(issuer, 0, expiresAt, if listed then [JTI] else [])
    ensures Canonicalize(Obj(c)).Some?
  {
    hide JsonInt, IsInteger, Truncate, EntryShape, Entries, Listed, Within, Canonicalize;
    JsonIntValue(0);
    JsonIntValue(expiresAt);
    EntriesShaped(listed);
    forall k | k in c ensures Within(c[k], 5, 1000) {
      if k != "entries" {
        LeafWithin(c[k], 5, 1000);
      }
    }
    ClaimsCanonicalize(c);
  }

  lemma SnapshotTrusted(letter: char, expiresAt: int, listed: bool)
    requires 'A' <= letter <= 'Z'
    ensures VerifySnapshotTrust(Trusting(), Snapshot(AidOf(letter), expiresAt, listed))
         == Ok(Body(AidOf(letter), 0, expiresAt, if listed then [JTI] else []))
  {
    hide JsonInt, BodyShape, BodyOf, EntriesKnown, Canonicalize, ParseAid, DecodeTagged, VerifyDigest, Trusting, AidOf,
         SignatureText;
    var body := ListBody(AidOf(letter), expiresAt, listed);
    BodyMembers(body, AidOf(letter), expiresAt, listed);
    AidParses(letter);
    SignatureDecodes();
    TrustingVerifies(ParseAid(Trusting(), AidOf(letter)).value);
    var wrapper := map["revocation_list" := Obj(body), "signature" := Str(SignatureText())];
    assert wrapper["revocation_list"] == Obj(body) && wrapper["signature"] == Str(SignatureText());
    assert wrapper.Keys == {"revocation_list", "signature"};
    assert body.Keys <= {"version", "issuer", "published_at", "expires_at", "entries", "extensions"};
    assert body["issuer"] == Str(AidOf(letter));
  }

  lemma SignatureDecodes()
    ensures DecodeTagged(SignatureText(), Ed25519, BAD_SIGNATURE).Ok?
  {
    hide DecodeTagged;
    PatternDecodes(SignatureText(), Untagged(SignatureText()), Ed25519, BAD_SIGNATURE);
  }

  // ----- an acceptance that did not hold earlier: a TCT under a permissive mode -----

  function KeyOf(letter: char): string
    requires ParseAid(Trusting(), AidOf(letter)).Some?
  {
    Thumbprint(Trusting(), ParseAid(Trusting(), AidOf(letter)).value)
  }

  function TheGrant(): Grant {
    AidParses('B');
    Grant(PROTOCOL_VERSION, JTI, AidOf('A'), AidOf('B'), AidOf('B'), 1000, [], Str(KeyOf('B')))
  }

  function TheTct(): string {
    AidParses('B');
    GrantCanonicalizes(AidOf('A'), AidOf('B'), 1000, KeyOf('B'));
    Mint("aitp-tct+jwt", GrantClaims(AidOf('A'), AidOf('B'), 1000, KeyOf('B')))
  }

  lemma TheTctSigned()
    ensures SignedGrant(Trusting(), TheTct(), TheGrant())
  {
    hide Canonicalize, Mint, ReadTct, GrantSays, GrantClaims, Verified, ParseAid, Thumbprint, AidOf, Trusting;
    AidParses('B');
    var claims := GrantClaims(AidOf('A'), AidOf('B'), 1000, KeyOf('B'));
    GrantCanonicalizes(AidOf('A'), AidOf('B'), 1000, KeyOf('B'));
    GrantReads(AidOf('A'), AidOf('B'), 1000, KeyOf('B'));
    ReadTctMeaning(claims, TheGrant());
    MintVerifies("aitp-tct+jwt", claims, 'A');
  }

  /** One snapshot, which lists the token and expires at 100, under a permissive policy. */
  function PermissiveInput(mode: string): Claims {
    map["tct_token" := Str(TheTct()), "policy" := Obj(map["fail_mode" := Str(mode)]),
        "issuer_revocation_list" := Obj(map["snapshot" := Snapshot(AidOf('A'), 100, true)])]
  }

  lemma PermissiveMembers(mode: string)
    ensures var inp := PermissiveInput(mode);
            && Get(inp, "tct_token") == Str(TheTct())
            && Get(inp, "expected_audience") == Get(inp, "issuer_manifest") == Null
            && Get(inp, "policy") == Obj(map["fail_mode" := Str(mode)])
            && Get(inp, "issuer_revocation_list") == Obj(map["snapshot" := Snapshot(AidOf('A'), 100, true)])
  {
    hide TheTct, Snapshot;
  }

  lemma PolicyMembers(inp: Claims, mode: string)
    requires Get(inp, "policy") == Obj(map["fail_mode" := Str(mode)]) && mode in ["fail_closed", "fail_open", "soft_fail"]
    ensures PolicyFailMode(inp) == mode && Get(PolicyOf(inp), "max_staleness_secs") == Null
  {
  }

  /** The snapshot is fresh at 50 and stale at 150. */
  lemma PermissiveSnapshot(mode: string, now: int)
    requires mode in ["fail_open", "soft_fail"]
    ensures UsableSnapshot(Trusting(), PermissiveInput(mode), AidOf('A'), now)
         == if now < 100 then Some(Body(AidOf('A'), 0, 100, [JTI])) else None
  {
    hide TheTct, Snapshot, AidOf, Trusting, VerifySnapshotTrust, PermissiveInput, PolicyOf, PolicyFailMode;
    PermissiveMembers(mode);
    PolicyMembers(PermissiveInput(mode), mode);
    SnapshotTrusted('A', 100, true);
    var wrapper := map["snapshot" := Snapshot(AidOf('A'), 100, true)];
    assert Get(wrapper, "snapshot") == Snapshot(AidOf('A'), 100, true);
  }

  lemma TheGrantValid(mode: string, now: int)
    requires now < 1000
    ensures ValidGrant(Trusting(), PermissiveInput(mode), now, TheGrant())
  {
    hide TheTct, AidOf, Trusting, PermissiveInput, SignedGrant, ParseAid, Thumbprint;
    PermissiveMembers(mode);
    TheTctSigned();
    AidParses('B');
    AidsApart('A', 'B');
  }

  lemma GrantParts()
    ensures TheGrant().iss == AidOf('A') && TheGrant().jti == JTI && TheGrant().grants == []
  {
    hide AidOf, Trusting;
  }

  lemma RevokedUntil(mode: string, now: int)
    requires mode in ["fail_open", "soft_fail"]
    ensures Unrevoked(Trusting(), PermissiveInput(mode), TheGrant(), now) <==> now >= 100
  {
    hide TheTct, AidOf, Trusting, PermissiveInput, UsableSnapshot, PolicyFailMode, TheGrant, Lists, SuppliedSnapshot;
    GrantParts();
    PermissiveSnapshot(mode, now);
    PermissiveMembers(mode);
    PolicyMembers(PermissiveInput(mode), mode);
    if now < 100 {
      UsableLists(Trusting(), PermissiveInput(mode), AidOf('A'), JTI, now);
    }
  }

  /** Accepted at 150, when the only snapshot is stale; at 50 that snapshot was fresh and lists the token. */
  lemma TctNotMonotone(mode: string)
    requires mode in ["fail_open", "soft_fail"]
    ensures VerifyTct(Trusting(), PermissiveInput(mode), 150) == Ok([])
    ensures VerifyTct(Trusting(), PermissiveInput(mode), 50) == Err("TCT_REVOKED")
  {
    hide TheTct, AidOf, Trusting, PermissiveInput, ValidGrant, Unrevoked, VerifyTct, TheGrant;
    GrantParts();
    RevokedUntil(mode, 150);
    RevokedUntil(mode, 50);
    TheGrantValid(mode, 150);
    TheGrantValid(mode, 50);
    VerifyTctMeaning(Trusting(), PermissiveInput(mode), 150, []);
    VerifyTctMeaning(Trusting(), PermissiveInput(mode), 50, []);
  }

  // ----- and a delegation under any mode -----

  function VoucherClaims(): Claims {
    map["ver" := Str(PROTOCOL_VERSION), "iss" := Str(AidOf('A')), "sub" := Str(AidOf('B')), "grants" := Arr([]),
        "iat" := JsonInt(0), "exp" := JsonInt(1000), "src_jti" := Str(JTI)]
  }

  function TheVoucher(): Voucher {
    Voucher(AidOf('A'), AidOf('B'), [], 1000, JTI)
  }

  lemma VoucherReads()
    ensures ReadVoucher(VoucherClaims()) == Ok(TheVoucher())
  {
    hide JsonInt, AidOf, ReadVoucher;
    VoucherMembersRead(VoucherClaims());
  }

  lemma VoucherMembersRead(c: Claims)
    requires c.Keys == {"ver", "iss", "sub", "grants", "iat", "exp", "src_jti"}
    requires c["ver"].Str? && c["iss"] == Str(AidOf('A')) && c["sub"] == Str(AidOf('B')) && c["grants"] == Arr([])
    requires c["iat"] == JsonInt(0) && c["exp"] == JsonInt(1000) && c["src_jti"] == Str(JTI)
    ensures ReadVoucher(c) == Ok(TheVoucher())
  {
    hide JsonInt, IsInteger, Truncate, AidOf;
    JsonIntValue(0);
    JsonIntValue(1000);
    assert Strings([]) == [];
  }

  lemma VoucherCanonicalizes()
    ensures Canonicalize(Obj(VoucherClaims())).Some?
  {
    hide JsonInt, Canonicalize, AidOf;
    JsonIntValue(0);
    JsonIntValue(1000);
    PlainCanonicalizes(VoucherClaims());
  }

  function VoucherToken(): string {
    VoucherCanonicalizes();
    Mint("aitp-grant+jwt", VoucherClaims())
  }

  function HopClaims(): Claims {
    map["ver" := Str(PROTOCOL_VERSION), "iss" := Str(AidOf('B')), "sub" := Str(AidOf('C')), "aud" := Str(AidOf('A')),
        "scope" := Arr([]), "exp" := JsonInt(1000), "cnf" := Obj(map[]), "voucher" := Str(VoucherToken())]
  }

  function TheHop(): Hop {
    Hop(PROTOCOL_VERSION, AidOf('B'), AidOf('C'), AidOf('A'), [], 1000, Null, Some(VoucherToken()), None)
  }

  lemma HopReads()
    ensures ReadHop(HopClaims()) == Ok(TheHop())
  {
    hide JsonInt, AidOf, ReadHop, VoucherToken;
    HopMembersRead(HopClaims());
  }

  lemma HopMembersRead(c: Claims)
    requires c.Keys == {"ver", "iss", "sub", "aud", "scope", "exp", "cnf", "voucher"}
    requires c["ver"] == Str(PROTOCOL_VERSION) && c["iss"] == Str(AidOf('B')) && c["sub"] == Str(AidOf('C'))
    requires c["aud"] == Str(AidOf('A')) && c["scope"] == Arr([]) && c["exp"] == JsonInt(1000)
    requires c["cnf"] == Obj(map[]) && c["voucher"] == Str(VoucherToken())
    ensures ReadHop(c) == Ok(TheHop())
  {
    hide JsonInt, IsInteger, Truncate, AidOf, VoucherToken;
    JsonIntValue(1000);
    assert Strings([]) == [];
  }

  lemma HopCanonicalizes()
    ensures Canonicalize(Obj(HopClaims())).Some?
  {
    hide JsonInt, Canonicalize, AidOf, VoucherToken;
    JsonIntValue(1000);
    PlainCanonicalizes(HopClaims());
  }

  function TheDelegation(): string {
    HopCanonicalizes();
    Mint("aitp-delegation+jwt", HopClaims())
  }

  /** Two snapshots of the verifier: one until 100 that lists the source TCT, one until 200 that does not. */
  function DelegationInput(mode: string): Claims {
    map["delegation_token" := Str(TheDelegation()), "self_aid" := Str(AidOf('A')),
        "policy" := Obj(map["fail_mode" := Str(mode)]), "revocation_snapshots" := Arr(TheRecords())]
  }

  function TheRecords(): seq<Json> {
    [Obj(map["snapshot" := Snapshot(AidOf('A'), 100, true)]), Obj(map["snapshot" := Snapshot(AidOf('A'), 200, false)])]
  }

  function TheBodies(): seq<Body> {
    [Body(AidOf('A'), 0, 100, [JTI]), Body(AidOf('A'), 0, 200, [])]
  }

  lemma RecordTrusted(expiresAt: int, listed: bool)
    ensures Trust(Trusting(), Obj(map["snapshot" := Snapshot(AidOf('A'), expiresAt, listed)]))
         == Ok(Body(AidOf('A'), 0, expiresAt, if listed then [JTI] else []))
  {
    hide Snapshot, AidOf, Trusting, VerifySnapshotTrust;
    SnapshotTrusted('A', expiresAt, listed);
    var record := map["snapshot" := Snapshot(AidOf('A'), expiresAt, listed)];
    assert Get(record, "snapshot") == Snapshot(AidOf('A'), expiresAt, listed);
  }

  lemma BodiesOfRecords()
    ensures Bodies(Trusting(), TheRecords(), AidOf('A')) == Ok(TheBodies())
  {
    hide Snapshot, AidOf, Trusting, Trust;
    RecordTrusted(100, true);
    RecordTrusted(200, false);
    var records := TheRecords();
    assert records[..1] == [records[0]] && [records[0]][..0] == [];
    assert Bodies(Trusting(), [], AidOf('A')) == Ok([]);
    var b := TheBodies();
    assert Bodies(Trusting(), [records[0]], AidOf('A')) == Ok([] + [b[0]]);
    assert [] + [b[0]] + [b[1]] == b && records == [records[0], records[1]];
    assert records[|records| - 1] == records[1] && records[..|records| - 1] == [records[0]];
  }

  /** At 150 no fresh body lists the source TCT and one is fresh; at 50 the first lists it. */
  lemma BodiesInTime(inp: Claims, mode: string)
    requires Get(inp, "policy") == Obj(map["fail_mode" := Str(mode)]) && mode in ["fail_closed", "fail_open", "soft_fail"]
    ensures Clear(Trusting(), inp, TheBodies(), AidOf('A'), JTI, 150)
    ensures !Clear(Trusting(), inp, TheBodies(), AidOf('A'), JTI, 50)
  {
    hide AidOf, Trusting, PolicyOf, PolicyFailMode;
    PolicyMembers(inp, mode);
    var bodies := TheBodies();
    assert bodies[0] in bodies && bodies[1] in bodies;
    assert !SnapshotIsStale(Trusting(), bodies[0], PolicyOf(inp), 50);
    assert SnapshotIsStale(Trusting(), bodies[0], PolicyOf(inp), 150);
    assert !SnapshotIsStale(Trusting(), bodies[1], PolicyOf(inp), 150);
    assert JTI in bodies[0].jtis;
  }

  function TheVerifier(now: int, resolve: Resolver): Verifier {
    Verifier(Trusting(), AidOf('A'), now, None, resolve)
  }

  lemma TheHopPasses(now: int, resolve: Resolver)
    requires now < 1000
    ensures SingleHopClaims(TheVerifier(now, resolve), TheDelegation())
         == Ok(Pending(TheVerifier(now, resolve), [], JTI, []))
  {
    hide Canonicalize, Mint, ReadHop, ReadVoucher, HopSays, VoucherSays, HopClaims, VoucherClaims, Verified, AidOf,
         Trusting, SingleHopClaims, ParseCompact;
    var v := TheVerifier(now, resolve);
    HopCanonicalizes();
    HopReads();
    ReadHopMeaning(HopClaims(), TheHop());
    MintParses("aitp-delegation+jwt", HopClaims(), "");
    MintVerifies("aitp-delegation+jwt", HopClaims(), 'B');
    VoucherCanonicalizes();
    VoucherReads();
    ReadVoucherMeaning(VoucherClaims(), TheVoucher());
    MintParses("aitp-grant+jwt", VoucherClaims(), "");
    MintVerifies("aitp-grant+jwt", VoucherClaims(), 'A');
    AidsApart('B', 'C');
    assert Signed(v, TheDelegation(), TheHop());
    assert SignedBySelf(v, TheHop().voucher, TheVoucher());
    assert Authorises(v, TheVoucher(), TheHop());
    SingleHopMeaning(v, TheDelegation(), Pending(v, [], JTI, []));
  }

  lemma DelegationMembers(mode: string)
    ensures var inp := DelegationInput(mode);
            && Get(inp, "delegation_token") == Str(TheDelegation()) && Get(inp, "self_aid") == Str(AidOf('A'))
            && Get(inp, "policy") == Obj(map["fail_mode" := Str(mode)]) && "issuer_manifests" !in inp
            && Get(inp, "revocation_snapshots") == Arr(TheRecords())
  {
    hide TheDelegation, AidOf, TheRecords;
  }

  lemma DelegationClaimsPass(mode: string, now: int, resolve: Resolver)
    requires now < 1000
    ensures VerifyDelegationClaims(Trusting(), DelegationInput(mode), now, resolve)
         == Ok(Pending(TheVerifier(now, resolve), [], JTI, []))
  {
    hide Canonicalize, Mint, HopClaims, AidOf, Trusting, SingleHopClaims, MultihopClaims, DelegationInput, ParseCompact;
    DelegationMembers(mode);
    TheHopPasses(now, resolve);
    HopCanonicalizes();
    MintParses("aitp-delegation+jwt", HopClaims(), Delegation.BAD_TOKEN);
    NoChain();
  }

  lemma NoChain()
    ensures "chain" !in HopClaims()
  {
    hide JsonInt, AidOf, VoucherToken;
  }

  /** Accepted at 150 and, with the same inputs in the same mode, refused at 50. */
  lemma DelegationNotMonotone(mode: string, resolve: Resolver)
    requires mode in ["fail_closed", "fail_open", "soft_fail"]
    ensures VerifyDelegationToken(Trusting(), DelegationInput(mode), 150, resolve) == Ok([])
    ensures VerifyDelegationToken(Trusting(), DelegationInput(mode), 50, resolve) == Err(REVOKED)
  {
    hide AidOf, Trusting, DelegationInput, VerifyDelegationClaims, Bodies, TheBodies, TheRecords, Clear,
         CheckSourceRevocation, RevocationIndex, Fresh;
    DelegationMembers(mode);
    DelegationClaimsPass(mode, 150, resolve);
    DelegationClaimsPass(mode, 50, resolve);
    BodiesOfRecords();
    BodiesInTime(DelegationInput(mode), mode);
    SourceMeaning(Trusting(), DelegationInput(mode), TheBodies(), AidOf('A'), JTI, 150);
    SourceMeaning(Trusting(), DelegationInput(mode), TheBodies(), AidOf('A'), JTI, 50);
  }
}
