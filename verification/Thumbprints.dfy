/** The key thumbprint is RFC 7638's: the digest of the canonical form of the key's own JWK. */
module Thumbprints {
  import opened Bytes
  import opened KeyMath
  import opened Aids
  import opened KeyOrder
  import opened JsonText
  import opened Jcs
  import Base64Url
  import Utf8

  /** The required members of the key's JWK. */
  function JwkOf(suite: Suite, aid: Aid): map<string, Json> {
    match aid.alg
    case Ed25519 => map["kty" := Str("OKP"), "crv" := Str("Ed25519"), "x" := Str(Base64Url.Encode(aid.rawKey))]
    case P256 =>
      map["kty" := Str("EC"), "crv" := Str("P-256"),
          "x" := Str(Base64Url.Encode(suite.p256Coordinates(aid.rawKey).0)),
          "y" := Str(Base64Url.Encode(suite.p256Coordinates(aid.rawKey).1))]
  }

  /** A character that is written as itself. */
  predicate IsPlainChar(c: char) { c as int >= 0x20 && c != '"' && c != '\\' }

  lemma {:induction false} EscapePlain(s: string)
    requires forall c <- s :: IsPlainChar(c)
    ensures Escape(s) == s
  {
    if s != "" {
      assert s[0] in s;
      EscapePlain(s[1..]);
      assert s == [s[0]] + s[1..];
    }
  }

  lemma PlainString(s: string)
    requires forall c <- s :: IsPlainChar(c)
    ensures FormatString(s) == Quoted(s)
  {
    EscapePlain(s);
  }

  lemma EncodedString(data: bytes)
    ensures FormatString(Base64Url.Encode(data)) == Quoted(Base64Url.Encode(data))
  {
    Base64Url.EncodeShape(data);
    hide Base64Url.Encode;
    PlainString(Base64Url.Encode(data));
  }

  lemma FirstUnit(a: string, b: string)
    requires a != "" && b != "" && a[0] < b[0] && b[0] as int < 0x10000
    ensures KeyLess(a, b)
  {
    assert SmallerAt(Utf16(a), Utf16(b), 0);
    KeyLessMeaning(a, b);
  }

  lemma NamesSorted()
    ensures SortedKeys({"kty", "crv", "x"}) == ["crv", "kty", "x"]
    ensures SortedKeys({"kty", "crv", "x", "y"}) == ["crv", "kty", "x", "y"]
  {
    hide KeyLess, SortedKeys;
    FirstUnit("crv", "kty");
    FirstUnit("crv", "x");
    FirstUnit("kty", "x");
    FirstUnit("crv", "y");
    FirstUnit("kty", "y");
    FirstUnit("x", "y");
    SortedKeysSorted({"kty", "crv", "x"});
    SortedKeysSorted({"kty", "crv", "x", "y"});
    assert Elements(["crv", "kty", "x"]) == {"kty", "crv", "x"};
    assert Elements(["crv", "kty", "x", "y"]) == {"kty", "crv", "x", "y"};
    SortedUnique(SortedKeys({"kty", "crv", "x"}), ["crv", "kty", "x"]);
    SortedUnique(SortedKeys({"kty", "crv", "x", "y"}), ["crv", "kty", "x", "y"]);
  }

  /** One member of an object of strings, and the rest. */
  lemma MemberText(members: map<string, Json>, ks: seq<string>, first: bool)
    requires ks != [] && forall k <- ks :: k in members && members[k].Str?
    ensures CanonMembers(Obj(members), ks, first)
         == (if first then "" else ",") + FormatString(ks[0]) + ":" + FormatString(members[ks[0]].s)
            + CanonMembers(Obj(members), ks[1..], false)
  {
    hide FormatString;
    assert Canon(members[ks[0]]) == FormatString(members[ks[0]].s);
  }

  /** The members of an object of strings as text, one inside the other. */
  function MembersText(members: map<string, Json>, ks: seq<string>, first: bool): string
    requires forall k <- ks :: k in members && members[k].Str?
  {
    if ks == [] then ""
    else
      (if first then "" else ",") + QuotedMember(ks[0], members[ks[0]].s) + MembersText(members, ks[1..], false)
  }

  lemma {:induction false} MembersAreText(members: map<string, Json>, ks: seq<string>, first: bool)
    requires forall k <- ks :: k in members && members[k].Str?
    requires forall k <- ks :: FormatString(k) == Quoted(k) && FormatString(members[k].s) == Quoted(members[k].s)
    ensures CanonMembers(Obj(members), ks, first) == MembersText(members, ks, first)
  {
    hide FormatString, Quoted;
    if ks != [] {
      assert ks[0] in ks;
      MemberText(members, ks, first);
      MembersAreText(members, ks[1..], false);
      Assoc4(if first then "" else ",", Quoted(ks[0]), ":", Quoted(members[ks[0]].s));
    }
  }

  lemma ObjectText(members: map<string, Json>)
    ensures Canon(Obj(members)) == "{" + CanonMembers(Obj(members), SortedKeys(members.Keys), true) + "}"
  {
  }

  /** The text that is hashed is the canonical form of the JWK. */
  lemma CanonicalJwkIsCanonical(suite: Suite, aid: Aid)
    ensures CanonicalJwk(suite, aid) == Canon(Obj(JwkOf(suite, aid)))
  {
    hide FormatString, SortedKeys, Canon, CanonMembers, Base64Url.Encode, QuotedMember, MembersText;
    var members := JwkOf(suite, aid);
    NamesSorted();
    ObjectText(members);
    PlainString("crv");
    PlainString("kty");
    PlainString("x");
    if aid.alg == Ed25519 {
      assert members.Keys == {"kty", "crv", "x"};
      PlainString("OKP");
      PlainString("Ed25519");
      EncodedString(aid.rawKey);
      MembersAreText(members, ["crv", "kty", "x"], true);
      OkpText(members, Base64Url.Encode(aid.rawKey));
    } else {
      assert members.Keys == {"kty", "crv", "x", "y"};
      PlainString("y");
      PlainString("EC");
      PlainString("P-256");
      var (x, y) := suite.p256Coordinates(aid.rawKey);
      EncodedString(x);
      EncodedString(y);
      MembersAreText(members, ["crv", "kty", "x", "y"], true);
      EcText(members, Base64Url.Encode(x), Base64Url.Encode(y));
    }
  }

  lemma Unfold(members: map<string, Json>, ks: seq<string>, first: bool, rest: seq<string>)
    requires ks != [] && (forall k <- ks :: k in members && members[k].Str?) && rest == ks[1..]
    ensures MembersText(members, ks, first)
         == (if first then "" else ",") + QuotedMember(ks[0], members[ks[0]].s) + MembersText(members, rest, false)
  {
  }

  lemma NoMembers(members: map<string, Json>)
    ensures MembersText(members, [], false) == ""
  {
  }

  lemma Braces(a: string, b: string, c: string, d: string)
    ensures "{" + ("" + a + ("," + b + ("," + c + ""))) + "}" == "{" + a + "," + b + "," + c + "}"
    ensures "{" + ("" + a + ("," + b + ("," + c + ("," + d + "")))) + "}" == "{" + a + "," + b + "," + c + "," + d + "}"
  {
  }

  lemma OkpText(members: map<string, Json>, x: string)
    requires members.Keys == {"kty", "crv", "x"}
    requires members["crv"] == Str("Ed25519") && members["kty"] == Str("OKP") && members["x"] == Str(x)
    ensures "{" + QuotedMember("crv", "Ed25519") + "," + QuotedMember("kty", "OKP") + "," + QuotedMember("x", x) + "}"
         == "{" + MembersText(members, ["crv", "kty", "x"], true) + "}"
  {
    hide MembersText, QuotedMember;
    Unfold(members, ["crv", "kty", "x"], true, ["kty", "x"]);
    Unfold(members, ["kty", "x"], false, ["x"]);
    Unfold(members, ["x"], false, []);
    NoMembers(members);
    Braces(QuotedMember("crv", "Ed25519"), QuotedMember("kty", "OKP"), QuotedMember("x", x), "");
  }

  lemma EcText(members: map<string, Json>, x: string, y: string)
    requires members.Keys == {"kty", "crv", "x", "y"}
    requires members["crv"] == Str("P-256") && members["kty"] == Str("EC")
    requires members["x"] == Str(x) && members["y"] == Str(y)
    ensures "{" + QuotedMember("crv", "P-256") + "," + QuotedMember("kty", "EC")
            + "," + QuotedMember("x", x) + "," + QuotedMember("y", y) + "}"
         == "{" + MembersText(members, ["crv", "kty", "x", "y"], true) + "}"
  {
    hide MembersText, QuotedMember;
    Unfold(members, ["crv", "kty", "x", "y"], true, ["kty", "x", "y"]);
    Unfold(members, ["kty", "x", "y"], false, ["x", "y"]);
    Unfold(members, ["x", "y"], false, ["y"]);
    Unfold(members, ["y"], false, []);
    NoMembers(members);
    Braces(QuotedMember("crv", "P-256"), QuotedMember("kty", "EC"), QuotedMember("x", x), QuotedMember("y", y));
  }

  /** A thumbprint decodes to the digest of that canonical form. */
  lemma ThumbprintMeaning(suite: Suite, aid: Aid)
    ensures Base64Url.Decode(Thumbprint(suite, aid)).Some?
    ensures Base64Url.Decode(Thumbprint(suite, aid)).value == suite.sha256(Utf8.Encode(Canon(Obj(JwkOf(suite, aid)))))
  {
    hide CanonicalJwk, JwkOf, Canon, Base64Url.Encode, Base64Url.Decode;
    CanonicalJwkIsCanonical(suite, aid);
    Base64Url.DecodeEncode(suite.sha256(Utf8.Encode(CanonicalJwk(suite, aid))));
  }
}
