/** The digest-array commitment to a delegation chain (section 5 of RFC-AITP-0011). */
module ChainHash {
  import opened Wrappers
  import opened Bytes
  import opened KeyMath
  import opened Jcs
  import opened JsonReader
  import Base64Url
  import Utf8

  function Digest(suite: Suite, data: bytes): string {
    Base64Url.Encode(suite.sha256(data))
  }

  /** The digests of the entries, as the JSON array that is hashed again. */
  function DigestArray(suite: Suite, chain: seq<string>): Json {
    Arr(seq(|chain|, i requires 0 <= i < |chain| => Str(Digest(suite, Utf8.Encode(chain[i])))))
  }

  /** `compute_chain_hash`. */
  function ComputeChainHash(suite: Suite, chain: seq<string>): Outcome<string> {
    if exists entry <- chain :: !Utf8.IsAscii(entry) then Crash("UnicodeEncodeError")
    else
      match Canonicalize(DigestArray(suite, chain))
      case None => Crash("JcsError")
      case Some(canonical) => Ok(Digest(suite, canonical))
  }

  /** Every byte string that SHA-256 sees while a chain is hashed. */
  function Hashed(suite: Suite, chain: seq<string>): set<bytes> {
    var canonical := Canonicalize(DigestArray(suite, chain));
    (set entry | entry in chain :: Utf8.Encode(entry)) + (if canonical.Some? then {canonical.value} else {})
  }

  ghost predicate Collision(suite: Suite, x: bytes, y: bytes) {
    x != y && suite.sha256(x) == suite.sha256(y)
  }

  lemma DigestInjective(suite: Suite, x: bytes, y: bytes)
    requires Digest(suite, x) == Digest(suite, y)
    ensures x == y || Collision(suite, x, y)
  {
    Base64Url.EncodeInjective(suite.sha256(x), suite.sha256(y));
  }

  /**
   * The commitment binds the whole list. Two chains with one `chain_hash` are the same list, or
   * among the byte strings hashed for them are two different ones with one SHA-256.
   */
  lemma ChainHashBinds(suite: Suite, a: seq<string>, b: seq<string>)
    requires ComputeChainHash(suite, a).Ok? && ComputeChainHash(suite, a) == ComputeChainHash(suite, b)
    ensures a == b || exists x, y :: x in Hashed(suite, a) && y in Hashed(suite, b) && Collision(suite, x, y)
  {
    hide Canonicalize, Digest, Collision, Utf8.Encode;
    var da, db := DigestArray(suite, a), DigestArray(suite, b);
    var ca, cb := Canonicalize(da).value, Canonicalize(db).value;
    DigestInjective(suite, ca, cb);
    if ca == cb {
      CanonicalizeInjective(da, db);
      assert |da.items| == |db.items|;
      if a != b {
        var i :| 0 <= i < |a| && a[i] != b[i];
        assert da.items[i] == db.items[i];
        DigestInjective(suite, Utf8.Encode(a[i]), Utf8.Encode(b[i]));
        if Utf8.Encode(a[i]) == Utf8.Encode(b[i]) {
          Utf8.EncodeInjective(a[i], b[i]);
        }
        assert Collision(suite, Utf8.Encode(a[i]), Utf8.Encode(b[i]));
      }
    }
  }

  /**
   * What is committed to, read back: the hash decodes to the digest of canonical JSON, a list with one
   * string for each entry, in order, which decodes to the digest of that entry.
   */
  lemma ChainHashReads(suite: Suite, chain: seq<string>)
    requires ComputeChainHash(suite, chain).Ok?
    ensures exists json: bytes, digests: seq<Json> ::
              && Base64Url.Decode(ComputeChainHash(suite, chain).value) == Some(suite.sha256(json))
              && Canonicalize(Arr(digests)) == Some(json) && LoadsBytes(json) == Some(Arr(digests))
              && |digests| == |chain|
              && forall i | 0 <= i < |chain| ::
                   && digests[i].Str?
                   && Base64Url.Decode(digests[i].s) == Some(suite.sha256(Utf8.Encode(chain[i])))
  {
    hide Canonicalize, LoadsBytes, Utf8.Encode, Base64Url.Encode, Base64Url.Decode;
    var list := DigestArray(suite, chain);
    var json := Canonicalize(list).value;
    LoadsCanonicalized(list);
    Base64Url.DecodeEncode(suite.sha256(json));
    var digests := list.items;
    forall i | 0 <= i < |chain|
      ensures digests[i].Str? && Base64Url.Decode(digests[i].s) == Some(suite.sha256(Utf8.Encode(chain[i])))
    {
      Base64Url.DecodeEncode(suite.sha256(Utf8.Encode(chain[i])));
    }
    assert Base64Url.Decode(ComputeChainHash(suite, chain).value) == Some(suite.sha256(json));
  }
}
