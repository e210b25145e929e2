/** The byte strings that get signed: handshake proofs and envelopes. */
module SigningInput {
  import opened Wrappers
  import opened Bytes
  import opened Jcs
  import opened JsonReader
  import Base64Url
  import Decimal
  import Utf8

  const ENVELOPE_TAG := "aitp-envelope-v2"

  /** A domain prefix: the tag and one zero byte. */
  function Domain(tag: string): bytes {
    Utf8.Encode(tag) + [0]
  }

  /** `str(n)` of an `int`. */
  function IntText(n: int): string {
    if n < 0 then "-" + Decimal.NatText(-n) else Decimal.NatText(n)
  }

  /** `handshake_proof_input`; `None` is the nonce's `ValueError`. */
  function HandshakeProofInput(domain: bytes, sender: string, receiver: string, messageId: string,
                               timestamp: int, popNonce: string): Option<bytes>
  {
    var nonce :- Base64Url.Decode(popNonce);
    Some(domain + Utf8.Encode(sender) + [0] + Utf8.Encode(receiver) + [0] + Utf8.Encode(messageId) + [0]
         + Utf8.Encode(IntText(timestamp)) + [0] + nonce)
  }

  /** `envelope_signing_input`; `None` is the `JcsError` of the canonical form. */
  function EnvelopeSigningInput(env: map<string, Json>): Option<bytes> {
    var canonical :- Canonicalize(Obj(env - {"signature"}));
    Some(Domain(ENVELOPE_TAG) + canonical)
  }

  // ----- fields separated by zero bytes -----

  lemma CutAtZero(a: bytes, x: bytes, b: bytes, y: bytes)
    requires 0 !in a && 0 !in b && a + [0] + x == b + [0] + y
    ensures a == b && x == y
  {
    IndexOfAfter(a, 0, x);
    IndexOfAfter(b, 0, y);
    CutAt(a, 0, x);
    CutAt(b, 0, y);
  }

  ghost predicate NulFree(s: string) { 0 as char !in s }

  lemma CutTextAtZero(a: string, x: bytes, b: string, y: bytes)
    requires NulFree(a) && NulFree(b)
    requires Utf8.Encode(a) + [0] + x == Utf8.Encode(b) + [0] + y
    ensures a == b && x == y
  {
    Utf8.EncodeNul(a);
    Utf8.EncodeNul(b);
    CutAtZero(Utf8.Encode(a), x, Utf8.Encode(b), y);
    Utf8.EncodeInjective(a, b);
  }

  lemma IntTextSign(n: int)
    ensures IntText(n) != "" && (IntText(n)[0] == '-' <==> n < 0)
    ensures n < 0 ==> IntText(n)[1..] == Decimal.NatText(-n)
  {
    if n >= 0 {
      assert IntText(n)[0] in IntText(n);
    }
  }

  lemma IntTextInjective(a: int, b: int)
    requires IntText(a) == IntText(b)
    ensures a == b
  {
    IntTextSign(a);
    IntTextSign(b);
  }

  lemma IntTextNulFree(n: int)
    ensures NulFree(IntText(n))
  {
    var digits := Decimal.NatText(if n < 0 then -n else n);
    assert forall c <- digits :: Decimal.IsDigit(c);
  }

  /** The fields behind the domain prefix, innermost last. */
  function Fields(sender: string, receiver: string, messageId: string, timestamp: int, nonce: bytes): bytes {
    Utf8.Encode(sender) + [0]
    + (Utf8.Encode(receiver) + [0] + (Utf8.Encode(messageId) + [0] + (Utf8.Encode(IntText(timestamp)) + [0] + nonce)))
  }

  lemma RegroupBytes(d: bytes, a: bytes, b: bytes, c: bytes, t: bytes, n: bytes)
    ensures d + a + [0] + b + [0] + c + [0] + t + [0] + n
         == d + (a + [0] + (b + [0] + (c + [0] + (t + [0] + n))))
  {
    var inner := t + [0] + n;
    var inner2 := c + [0] + inner;
    var inner3 := b + [0] + inner2;
    assert d + a + [0] + b + [0] + c + [0] + t + [0] + n == d + a + [0] + b + [0] + c + [0] + inner;
    assert d + a + [0] + b + [0] + c + [0] + inner == d + a + [0] + b + [0] + inner2;
    assert d + a + [0] + b + [0] + inner2 == d + a + [0] + inner3;
    assert d + a + [0] + inner3 == d + (a + [0] + inner3);
  }

  lemma ProofInputFields(tag: string, sender: string, receiver: string, messageId: string,
                         timestamp: int, popNonce: string)
    requires Base64Url.Decode(popNonce).Some?
    ensures HandshakeProofInput(Domain(tag), sender, receiver, messageId, timestamp, popNonce)
         == Some(Utf8.Encode(tag) + [0]
                 + Fields(sender, receiver, messageId, timestamp, Base64Url.Decode(popNonce).value))
  {
    hide Utf8.Encode, Base64Url.Decode, IntText;
    RegroupBytes(Domain(tag), Utf8.Encode(sender), Utf8.Encode(receiver), Utf8.Encode(messageId),
                 Utf8.Encode(IntText(timestamp)), Base64Url.Decode(popNonce).value);
  }

  /**
   * One proof input, one tuple: equal inputs have the same domain, the same parties, message id
   * and timestamp, and the same decoded nonce. The text fields must not contain a NUL.
   */
  lemma ProofInputInjective(tag1: string, s1: string, r1: string, m1: string, t1: int, n1: string,
                            tag2: string, s2: string, r2: string, m2: string, t2: int, n2: string)
    requires NulFree(tag1) && NulFree(s1) && NulFree(r1) && NulFree(m1)
    requires NulFree(tag2) && NulFree(s2) && NulFree(r2) && NulFree(m2)
    requires HandshakeProofInput(Domain(tag1), s1, r1, m1, t1, n1).Some?
    requires HandshakeProofInput(Domain(tag1), s1, r1, m1, t1, n1)
          == HandshakeProofInput(Domain(tag2), s2, r2, m2, t2, n2)
    ensures tag1 == tag2 && s1 == s2 && r1 == r2 && m1 == m2 && t1 == t2
    ensures Base64Url.Decode(n1) == Base64Url.Decode(n2)
  {
    ProofInputFields(tag1, s1, r1, m1, t1, n1);
    ProofInputFields(tag2, s2, r2, m2, t2, n2);
    hide Utf8.Encode, Base64Url.Decode, IntText, HandshakeProofInput;
    var b1, b2 := Base64Url.Decode(n1).value, Base64Url.Decode(n2).value;
    CutTextAtZero(tag1, Fields(s1, r1, m1, t1, b1), tag2, Fields(s2, r2, m2, t2, b2));
    var x1 := Utf8.Encode(IntText(t1)) + [0] + b1;
    var x2 := Utf8.Encode(IntText(t2)) + [0] + b2;
    var y1, y2 := Utf8.Encode(m1) + [0] + x1, Utf8.Encode(m2) + [0] + x2;
    CutTextAtZero(s1, Utf8.Encode(r1) + [0] + y1, s2, Utf8.Encode(r2) + [0] + y2);
    CutTextAtZero(r1, y1, r2, y2);
    CutTextAtZero(m1, x1, m2, x2);
    IntTextNulFree(t1);
    IntTextNulFree(t2);
    CutTextAtZero(IntText(t1), b1, IntText(t2), b2);
    IntTextInjective(t1, t2);
  }

  /** The first zero-terminated field of a byte string, and what follows its zero. */
  function FirstField(b: bytes): (bytes, bytes) {
    var i := IndexOf(b, 0);
    if i < |b| then (b[..i], b[i + 1..]) else (b, [])
  }

  lemma FieldFirst(text: string, rest: bytes)
    requires NulFree(text)
    ensures FirstField(Utf8.Encode(text) + [0] + rest) == (Utf8.Encode(text), rest)
  {
    Utf8.EncodeNul(text);
    hide Utf8.Encode;
    IndexOfAfter(Utf8.Encode(text), 0, rest);
    CutAt(Utf8.Encode(text), 0, rest);
  }

  /**
   * The layout of a proof input, read field by field: tag, sender, receiver, message id and the
   * decimal timestamp, in this order and each ended by a zero, then the decoded nonce to the end.
   */
  lemma ProofInputLayout(tag: string, sender: string, receiver: string, messageId: string,
                         timestamp: int, popNonce: string)
    requires NulFree(tag) && NulFree(sender) && NulFree(receiver) && NulFree(messageId)
    ensures var r := HandshakeProofInput(Domain(tag), sender, receiver, messageId, timestamp, popNonce);
            && r.Some? == Base64Url.Decode(popNonce).Some?
            && (r.Some? ==>
                  var (first, b1) := FirstField(r.value);
                  var (second, b2) := FirstField(b1);
                  var (third, b3) := FirstField(b2);
                  var (fourth, b4) := FirstField(b3);
                  var (fifth, b5) := FirstField(b4);
                  && Utf8.Decode(first) == Some(tag) && Utf8.Decode(second) == Some(sender)
                  && Utf8.Decode(third) == Some(receiver) && Utf8.Decode(fourth) == Some(messageId)
                  && Utf8.Decode(fifth) == Some(IntText(timestamp)) && Base64Url.Decode(popNonce) == Some(b5))
  {
    hide Utf8.Encode, Utf8.Decode, Base64Url.Decode, IntText, FirstField;
    if Base64Url.Decode(popNonce).Some? {
      ProofInputFields(tag, sender, receiver, messageId, timestamp, popNonce);
      var nonce := Base64Url.Decode(popNonce).value;
      IntTextNulFree(timestamp);
      FieldFirst(tag, Fields(sender, receiver, messageId, timestamp, nonce));
      FieldFirst(sender, Utf8.Encode(receiver) + [0] + (Utf8.Encode(messageId) + [0]
                                                         + (Utf8.Encode(IntText(timestamp)) + [0] + nonce)));
      FieldFirst(receiver, Utf8.Encode(messageId) + [0] + (Utf8.Encode(IntText(timestamp)) + [0] + nonce));
      FieldFirst(messageId, Utf8.Encode(IntText(timestamp)) + [0] + nonce);
      FieldFirst(IntText(timestamp), nonce);
      Utf8.DecodeEncode(tag);
      Utf8.DecodeEncode(sender);
      Utf8.DecodeEncode(receiver);
      Utf8.DecodeEncode(messageId);
      Utf8.DecodeEncode(IntText(timestamp));
    }
  }

  /**
   * The envelope signing input, read back: the version 2 tag, a zero, and canonical JSON of exactly the
   * members other than `signature`, as they were received.
   */
  lemma EnvelopeInputLayout(env: map<string, Json>)
    ensures EnvelopeSigningInput(env).Some? <==> Canonicalizable(Obj(env - {"signature"}))
    ensures EnvelopeSigningInput(env).Some? ==>
              var (tag, json) := FirstField(EnvelopeSigningInput(env).value);
              && Utf8.Decode(tag) == Some("aitp-envelope-v2")
              && LoadsBytes(json) == Some(Obj(env - {"signature"}))
              && Canonicalize(Obj(env - {"signature"})) == Some(json)
  {
    hide Utf8.Encode, Utf8.Decode, LoadsBytes, FirstField, Canonicalizable, Canon;
    var unsigned := Obj(env - {"signature"});
    TagNulFree();
    Utf8.DecodeEncode("aitp-envelope-v2");
    if Canonicalizable(unsigned) {
      LoadsCanonicalized(unsigned);
      FieldFirst("aitp-envelope-v2", Canonicalize(unsigned).value);
    }
  }

  lemma TagNulFree()
    ensures NulFree("aitp-envelope-v2")
  {
  }

  /** Envelope signing inputs are equal exactly when the envelopes agree on every member but `signature`. */
  lemma EnvelopeInputInjective(a: map<string, Json>, b: map<string, Json>)
    requires EnvelopeSigningInput(a).Some?
    ensures EnvelopeSigningInput(a) == EnvelopeSigningInput(b) <==> a - {"signature"} == b - {"signature"}
  {
    hide Canonicalize, Domain;
    if EnvelopeSigningInput(a) == EnvelopeSigningInput(b) {
      var ca, cb := Canonicalize(Obj(a - {"signature"})), Canonicalize(Obj(b - {"signature"}));
      SameHead(Domain(ENVELOPE_TAG), ca.value, cb.value);
      CanonicalizeInjective(Obj(a - {"signature"}), Obj(b - {"signature"}));
    }
  }

  /** What the sixth byte of a signing input is, by its kind. */
  ghost predicate Starts(b: bytes, first: char, sixth: char) {
    |b| > 6 && b[0] == first as int && b[5] == sixth as int
  }

  lemma ProofInputStarts(tag: string, sixth: char, sender: string, receiver: string, messageId: string,
                         timestamp: int, popNonce: string)
    requires Utf8.IsAscii(tag) && |tag| > 6 && tag[0] == 'a' && tag[5] == sixth
    requires Base64Url.Decode(popNonce).Some?
    ensures Starts(HandshakeProofInput(Domain(tag), sender, receiver, messageId, timestamp, popNonce).value, 'a', sixth)
  {
    hide Utf8.Encode, Base64Url.Decode, IntText;
    ProofInputFields(tag, sender, receiver, messageId, timestamp, popNonce);
    TagStart(tag, Fields(sender, receiver, messageId, timestamp, Base64Url.Decode(popNonce).value), 'a', sixth);
  }

  /**
   * The inputs that get signed never coincide: a pinned-key proof, a SPIFFE proof, an envelope and the
   * canonical form of an object, whatever goes into each.
   */
  lemma InputsDisjoint(s1: string, r1: string, m1: string, t1: int, n1: string,
                       s2: string, r2: string, m2: string, t2: int, n2: string,
                       env: map<string, Json>, members: map<string, Json>)
    ensures var p := HandshakeProofInput(Domain("aitp-pinned-key-v1"), s1, r1, m1, t1, n1);
            var s := HandshakeProofInput(Domain("aitp-spiffe-x509-v1"), s2, r2, m2, t2, n2);
            var e := EnvelopeSigningInput(env);
            var c := Canonicalize(Obj(members));
            && (p.Some? ==> p != s && p != e && p != c)
            && (s.Some? ==> s != e && s != c)
            && (e.Some? ==> e != c)
  {
    hide Domain, Utf8.Encode, Canon, Canonicalizable, HandshakeProofInput, Base64Url.Decode;
    ProofDecodes(Domain("aitp-pinned-key-v1"), s1, r1, m1, t1, n1);
    ProofDecodes(Domain("aitp-spiffe-x509-v1"), s2, r2, m2, t2, n2);
    if Base64Url.Decode(n1).Some? {
      ProofInputStarts("aitp-pinned-key-v1", 'p', s1, r1, m1, t1, n1);
    }
    if Base64Url.Decode(n2).Some? {
      ProofInputStarts("aitp-spiffe-x509-v1", 's', s2, r2, m2, t2, n2);
    }
    EnvelopeStarts(env);
    CanonObjectStart(Obj(members));
  }

  lemma ProofDecodes(domain: bytes, s: string, r: string, m: string, t: int, n: string)
    ensures HandshakeProofInput(domain, s, r, m, t, n).Some? == Base64Url.Decode(n).Some?
  {
    hide Utf8.Encode, Base64Url.Decode, IntText;
  }

  lemma EnvelopeStarts(env: map<string, Json>)
    ensures EnvelopeSigningInput(env).Some? ==> Starts(EnvelopeSigningInput(env).value, 'a', 'e')
  {
    hide Domain, Utf8.Encode, Canonicalize;
    if EnvelopeSigningInput(env).Some? {
      TagStart(ENVELOPE_TAG, Canonicalize(Obj(env - {"signature"})).value, 'a', 'e');
    }
  }

  lemma CanonObjectStart(j: Json)
    requires j.Obj?
    ensures Utf8.Encode(Canon(j)) != [] && Utf8.Encode(Canon(j))[0] == '{' as int
  {
    assert Canon(j)[0] == '{';
  }

  lemma TagStart(tag: string, x: bytes, first: char, sixth: char)
    requires Utf8.IsAscii(tag) && |tag| > 6 && tag[0] == first && tag[5] == sixth
    ensures Starts(Domain(tag) + x, first, sixth)
  {
    Utf8.EncodeAscii(tag);
  }
}
