/** The signed envelope (section 5.4 of RFC-AITP-0001). */
module Envelopes {
  import opened Wrappers
  import opened Bytes
  import opened KeyMath
  import opened Aids
  import opened Jcs
  import opened Jws
  import opened Fields
  import opened SigningInput
  import Number

  /** The schema checks of `validate_envelope_shape` behind its version check, one code. */
  predicate EnvelopeTyped(env: Claims) {
    WellTyped(env, {"version", "message_type", "message_id", "timestamp", "sender", "payload", "signature"},
              map["version" := Text, "message_type" := Text, "message_id" := Text, "timestamp" := Integer,
                  "sender" := Dict, "payload" := Dict, "signature" := Text, "extensions" := Dict])
  }

  predicate SenderTyped(sender: Claims) {
    WellTyped(sender, {"agent_id"}, map["agent_id" := Text])
  }

  const ENVELOPE_FIELDS := {
    "version", "message_type", "message_id", "timestamp", "sender", "payload", "signature", "extensions"
  }

  /** An envelope of the schema: this version, typed and closed member sets, and the two value rules. */
  ghost predicate EnvelopeShape(env: Claims) {
    && Get(env, "version") == Str(PROTOCOL_VERSION)
    && EnvelopeTyped(env) && env.Keys <= ENVELOPE_FIELDS
    && IntOf(env["timestamp"]) >= 0 && ReadPattern(env["signature"].s).Some?
    && SenderTyped(env["sender"].members) && env["sender"].members.Keys == {"agent_id"}
  }

  /** The same envelope, said of its JSON. */
  ghost predicate EnvelopeSays(env: Claims) {
    && env.Keys <= {"version", "message_type", "message_id", "timestamp", "sender", "payload", "signature", "extensions"}
    && Get(env, "version") == Str("aitp/0.3") && Get(env, "message_type").Str? && Get(env, "message_id").Str?
    && IsWhole(Get(env, "timestamp")) && Number.Value(Get(env, "timestamp").n) >= 0.0
    && Get(env, "sender").Obj? && Get(env, "sender").members.Keys == {"agent_id"}
    && Get(Get(env, "sender").members, "agent_id").Str?
    && Get(env, "payload").Obj? && ("extensions" in env ==> env["extensions"].Obj?)
    && Get(env, "signature").Str?
    && exists p: SignaturePattern :: p.Valid() && p.Text() == Get(env, "signature").s
  }

  lemma EnvelopeTypedMembers(env: Claims)
    ensures EnvelopeTyped(env) <==>
            && Get(env, "version").Str? && Get(env, "message_type").Str? && Get(env, "message_id").Str?
            && HasKind(Get(env, "timestamp"), Integer) && Get(env, "sender").Obj? && Get(env, "payload").Obj?
            && Get(env, "signature").Str? && ("extensions" in env ==> env["extensions"].Obj?)
    ensures EnvelopeTyped(env) ==>
              && env["timestamp"] == Get(env, "timestamp") && env["sender"] == Get(env, "sender")
              && env["signature"] == Get(env, "signature") && env["payload"] == Get(env, "payload")
              && env["message_type"] == Get(env, "message_type")
  {
    hide IsInteger;
  }

  lemma SenderTypedMembers(sender: Claims)
    ensures SenderTyped(sender) <==> Get(sender, "agent_id").Str?
    ensures SenderTyped(sender) ==> sender["agent_id"] == Get(sender, "agent_id")
  {
  }

  lemma NotNegative(v: Json)
    requires HasKind(v, Integer)
    ensures IntOf(v) >= 0 <==> Number.Value(v.n) >= 0.0
  {
    IntegerMeaning(v.n);
    hide Number.Value, Truncate, IsInteger;
  }

  /** The shape that is checked is what the JSON says. */
  lemma EnvelopeMeaning(env: Claims)
    ensures EnvelopeShape(env) <==> EnvelopeSays(env)
  {
    hide EnvelopeTyped, SenderTyped, HasKind, IsWhole, ReadPattern, IntOf, Number.Value;
    EnvelopeTypedMembers(env);
    IntMeaning(Get(env, "timestamp"), 0);
    if EnvelopeTyped(env) {
      SenderTypedMembers(Get(env, "sender").members);
      NotNegative(Get(env, "timestamp"));
      PatternExists(Get(env, "signature").s);
    }
  }

  lemma PatternExists(sig: string)
    ensures ReadPattern(sig).Some? <==> exists p: SignaturePattern :: p.Valid() && p.Text() == sig
  {
    if ReadPattern(sig).Some? {
      ReadPatternValid(sig);
      PatternUnique(sig, ReadPattern(sig).value);
    }
    forall p: SignaturePattern | p.Valid() && p.Text() == sig ensures ReadPattern(sig).Some? {
      PatternUnique(sig, p);
    }
    hide ReadPattern;
  }

  lemma ReadPatternValid(sig: string)
    requires ReadPattern(sig).Some?
    ensures ReadPattern(sig).value.Valid()
  {
  }

  /** `validate_envelope_shape`: it passes exactly the envelopes of that shape, unchanged. */
  function ValidateEnvelopeShape(v: Json): (r: Outcome<Claims>)
    ensures r.Ok? <==> v.Obj? && EnvelopeShape(v.members)
    ensures r.Ok? ==> v == Obj(r.value)
    ensures r.Ok? || r in [Err("UNKNOWN_VERSION"), Err("UNKNOWN_FIELD"), Err("INVALID_ENVELOPE")]
    ensures r == Err("UNKNOWN_VERSION") <==> v.Obj? && Get(v.members, "version") != Str(PROTOCOL_VERSION)
    ensures r == Err("UNKNOWN_FIELD") ==>
              v.Obj? && EnvelopeTyped(v.members)
              && !(v.members.Keys <= ENVELOPE_FIELDS && v.members["sender"].members.Keys <= {"agent_id"})
  {
    if !v.Obj? then Err("INVALID_ENVELOPE")
    else
      var env := v.members;
      var _ :- Need(Get(env, "version") == Str(PROTOCOL_VERSION), "UNKNOWN_VERSION");
      if !EnvelopeTyped(env) then Err("INVALID_ENVELOPE")
      else
        var _ :- KnownOnly(env, ENVELOPE_FIELDS);
        if IntOf(env["timestamp"]) < 0 || ReadPattern(env["signature"].s).None? then Err("INVALID_ENVELOPE")
        else
          var sender := env["sender"].members;
          if !SenderTyped(sender) then Err("INVALID_ENVELOPE")
          else
            var _ :- KnownOnly(sender, {"agent_id"});
            Ok(env)
  }

  /** The sender's key, the signature field and the digest it must sign. */
  function VerifySender(suite: Suite, env: Claims, sender: Aid, code: string): Outcome<()>
    requires EnvelopeTyped(env)
  {
    var raw :- DecodeTagged(env["signature"].s, sender.alg, code);
    var input :- OrErr(EnvelopeSigningInput(env), "INVALID_ENVELOPE");
    Need(VerifyDigest(suite, sender, suite.sha256(input), raw), code)
  }

  /**
   * Signature step of a well-shaped envelope: its field decodes unless the tag names another
   * algorithm, success pins every member but the signature itself to one digest, and a signature
   * that does not verify over it fails with the caller's code.
   */
  lemma VerifySenderMeaning(suite: Suite, env: Claims, sender: Aid, code: string)
    requires ValidateEnvelopeShape(Obj(env)).Ok?
    ensures var p := ReadPattern(env["signature"].s).value;
            var r := VerifySender(suite, env, sender, code);
            && (p.Declares() != sender.alg ==> r == Err(code))
            && (p.Declares() == sender.alg && EnvelopeSigningInput(env).None? ==> r == Err("INVALID_ENVELOPE"))
            && (r.Ok? || r == Err(code) || r == Err("INVALID_ENVELOPE"))
            && (p.Declares() == sender.alg && EnvelopeSigningInput(env).Some? && !r.Ok? ==> r == Err(code))
            && (r.Ok? <==>
                  && p.Declares() == sender.alg && EnvelopeSigningInput(env).Some?
                  && exists raw: bytes ::
                       && |raw| == 64 && DecodeTagged(env["signature"].s, sender.alg, code) == Ok(raw)
                       && VerifyDigest(suite, sender, suite.sha256(EnvelopeSigningInput(env).value), raw))
  {
    var p := ReadPattern(env["signature"].s).value;
    PatternUnique(env["signature"].s, p);
    PatternDecodes(env["signature"].s, p, sender.alg, code);
    hide DecodeTagged, EnvelopeSigningInput, VerifyDigest, ReadPattern, ValidateEnvelopeShape;
  }
}
