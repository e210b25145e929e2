/** What the adapter reads of a line, keeps as its settings and hands to an operation. */
module AdapterCalls {
  import opened Wrappers
  import opened Bytes
  import opened Jcs
  import opened JsonReader
  import opened Jws
  import opened Fields
  import opened Pop
  import opened Adapter
  import opened AdapterRuns
  import Utf8

  // ----- the line -----

  predicate IsLineEnd(end: bytes) { forall b <- end :: b == 10 || b == 13 }

  /** A line is read as an object exactly when it is the strict text of that object and then only CR and LF. */
  lemma ParseRequestMeaning(text: bytes, request: Claims)
    ensures ParseRequest(text) == Some(request) <==>
            exists body: bytes, end: bytes ::
              && text == body + end && IsLineEnd(end) && (body == [] || !IsLineEnd([body[|body| - 1]]))
              && LoadsBytes(body) == Some(Obj(request))
  {
    hide LoadsBytes;
    StripParts(text);
    forall body: bytes, end: bytes |
      text == body + end && IsLineEnd(end) && (body == [] || !IsLineEnd([body[|body| - 1]]))
      ensures StripEnd(text) == body
    {
      StripAll(body, end);
    }
  }

  lemma {:induction false} StripParts(text: bytes)
    ensures var body := StripEnd(text);
            && |body| <= |text| && text == body + text[|body|..] && IsLineEnd(text[|body|..])
            && (body == [] || !IsLineEnd([body[|body| - 1]]))
  {
    var body := StripEnd(text);
    if text != [] && text[|text| - 1] in {10, 13} {
      var init := text[..|text| - 1];
      StripParts(init);
      assert text[|body|..] == init[|body|..] + [text[|text| - 1]];
    } else if text != [] {
      assert text[|text| - 1] in [text[|text| - 1]];
    }
  }

  lemma {:induction false} StripAll(body: bytes, end: bytes)
    requires IsLineEnd(end) && (body == [] || !IsLineEnd([body[|body| - 1]]))
    ensures StripEnd(body + end) == body
  {
    if end == [] {
      assert body + end == body;
    } else {
      var last := |end| - 1;
      assert end[last] in end && forall b <- end[..last] :: b in end;
      assert (body + end)[..|body + end| - 1] == body + end[..last];
      StripAll(body, end[..last]);
    }
  }

  /** A line counts as blank when every byte is a space or one of the five control characters around line ends. */
  lemma BlankMeaning(text: bytes)
    ensures IsBlank(text) <==> forall i | 0 <= i < |text| :: text[i] == 32 || 9 <= text[i] <= 13
  {
    if IsBlank(text) {
      forall i | 0 <= i < |text| ensures text[i] == 32 || 9 <= text[i] <= 13 {
        assert text[i] in text;
      }
    }
  }

  lemma EndsInBrace(request: Claims)
    ensures Canon(Obj(request)) != "" && Canon(Obj(request))[|Canon(Obj(request))| - 1] == '}'
  {
  }

  lemma {:induction false} LastByte(s: string)
    requires s != "" && s[|s| - 1] as int < 128
    ensures var b := Utf8.Encode(s);
            b != [] && b[|b| - 1] as int == s[|s| - 1] as int
  {
    if |s| == 1 {
      assert s[1..] == "";
    } else {
      LastByte(s[1..]);
    }
  }

  /** A request sent in canonical form, with any line ending, is read back as itself. */
  lemma RequestRead(request: Claims, end: bytes)
    requires Canonicalize(Obj(request)).Some? && IsLineEnd(end)
    ensures var text := Canonicalize(Obj(request)).value + end;
            ParseRequest(text) == Some(request) && !IsBlank(text)
  {
    hide LoadsBytes, Canon, Canonicalizable;
    var body := Canonicalize(Obj(request)).value;
    EndsInBrace(request);
    LastByte(Canon(Obj(request)));
    assert body[|body| - 1] in [body[|body| - 1]];
    LoadsCanonicalized(Obj(request));
    ParseRequestMeaning(body + end, request);
    assert body[|body| - 1] in body + end;
  }

  // ----- the response -----

  /** The request names this operation, with these params, none given being none. */
  ghost predicate Names(request: Claims, op: string, params: Claims) {
    && Get(request, "op") == Str(op)
    && (if "params" in request then request["params"] == Obj(params) else params == map[])
  }

  /** The id a response carries: the request's own if it is a string. */
  ghost predicate Answered(request: Claims, id: string) {
    Get(request, "id") == Str(id) || (!Get(request, "id").Str? && id == "unknown")
  }

  lemma CallMeaning(request: Claims, op: string, params: Claims)
    ensures Call(request) == Some((op, params)) <==> Names(request, op, params)
  {
  }

  /**
   * How a line is answered. What is no request, and a request that names no operation, is malformed and
   * changes nothing; any other carries its own id and what the operation gave: its result, its code, or
   * the one internal error for whatever else it raised.
   */
  lemma ResponseMeaning(h: Host, s: State, line: Line)
    requires !IsBlank(line.text)
    ensures var (after, r) := ServeLine(h, s, line);
            match ParseRequest(line.text)
            case None => after == s && r == Some(Failure("unknown", "MALFORMED_REQUEST"))
            case Some(request) =>
              && r.Some? && Answered(request, r.value.id)
              && ((forall op, params :: !Names(request, op, params)) ==>
                    after == s && r == Some(Failure(r.value.id, "MALFORMED_REQUEST")))
              && (forall op, params | Names(request, op, params) ::
                    var step := Step(h, s, op, params, line.nonce);
                    && after == step.0
                    && (step.1.Ok? ==> r == Some(Success(r.value.id, step.1.value)))
                    && (step.1.Err? ==> r == Some(Failure(r.value.id, step.1.code)))
                    && (step.1.Crash? ==> r == Some(Failure(r.value.id, "ADAPTER_INTERNAL_ERROR"))))
  {
    hide Step, ParseRequest, IsBlank, Names, Call;
    if ParseRequest(line.text).Some? {
      var request := ParseRequest(line.text).value;
      forall op, params ensures Call(request) == Some((op, params)) <==> Names(request, op, params) {
        CallMeaning(request, op, params);
      }
      if Call(request).Some? {
        var (op, params) := Call(request).value;
        assert Names(request, op, params);
      }
    }
  }

  /** The control operations: which fail, and that only the settings and the fixture change. */
  lemma ControlMeaning(h: Host, s: State, params: Claims, random: string)
    ensures var init := Step(h, s, "init", params, random);
            && init.0 == s && (init.1.Ok? <==> Get(params, "version") == Str("1") && h.keysLoad)
            && (init.1.Ok? ==> init.1.value == h.about)
            && (Get(params, "version") != Str("1") ==> init.1 == Err("MALFORMED_REQUEST"))
            && (Get(params, "version") == Str("1") && !h.keysLoad ==> init.1 == Err("ADAPTER_INTERNAL_ERROR"))
    ensures Step(h, s, "shutdown", params, random) == (s, Ok(map[]))
    ensures Step(h, s, "begin_fixture", params, random) == (State(s.clock, s.features, {}, [], None, false), Ok(map[]))
    ensures var set_clock := Step(h, s, "set_clock", params, random);
            && (set_clock.1 == Ok(map[]) <==> exists n :: NamesClock(params, n))
            && (!set_clock.1.Ok? ==> set_clock == (s, Err("MALFORMED_REQUEST")))
    ensures var set_features := Step(h, s, "set_features", params, random);
            && (set_features.1 == Ok(map[]) <==> exists features :: NamesFeatures(params, features))
            && (!set_features.1.Ok? ==> set_features == (s, Err("MALFORMED_REQUEST")))
  {
    hide RunOperation, SessionStep;
    ClockNamed(params);
    FeaturesNamed(params);
  }

  lemma ClockNamed(params: Claims)
    ensures HasKind(Default(params, "now_unix_secs", Get(params, "now")), Integer) <==> exists n :: NamesClock(params, n)
  {
    hide IsInt, IsInteger;
    var now := Default(params, "now_unix_secs", Get(params, "now"));
    forall n ensures NamesClock(params, n) <==> HasKind(now, Integer) && Fields.IntOf(now) == n {
      IntMeaning(now, n);
    }
    if HasKind(now, Integer) {
      assert NamesClock(params, Fields.IntOf(now));
    }
  }

  lemma FeaturesNamed(params: Claims)
    ensures var features := Default(params, "features", Arr([]));
            features.Arr? && AllStrings(features.items) <==> exists names :: NamesFeatures(params, names)
  {
    hide IsTexts;
    var v := Default(params, "features", Arr([]));
    forall names ensures v.Arr? && AllStrings(v.items) && Strings(v.items) == names <==> IsTexts(v, names) {
      TextsMeaning(v, names);
    }
    if "features" !in params {
      assert NamesFeatures(params, {});
    } else if v.Arr? && AllStrings(v.items) {
      assert IsTexts(v, Strings(v.items));
      assert NamesFeatures(params, set f <- Strings(v.items) :: f);
    }
  }

  // ----- the token and the nonce of a session operation -----

  /** The claims are those of the token's second segment; a text that is no token has none. */
  lemma UnverifiedMeaning(params: Claims, p: ParsedJws, header: string, payload: string, signature: string)
    ensures Get(params, "tct_token").Str? && Segments(Get(params, "tct_token").s, p, header, payload, signature)
            ==> UnverifiedClaims(params) == p.claims
    ensures !Get(params, "tct_token").Str? ==> UnverifiedClaims(params) == map[]
    ensures Get(params, "tct_token").Str? && UnverifiedClaims(params) != map[] ==>
              exists q, h, c, s :: Segments(Get(params, "tct_token").s, q, h, c, s) && q.claims == UnverifiedClaims(params)
  {
    hide Segments, ParseCompact;
    if Get(params, "tct_token").Str? {
      var token := Get(params, "tct_token").s;
      ParseCompactMeaning(token, "", p);
      var q := ParseCompact(token, "");
      if q.Ok? {
        ParseCompactMeaning(token, "", q.value);
      }
    }
  }

  /** The member is an object or absent. */
  ghost predicate NoneOrObject(c: Claims, name: string) {
    name !in c || c[name].Obj?
  }

  /** The nonce that the fixture's own challenge envelope fixes. */
  ghost predicate Fixed(params: Claims, nonce: string) {
    exists envelope: Claims, payload: Claims ::
      && Get(params, "envelope") == Obj(envelope) && Get(envelope, "payload") == Obj(payload)
      && Get(payload, "nonce") == Str(nonce)
  }

  /** The fixture's own nonce where it has one, else the random one; a non-object on the way raises. */
  lemma ChallengeNonceMeaning(params: Claims, random: string, nonce: string)
    ensures ChallengeNonce(params, random) == Ok(nonce) <==>
            && NoneOrObject(params, "envelope")
            && (forall e: Claims | Get(params, "envelope") == Obj(e) :: NoneOrObject(e, "payload"))
            && (Fixed(params, nonce) || (nonce == random && !exists other :: Fixed(params, other)))
    ensures !ChallengeNonce(params, random).Err?
  {
    var r := ChallengeNonce(params, random);
    if r.Ok? && "envelope" in params && "payload" in params["envelope"].members {
      var payload := params["envelope"].members["payload"].members;
      assert Get(params, "envelope") == Obj(params["envelope"].members);
      assert Get(params["envelope"].members, "payload") == Obj(payload);
      forall other: string ensures Fixed(params, other) <==> Get(payload, "nonce") == Str(other) {
      }
    }
  }

  // ----- what an operation receives -----

  /** The clock unless the params bring their own, the gate of the two gated operations, and else the params. */
  ghost predicate Receives(s: State, op: string, params: Claims, inp: Claims) {
    && (if "now" in params then Get(inp, "now") == params["now"] else IsInt(Get(inp, "now"), s.clock))
    && (op == "verify_delegation_token" ==> Gate(s, "experimental-multihop-delegation", inp))
    && (op == "verify_handshake_payload" ==> Gate(s, "experimental-spiffe-identity", inp))
    && (op != "verify_delegation_token" && op != "verify_handshake_payload" ==>
          (("_feature" in inp <==> "_feature" in params) && Get(inp, "_feature") == Get(params, "_feature")))
    && (forall name: string | name != "now" && name != "_feature" ::
          (name in inp <==> name in params) && Get(inp, name) == Get(params, name))
  }

  /** `_feature` names the feature exactly when it is enabled, whatever the params said. */
  ghost predicate Gate(s: State, feature: string, inp: Claims) {
    "_feature" in inp && inp["_feature"] == if feature in s.features then Str(feature) else Null
  }

  /** There is one such input, and the operation is run on it. */
  lemma RunOperationMeaning(h: Host, s: State, op: string, params: Claims)
    ensures var r := RunOperation(h, s, op, params);
            if op !in h.operations then r == Err("OP_NOT_SUPPORTED")
            else if h.badArguments(op, params) then r == Err("MALFORMED_REQUEST")
            else
              exists inp: Claims ::
                && Receives(s, op, params, inp)
                && r == if h.run(op, inp) == Crash("FixtureError") then Err("MALFORMED_FIXTURE") else h.run(op, inp)
  {
    hide Receives, JsonInt;
    GatedReceives(s, op, params);
  }

  lemma GatedReceives(s: State, op: string, params: Claims)
    ensures var inp := map["now" := JsonInt(s.clock)] + params;
            var gated :=
              match FeatureOf(op)
              case None => inp
              case Some(f) => inp["_feature" := if f in s.features then Str(f) else Null];
            Receives(s, op, params, gated)
  {
    ClockIsInt(s.clock);
    hide IsInt, JsonInt;
  }

  lemma ClockIsInt(n: int)
    ensures IsInt(JsonInt(n), n)
  {
    JsonIntValue(n);
    IntMeaning(JsonInt(n), n);
    hide IsInt, JsonInt, IsInteger, Truncate;
  }

  /** Two inputs that an operation could receive hold the same members, numbers compared by value. */
  lemma ReceivesOne(s: State, op: string, params: Claims, a: Claims, b: Claims)
    requires Receives(s, op, params, a) && Receives(s, op, params, b) && "now" in a && "now" in b
    ensures a == b
  {
    if "now" !in params {
      SameInt(Get(a, "now"), Get(b, "now"), s.clock);
    }
    hide IsInt;
    forall name: string ensures (name in a <==> name in b) && Get(a, name) == Get(b, name) {
    }
    forall name: string | name in a ensures a[name] == b[name] {
      assert Get(a, name) == Get(b, name);
    }
  }

  lemma SameInt(v: Json, w: Json, n: int)
    requires IsInt(v, n) && IsInt(w, n)
    ensures v == w
  {
    Number.ValueInjective(v.n, w.n);
  }

  // ----- the clock and the features -----

  /** `now_unix_secs` where given, else `now`. */
  ghost predicate NamesClock(params: Claims, n: int) {
    if "now_unix_secs" in params then IsInt(params["now_unix_secs"], n) else IsInt(Get(params, "now"), n)
  }

  /** The features listed, none when there is no list. */
  ghost predicate NamesFeatures(params: Claims, features: set<string>) {
    if "features" !in params then features == {}
    else exists names :: IsTexts(params["features"], names) && forall f: string :: f in features <==> f in names
  }

  lemma SettingsStep(h: Host, s: State, op: string, params: Claims, random: string)
    ensures var (after, r) := Step(h, s, op, params, random);
            && (if op == "set_clock" && r.Ok? then NamesClock(params, after.clock) else after.clock == s.clock)
            && (if op == "set_features" && r.Ok? then NamesFeatures(params, after.features)
                else after.features == s.features)
  {
    hide RunOperation, SessionStep, IsInt, IsTexts;
    if IsSessionOp(op) {
      SessionKeepsSettings(h, s, op, params, random);
    } else if op == "set_clock" {
      var now := Default(params, "now_unix_secs", Get(params, "now"));
      if HasKind(now, Integer) {
        IntMeaning(now, Fields.IntOf(now));
      }
    } else if op == "set_features" {
      FeaturesStep(h, s, params, random);
    }
  }

  lemma SessionKeepsSettings(h: Host, s: State, op: string, params: Claims, random: string)
    requires IsSessionOp(op)
    ensures var (after, _) := SessionStep(h, s, op, params, random);
            after.clock == s.clock && after.features == s.features
  {
    hide PresenterFromPop, UnverifiedClaims, ChallengeNonce;
  }

  lemma FeaturesStep(h: Host, s: State, params: Claims, random: string)
    ensures var (after, r) := Step(h, s, "set_features", params, random);
            && after.clock == s.clock
            && (if r.Ok? then NamesFeatures(params, after.features) else after.features == s.features)
  {
    hide RunOperation, SessionStep, IsTexts;
    var features := Default(params, "features", Arr([]));
    if features.Arr? && AllStrings(features.items) {
      TextsMeaning(features, Strings(features.items));
    }
  }

  /** The line was a successful call of this operation. */
  ghost predicate Did(h: Host, s: State, lines: seq<Line>, k: nat, op: string)
    requires k < |lines|
  {
    Calls(lines[k], op) && Succeeded(h, s, lines, k)
  }

  /** The line is the last successful call of this operation among the first `n`. */
  ghost predicate LastDid(h: Host, s: State, lines: seq<Line>, n: nat, k: nat, op: string)
    requires k < n <= |lines|
  {
    Did(h, s, lines, k, op) && forall j | k < j < n :: !Did(h, s, lines, j, op)
  }

  /** The clock is the one set last, and the first one before any was set; no fixture resets it. */
  lemma {:induction false} ClockOrigin(h: Host, s: State, lines: seq<Line>, n: nat)
    requires n <= |lines|
    ensures forall k: nat | k < n && LastDid(h, s, lines, n, k, "set_clock") ::
              NamesClock(CallAt(lines[k]).value.1, StateAt(h, s, lines, n).clock)
    ensures (forall k: nat | k < n :: !Did(h, s, lines, k, "set_clock")) ==> StateAt(h, s, lines, n).clock == s.clock
  {
    hide StateAt, Did, NamesClock;
    if n == 0 {
      FirstState(h, s, lines);
    } else {
      ClockOrigin(h, s, lines, n - 1);
      LineSettings(h, s, lines, n - 1);
      forall k: nat | k < n - 1 && LastDid(h, s, lines, n, k, "set_clock")
        ensures LastDid(h, s, lines, n - 1, k, "set_clock") && !Did(h, s, lines, n - 1, "set_clock")
      {
      }
    }
  }

  /** The enabled features are those set last, likewise. */
  lemma {:induction false} FeaturesOrigin(h: Host, s: State, lines: seq<Line>, n: nat)
    requires n <= |lines|
    ensures forall k: nat | k < n && LastDid(h, s, lines, n, k, "set_features") ::
              NamesFeatures(CallAt(lines[k]).value.1, StateAt(h, s, lines, n).features)
    ensures (forall k: nat | k < n :: !Did(h, s, lines, k, "set_features"))
            ==> StateAt(h, s, lines, n).features == s.features
  {
    hide StateAt, Did, NamesFeatures;
    if n == 0 {
      FirstState(h, s, lines);
    } else {
      FeaturesOrigin(h, s, lines, n - 1);
      LineSettings(h, s, lines, n - 1);
      forall k: nat | k < n - 1 && LastDid(h, s, lines, n, k, "set_features")
        ensures LastDid(h, s, lines, n - 1, k, "set_features") && !Did(h, s, lines, n - 1, "set_features")
      {
      }
    }
  }

  lemma FirstState(h: Host, s: State, lines: seq<Line>)
    ensures StateAt(h, s, lines, 0) == s
  {
  }

  lemma LineSettings(h: Host, s: State, lines: seq<Line>, n: nat)
    requires n < |lines|
    ensures var before, after := StateAt(h, s, lines, n), StateAt(h, s, lines, n + 1);
            && (if Did(h, s, lines, n, "set_clock") then NamesClock(CallAt(lines[n]).value.1, after.clock)
                else after.clock == before.clock)
            && (if Did(h, s, lines, n, "set_features") then NamesFeatures(CallAt(lines[n]).value.1, after.features)
                else after.features == before.features)
  {
    hide StateAt, Step, CallAt, Succeeded, NamesClock, NamesFeatures;
    LineEffect(h, s, lines, n);
    if CallAt(lines[n]).Some? {
      var (op, params) := CallAt(lines[n]).value;
      SettingsStep(h, StateAt(h, s, lines, n), op, params, lines[n].nonce);
    }
  }
}
