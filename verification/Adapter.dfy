/** The conformance adapter: a line server with one fixture's state between its steps. */
module Adapter {
  import opened Wrappers
  import opened Bytes
  import opened KeyMath
  import opened Jcs
  import opened JsonReader
  import opened Jws
  import opened Fields
  import opened Pop

  const REFERENCE_CLOCK := 1711900000
  const POP_CHALLENGE_TTL_SECS := 300
  const ADAPTER_PROTOCOL := "1"

  /** One line of input. `nonce` is the random nonce it would draw if it needs one. */
  datatype Line = Line(text: bytes, nonce: string)

  datatype Response = Success(id: string, result: Claims) | Failure(id: string, code: string)

  /**
   * What the adapter calls and this model does not describe: the key files, the verify operations
   * with their argument tables, and the rule for when proof of possession is required.
   */
  datatype Host = Host(
    suite: Suite,
    keysLoad: bool,
    about: Claims,
    operations: set<string>,
    badArguments: (string, Claims) -> bool,
    run: (string, Claims) -> Outcome<Claims>,
    popRequired: (Claims, Claims) -> Outcome<bool>)

  datatype State = State(clock: int, features: set<string>, seen: set<string>, challenges: seq<Challenge>,
                         presenter: Option<string>, issued: bool)

  function NewFixture(s: State): State {
    s.(seen := {}, challenges := [], presenter := None, issued := false)
  }

  function Default(params: Claims, name: string, value: Json): Json {
    if name in params then params[name] else value
  }

  /** `unverified_claims`: the claims of a compact JWS, or none. */
  function UnverifiedClaims(params: Claims): Claims {
    var token := Get(params, "tct_token");
    if !token.Str? then map[]
    else
      match ParseCompact(token.s, "")
      case Ok(p) => p.claims
      case _ => map[]
  }

  // ----- the session operations, as functions of the state -----

  /** The nonce of the fixture's own challenge envelope; a non-object on the way is an `AttributeError`. */
  function ChallengeNonce(params: Claims, random: string): Outcome<string> {
    var envelope := Default(params, "envelope", Obj(map[]));
    if !envelope.Obj? then Crash("AttributeError")
    else
      var payload := Default(envelope.members, "payload", Obj(map[]));
      if !payload.Obj? then Crash("AttributeError")
      else
        var nonce := Get(payload.members, "nonce");
        Ok(if nonce.Str? then nonce.s else random)
  }

  function Effects(name: string, value: bool): Claims {
    map["side_effects" := Obj(map[name := Bool(value)])]
  }

  /** The effect of one session operation. */
  function SessionStep(h: Host, s: State, op: string, params: Claims, random: string): (State, Outcome<Claims>)
    requires IsSessionOp(op)
  {
    var claims := UnverifiedClaims(params);
    if op == "issue_pop_challenge" then
      match ChallengeNonce(params, random)
      case Ok(nonce) =>
        var c := Challenge(Get(claims, "jti"), Str(nonce), Some(s.clock + POP_CHALLENGE_TTL_SECS));
        (s.(challenges := s.challenges + [c], issued := true), Ok(map["pop_nonce" := Str(nonce)]))
      case failed => (s, failed.PropagateFailure())
    else if op == "produce_pop_response" then
      match PresenterFromPop(h.suite, Get(params, "envelope"), Ok(s.challenges), claims, s.clock)
      case Ok(presenter) => (s.(presenter := Some(presenter)), Ok(map[]))
      case Err(code) => (s.(presenter := None), Err(code))
      case Crash(kind) => (s, Crash(kind))
    else if op == "verify_pop_response" then
      (s, match s.presenter
          case None => Err(BAD_RESPONSE)
          case Some(p) => Ok(map["presenter_aid" := Str(p)]))
    else if op == "authorize_capability_invocation" then
      match h.popRequired(params, claims)
      case Ok(required) =>
        if required then (s.(issued := true), Ok(Effects("pop_challenge_issued", true)))
        else (s, Ok(Effects("capability_authorized", true)))
      case failed => (s, failed.PropagateFailure())
    else if op == "expect_pop_challenge_issued" then
      (s, Ok(Effects("pop_challenge_issued", s.issued)))
    else
      (s, if s.issued then Err(BAD_RESPONSE) else Ok(Effects("capability_authorized", true)))
  }

  predicate IsSessionOp(op: string) {
    op in {"issue_pop_challenge", "produce_pop_response", "verify_pop_response", "authorize_capability_invocation",
           "expect_pop_challenge_issued", "withhold_pop_response"}
  }

  // ----- dispatch -----

  /** A step that names only a message id exercises the replay check. */
  predicate IsReplayCheck(op: string, params: Claims) {
    op in {"verify_envelope", "process_handshake_message"} && "envelope" !in params && Get(params, "message_id").Str?
  }

  function FeatureOf(op: string): Option<string> {
    if op == "verify_delegation_token" then Some("experimental-multihop-delegation")
    else if op == "verify_handshake_payload" then Some("experimental-spiffe-identity")
    else None
  }

  /** A verify operation with the clock and the feature that gates it; the state does not change. */
  function RunOperation(h: Host, s: State, op: string, params: Claims): Outcome<Claims> {
    if op !in h.operations then Err("OP_NOT_SUPPORTED")
    else if h.badArguments(op, params) then Err("MALFORMED_REQUEST")
    else
      var inp := map["now" := JsonInt(s.clock)] + params;
      var gated :=
        match FeatureOf(op)
        case None => inp
        case Some(f) => inp["_feature" := if f in s.features then Str(f) else Null];
      match h.run(op, gated)
      case Crash("FixtureError") => Err("MALFORMED_FIXTURE")
      case r => r
  }

  /** `_dispatch`; `Crash` is an exception that leaves it. */
  function Step(h: Host, s: State, op: string, params: Claims, random: string): (State, Outcome<Claims>) {
    if op == "init" then
      (s, if Get(params, "version") != Str(ADAPTER_PROTOCOL) then Err("MALFORMED_REQUEST")
          else if !h.keysLoad then Err("ADAPTER_INTERNAL_ERROR")
          else Ok(h.about))
    else if op == "shutdown" then (s, Ok(map[]))
    else if op == "set_clock" then
      var now := Default(params, "now_unix_secs", Get(params, "now"));
      if HasKind(now, Integer) then (s.(clock := Fields.IntOf(now)), Ok(map[])) else (s, Err("MALFORMED_REQUEST"))
    else if op == "set_features" then
      var features := Default(params, "features", Arr([]));
      if features.Arr? && AllStrings(features.items) then
        (s.(features := set f <- Strings(features.items) :: f), Ok(map[]))
      else (s, Err("MALFORMED_REQUEST"))
    else if op == "begin_fixture" then (NewFixture(s), Ok(map[]))
    else if IsReplayCheck(op, params) then
      var mid := Get(params, "message_id").s;
      if mid in s.seen then (s, Err("REPLAY_DETECTED")) else (s.(seen := s.seen + {mid}), Ok(map[]))
    else if IsSessionOp(op) then SessionStep(h, s, op, params, random)
    else (s, RunOperation(h, s, op, params))
  }

  function ToResponse(id: string, r: Outcome<Claims>): Response {
    match r
    case Ok(result) => Success(id, result)
    case Err(code) => Failure(id, code)
    case Crash(_) => Failure(id, "ADAPTER_INTERNAL_ERROR")
  }

  /** The op and params of a request that `handle` dispatches. */
  function Call(request: Claims): Option<(string, Claims)> {
    var op, params := Get(request, "op"), Default(request, "params", Obj(map[]));
    if op.Str? && params.Obj? then Some((op.s, params.members)) else None
  }

  function IdOf(request: Claims): string {
    var id := Get(request, "id");
    if id.Str? then id.s else "unknown"
  }

  /** `handle`. */
  function Handle(h: Host, s: State, request: Claims, random: string): (State, Response) {
    match Call(request)
    case None => (s, Failure(IdOf(request), "MALFORMED_REQUEST"))
    case Some((op, params)) =>
      var (after, r) := Step(h, s, op, params, random);
      (after, ToResponse(IdOf(request), r))
  }

  // ----- lines -----

  predicate IsBlankByte(b: byte) { b in {9, 10, 11, 12, 13, 32} }

  /** `not line.strip()`. */
  predicate IsBlank(text: bytes) { forall b <- text :: IsBlankByte(b) }

  /** `line.rstrip(b"\r\n")`. */
  function StripEnd(text: bytes): bytes {
    if text != [] && text[|text| - 1] in {10, 13} then StripEnd(text[..|text| - 1]) else text
  }

  /** `parse_request`; `None` is `MalformedRequest`. */
  function ParseRequest(text: bytes): Option<Claims> {
    var v :- LoadsBytes(StripEnd(text));
    if v.Obj? then Some(v.members) else None
  }

  /** One line of `serve`: at most one response. */
  function ServeLine(h: Host, s: State, line: Line): (State, Option<Response>) {
    if IsBlank(line.text) then (s, None)
    else
      match ParseRequest(line.text)
      case None => (s, Some(Failure("unknown", "MALFORMED_REQUEST")))
      case Some(request) =>
        var (after, r) := Handle(h, s, request, line.nonce);
        (after, Some(r))
  }

  /** The line ends the server, whether its params are well formed or not. */
  predicate IsShutdown(line: Line) {
    !IsBlank(line.text) && ParseRequest(line.text).Some? && Get(ParseRequest(line.text).value, "op") == Str("shutdown")
  }

  /** The state before line `n`. */
  function StateAt(h: Host, s: State, lines: seq<Line>, n: nat): State
    requires n <= |lines|
  {
    if n == 0 then s else ServeLine(h, StateAt(h, s, lines, n - 1), lines[n - 1]).0
  }

  function ResponseAt(h: Host, s: State, lines: seq<Line>, n: nat): Option<Response>
    requires n < |lines|
  {
    ServeLine(h, StateAt(h, s, lines, n), lines[n]).1
  }

  /** The responses to the first `n` lines. */
  function Responses(h: Host, s: State, lines: seq<Line>, n: nat): seq<Response>
    requires n <= |lines|
  {
    if n == 0 then []
    else
      var r := ResponseAt(h, s, lines, n - 1);
      Responses(h, s, lines, n - 1) + (if r.Some? then [r.value] else [])
  }

  /** The lines `serve` reads: all, or those up to the first shutdown. */
  function Consumed(lines: seq<Line>): (n: nat)
    ensures n <= |lines|
    ensures forall i | 0 <= i < n - 1 :: !IsShutdown(lines[i])
    ensures n < |lines| ==> n > 0 && IsShutdown(lines[n - 1])
  {
    if lines == [] then 0
    else if IsShutdown(lines[0]) then 1
    else
      var n := Consumed(lines[1..]);
      assert forall i | 0 < i < n :: lines[i] == lines[1..][i - 1];
      n + 1
  }

  // ----- the class -----

  class Session {
    var clock: int
    var features: set<string>
    var seenMessageIds: set<string>
    var challenges: seq<Challenge>
    var popPresenter: Option<string>
    var popChallengeIssued: bool

    function View(): State
      reads this
    {
      State(clock, features, seenMessageIds, challenges, popPresenter, popChallengeIssued)
    }

    constructor ()
      ensures View() == State(1711900000, {}, {}, [], None, false)
    {
      clock, features := REFERENCE_CLOCK, {};
      seenMessageIds, challenges, popPresenter, popChallengeIssued := {}, [], None, false;
    }

    /** `_begin_fixture`. */
    method BeginFixture()
      modifies this
      ensures View() == NewFixture(old(View()))
    {
      seenMessageIds, challenges, popPresenter, popChallengeIssued := {}, [], None, false;
    }

    /** `_issue_pop_challenge`. */
    method IssuePopChallenge(h: Host, params: Claims, random: string) returns (r: Outcome<Claims>)
      modifies this
      ensures (View(), r) == SessionStep(h, old(View()), "issue_pop_challenge", params, random)
    {
      var nonce :- ChallengeNonce(params, random);
      var jti := Get(UnverifiedClaims(params), "jti");
      challenges := challenges + [Challenge(jti, Str(nonce), Some(clock + POP_CHALLENGE_TTL_SECS))];
      popChallengeIssued := true;
      return Ok(map["pop_nonce" := Str(nonce)]);
    }

    /** `_produce_pop_response`: only a protocol error clears the presenter. */
    method ProducePopResponse(h: Host, params: Claims, ghost random: string) returns (r: Outcome<Claims>)
      modifies this
      ensures (View(), r) == SessionStep(h, old(View()), "produce_pop_response", params, random)
    {
      hide PresenterFromPop, UnverifiedClaims;
      var p := PresenterFromPop(h.suite, Get(params, "envelope"), Ok(challenges), UnverifiedClaims(params), clock);
      match p {
        case Ok(presenter) =>
          popPresenter := Some(presenter);
          r := Ok(map[]);
        case Err(code) =>
          popPresenter := None;
          r := Err(code);
        case Crash(kind) =>
          r := Crash(kind);
      }
    }

    /** `_authorize_capability_invocation`. */
    method AuthorizeCapabilityInvocation(h: Host, params: Claims, ghost random: string) returns (r: Outcome<Claims>)
      modifies this
      ensures (View(), r) == SessionStep(h, old(View()), "authorize_capability_invocation", params, random)
    {
      hide UnverifiedClaims;
      var required :- h.popRequired(params, UnverifiedClaims(params));
      if required {
        popChallengeIssued := true;
        return Ok(Effects("pop_challenge_issued", true));
      }
      return Ok(Effects("capability_authorized", true));
    }

    /** The session operations by name. */
    method SessionOperation(h: Host, op: string, params: Claims, random: string) returns (r: Outcome<Claims>)
      requires IsSessionOp(op)
      modifies this
      ensures (View(), r) == SessionStep(h, old(View()), op, params, random)
    {
      hide PresenterFromPop, UnverifiedClaims, ChallengeNonce;
      if op == "issue_pop_challenge" {
        r := IssuePopChallenge(h, params, random);
      } else if op == "produce_pop_response" {
        r := ProducePopResponse(h, params, random);
      } else if op == "verify_pop_response" {
        r := if popPresenter.None? then Err(BAD_RESPONSE) else Ok(map["presenter_aid" := Str(popPresenter.value)]);
      } else if op == "authorize_capability_invocation" {
        r := AuthorizeCapabilityInvocation(h, params, random);
      } else if op == "expect_pop_challenge_issued" {
        r := Ok(Effects("pop_challenge_issued", popChallengeIssued));
      } else {
        r := if popChallengeIssued then Err(BAD_RESPONSE) else Ok(Effects("capability_authorized", true));
      }
    }

    /** `_dispatch`. */
    method Dispatch(h: Host, op: string, params: Claims, random: string) returns (r: Outcome<Claims>)
      modifies this
      ensures (View(), r) == Step(h, old(View()), op, params, random)
    {
      hide SessionStep, RunOperation;
      if op == "init" {
        if Get(params, "version") != Str(ADAPTER_PROTOCOL) {
          return Err("MALFORMED_REQUEST");
        }
        return if h.keysLoad then Ok(h.about) else Err("ADAPTER_INTERNAL_ERROR");
      }
      if op == "shutdown" {
        return Ok(map[]);
      }
      if op == "set_clock" {
        var now := Default(params, "now_unix_secs", Get(params, "now"));
        if !HasKind(now, Integer) {
          return Err("MALFORMED_REQUEST");
        }
        clock := Fields.IntOf(now);
        return Ok(map[]);
      }
      if op == "set_features" {
        var names := Default(params, "features", Arr([]));
        if !names.Arr? || !AllStrings(names.items) {
          return Err("MALFORMED_REQUEST");
        }
        features := set f <- Strings(names.items) :: f;
        return Ok(map[]);
      }
      if op == "begin_fixture" {
        BeginFixture();
        return Ok(map[]);
      }
      if IsReplayCheck(op, params) {
        var mid := Get(params, "message_id").s;
        if mid in seenMessageIds {
          return Err("REPLAY_DETECTED");
        }
        seenMessageIds := seenMessageIds + {mid};
        return Ok(map[]);
      }
      if IsSessionOp(op) {
        r := SessionOperation(h, op, params, random);
      } else {
        r := RunOperation(h, View(), op, params);
      }
    }

    /** `serve`: the responses written until shutdown or the end of the input. */
    method Serve(h: Host, lines: seq<Line>) returns (out: seq<Response>)
      modifies this
      ensures out == Responses(h, old(View()), lines, Consumed(lines))
      ensures View() == StateAt(h, old(View()), lines, Consumed(lines))
    {
      hide Step, IsBlank, ParseRequest, Call;
      out := [];
      ghost var start := View();
      var n := 0;
      while n < |lines|
        invariant n <= |lines| && View() == StateAt(h, start, lines, n)
        invariant out == Responses(h, start, lines, n)
        invariant forall i | 0 <= i < n :: !IsShutdown(lines[i])
      {
        var line := lines[n];
        n := n + 1;
        if IsBlank(line.text) {
          continue;
        }
        var parsed := ParseRequest(line.text);
        if parsed.None? {
          out := out + [Failure("unknown", "MALFORMED_REQUEST")];
          continue;
        }
        var response := Respond(h, parsed.value, line.nonce);
        out := out + [response];
        if Get(parsed.value, "op") == Str("shutdown") {
          break;
        }
      }
      ConsumedIs(lines, n);
    }

    /** `handle`. */
    method Respond(h: Host, request: Claims, random: string) returns (r: Response)
      modifies this
      ensures (View(), r) == Handle(h, old(View()), request, random)
    {
      hide Step;
      var call := Call(request);
      if call.None? {
        return Failure(IdOf(request), "MALFORMED_REQUEST");
      }
      var (op, params) := call.value;
      var done := Dispatch(h, op, params, random);
      return ToResponse(IdOf(request), done);
    }
  }

  lemma ConsumedIs(lines: seq<Line>, n: nat)
    requires n <= |lines|
    requires forall i | 0 <= i < n - 1 :: !IsShutdown(lines[i])
    requires n == |lines| || (n > 0 && IsShutdown(lines[n - 1]))
    ensures Consumed(lines) == n
  {
    hide IsShutdown;
  }
}
