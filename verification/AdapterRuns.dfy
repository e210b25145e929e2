/** Safety over whole runs of the adapter, whatever lines it reads. */
module AdapterRuns {
  import opened Wrappers
  import opened Aids
  import opened Jcs
  import opened Jws
  import opened Envelopes
  import opened Pop
  import opened Adapter

  // ----- one response per line -----

  /** The non-blank lines among the first `n`, in order. */
  function Spoken(lines: seq<Line>, n: nat): (at: seq<nat>)
    requires n <= |lines|
    ensures forall i: nat :: i in at <==> i < n && !IsBlank(lines[i].text)
    ensures forall a, b | 0 <= a < b < |at| :: at[a] < at[b]
  {
    if n == 0 then []
    else
      var before := Spoken(lines, n - 1);
      if IsBlank(lines[n - 1].text) then before
      else
        assert forall a | 0 <= a < |before| :: before[a] in before;
        before + [n - 1]
  }

  /** The responses are one for each non-blank line, in order. */
  lemma {:induction false} OneResponsePerLine(h: Host, s: State, lines: seq<Line>, n: nat)
    requires n <= |lines|
    ensures |Responses(h, s, lines, n)| == |Spoken(lines, n)|
    ensures forall a | 0 <= a < |Spoken(lines, n)| ::
              Spoken(lines, n)[a] < n
              && ResponseAt(h, s, lines, Spoken(lines, n)[a]) == Some(Responses(h, s, lines, n)[a])
  {
    hide ServeLine, IsBlank, StateAt;
    if n > 0 {
      Speaks(h, StateAt(h, s, lines, n - 1), lines[n - 1]);
      OneResponsePerLine(h, s, lines, n - 1);
    }
  }

  lemma Speaks(h: Host, s: State, line: Line)
    ensures ServeLine(h, s, line).1.Some? <==> !IsBlank(line.text)
  {
    hide ParseRequest, Handle;
  }

  // ----- what a line does -----

  /** The call that a line makes, if it makes one. */
  function CallAt(line: Line): Option<(string, Claims)> {
    if IsBlank(line.text) then None
    else
      var request :- ParseRequest(line.text);
      Call(request)
  }

  ghost predicate Succeeded(h: Host, s: State, lines: seq<Line>, i: nat)
    requires i < |lines|
  {
    var r := ResponseAt(h, s, lines, i);
    r.Some? && r.value.Success?
  }

  lemma LineEffect(h: Host, s: State, lines: seq<Line>, i: nat)
    requires i < |lines|
    ensures var before, after := StateAt(h, s, lines, i), StateAt(h, s, lines, i + 1);
            match CallAt(lines[i])
            case None => after == before && !Succeeded(h, s, lines, i)
            case Some((op, params)) =>
              var step := Step(h, before, op, params, lines[i].nonce);
              && after == step.0
              && (Succeeded(h, s, lines, i) <==> step.1.Ok?)
              && (step.1.Ok? ==> ResponseAt(h, s, lines, i).value.result == step.1.value)
  {
    hide Step, IsBlank, ParseRequest, Call, StateAt;
    StateStep(h, s, lines, i);
  }

  lemma StateStep(h: Host, s: State, lines: seq<Line>, i: nat)
    requires i < |lines|
    ensures StateAt(h, s, lines, i + 1) == ServeLine(h, StateAt(h, s, lines, i), lines[i]).0
  {
    hide ServeLine;
  }

  ghost predicate Calls(line: Line, op: string) {
    CallAt(line).Some? && CallAt(line).value.0 == op
  }

  ghost predicate Begins(line: Line) {
    Calls(line, "begin_fixture")
  }

  /** No fixture begins strictly between two lines. */
  ghost predicate SameFixture(lines: seq<Line>, i: nat, j: nat)
    requires j <= |lines|
  {
    forall k | i < k < j :: !Begins(lines[k])
  }

  // ----- replay -----

  /** The line passed the replay check with this message id. */
  ghost predicate FirstUse(h: Host, s: State, lines: seq<Line>, i: nat, mid: string)
    requires i < |lines|
  {
    && (Calls(lines[i], "verify_envelope") || Calls(lines[i], "process_handshake_message"))
    && "envelope" !in CallAt(lines[i]).value.1
    && Get(CallAt(lines[i]).value.1, "message_id") == Str(mid) && Succeeded(h, s, lines, i)
  }

  lemma SessionStepSeen(h: Host, s: State, op: string, params: Claims, random: string)
    requires IsSessionOp(op)
    ensures SessionStep(h, s, op, params, random).0.seen == s.seen && !IsReplayCheck(op, params)
  {
    hide PresenterFromPop, UnverifiedClaims, ChallengeNonce;
  }

  lemma StepSeen(h: Host, s: State, op: string, params: Claims, random: string)
    ensures op != "begin_fixture" ==> s.seen <= Step(h, s, op, params, random).0.seen
    ensures IsReplayCheck(op, params) ==>
              var mid := Get(params, "message_id").s;
              var step := Step(h, s, op, params, random);
              (step.1.Ok? <==> mid !in s.seen) && mid in step.0.seen
  {
    hide SessionStep, RunOperation, IsSessionOp;
    if IsSessionOp(op) {
      SessionStepSeen(h, s, op, params, random);
      SessionDispatch(h, s, op, params, random);
    }
  }

  lemma {:induction false} SeenKept(h: Host, s: State, lines: seq<Line>, i: nat, j: nat, mid: string)
    requires i < j <= |lines| && SameFixture(lines, i, j)
    requires mid in StateAt(h, s, lines, i + 1).seen
    ensures mid in StateAt(h, s, lines, j).seen
    decreases j
  {
    hide StateAt, Step, CallAt;
    if i + 1 < j {
      SeenKept(h, s, lines, i, j - 1, mid);
      LineEffect(h, s, lines, j - 1);
      assert !Begins(lines[j - 1]);
      if CallAt(lines[j - 1]).Some? {
        var (op, params) := CallAt(lines[j - 1]).value;
        StepSeen(h, StateAt(h, s, lines, j - 1), op, params, lines[j - 1].nonce);
      }
    }
  }

  /** Within one fixture a message id passes the replay check at most once. */
  lemma ReplayOnce(h: Host, s: State, lines: seq<Line>, i: nat, j: nat, mid: string)
    requires i < j < |lines| && FirstUse(h, s, lines, i, mid) && FirstUse(h, s, lines, j, mid)
    ensures exists k :: i < k < j && Begins(lines[k])
  {
    hide StateAt, Step, Succeeded, CallAt, Begins;
    LineEffect(h, s, lines, i);
    LineEffect(h, s, lines, j);
    var first, second := CallAt(lines[i]).value, CallAt(lines[j]).value;
    StepSeen(h, StateAt(h, s, lines, i), first.0, first.1, lines[i].nonce);
    StepSeen(h, StateAt(h, s, lines, j), second.0, second.1, lines[j].nonce);
    if SameFixture(lines, i, j) {
      SeenKept(h, s, lines, i, j, mid);
    }
  }

  // ----- proof of possession -----

  /** The line issued this challenge, for the jti of its token, with 300 seconds to live. */
  ghost predicate IssuedAt(h: Host, s: State, lines: seq<Line>, k: nat, c: Challenge)
    requires k < |lines|
  {
    && Calls(lines[k], "issue_pop_challenge") && Succeeded(h, s, lines, k)
    && c.jti == Get(UnverifiedClaims(CallAt(lines[k]).value.1), "jti")
    && ResponseAt(h, s, lines, k).value.result == map["pop_nonce" := c.nonce]
    && c.expiresAt == Some(StateAt(h, s, lines, k).clock + 300)
  }

  /** The line produced a valid response, which established the presenter. */
  ghost predicate ProducedAt(h: Host, s: State, lines: seq<Line>, i: nat, presenter: string)
    requires i < |lines|
  {
    && Calls(lines[i], "produce_pop_response") && Succeeded(h, s, lines, i)
    && var params := CallAt(lines[i]).value.1;
       var before := StateAt(h, s, lines, i);
       PresenterFromPop(h.suite, Get(params, "envelope"), Ok(before.challenges), UnverifiedClaims(params), before.clock)
       == Ok(presenter)
  }

  /** `after` has the same challenges as `s`, or one more that this call issued and reported. */
  ghost predicate ChallengesGrow(s: State, params: Claims, after: State, r: Outcome<Claims>, op: string) {
    || after.challenges == s.challenges
    || (&& op == "issue_pop_challenge" && r.Ok?
        && exists nonce: Json ::
             && r.value == map["pop_nonce" := nonce]
             && after.challenges == s.challenges
                + [Challenge(Get(UnverifiedClaims(params), "jti"), nonce, Some(s.clock + POP_CHALLENGE_TTL_SECS))])
  }

  /** `after` has no presenter, the same as `s`, or one that this call proved. */
  ghost predicate PresenterProved(h: Host, s: State, params: Claims, after: State, r: Outcome<Claims>, op: string) {
    || after.presenter.None? || after.presenter == s.presenter
    || (&& op == "produce_pop_response" && r.Ok?
        && PresenterFromPop(h.suite, Get(params, "envelope"), Ok(s.challenges), UnverifiedClaims(params), s.clock)
           == Ok(after.presenter.value))
  }

  lemma SessionStepPop(h: Host, s: State, op: string, params: Claims, random: string)
    requires IsSessionOp(op)
    ensures var (after, r) := SessionStep(h, s, op, params, random);
            ChallengesGrow(s, params, after, r, op) && PresenterProved(h, s, params, after, r, op)
  {
    hide PresenterFromPop, UnverifiedClaims, ChallengeNonce;
  }

  lemma ControlPop(h: Host, s: State, op: string, params: Claims, random: string)
    requires !IsSessionOp(op)
    ensures var after := Step(h, s, op, params, random).0;
            if op == "begin_fixture" then after.challenges == [] && after.presenter == None
            else after.challenges == s.challenges && after.presenter == s.presenter
  {
    hide SessionStep, RunOperation;
  }

  lemma SessionDispatch(h: Host, s: State, op: string, params: Claims, random: string)
    requires IsSessionOp(op)
    ensures op != "begin_fixture" && Step(h, s, op, params, random) == SessionStep(h, s, op, params, random)
  {
    hide SessionStep, RunOperation;
  }

  /** Challenges and the presenter change only in the two session operations, and at a new fixture. */
  lemma StepPop(h: Host, s: State, op: string, params: Claims, random: string)
    ensures var (after, r) := Step(h, s, op, params, random);
            if op == "begin_fixture" then after.challenges == [] && after.presenter == None
            else ChallengesGrow(s, params, after, r, op) && PresenterProved(h, s, params, after, r, op)
  {
    if IsSessionOp(op) {
      hide Step, SessionStep, ChallengesGrow, PresenterProved, IsSessionOp;
      SessionDispatch(h, s, op, params, random);
      SessionStepPop(h, s, op, params, random);
    } else {
      hide Step, SessionStep, PresenterFromPop, UnverifiedClaims, IsSessionOp;
      ControlPop(h, s, op, params, random);
    }
  }

  /** Where a challenge held after a line comes from. */
  lemma ChallengeStep(h: Host, s: State, lines: seq<Line>, n: nat, c: Challenge)
    requires n < |lines| && c in StateAt(h, s, lines, n + 1).challenges
    ensures (c in StateAt(h, s, lines, n).challenges && !Begins(lines[n])) || IssuedAt(h, s, lines, n, c)
  {
    hide Step, Succeeded, CallAt, UnverifiedClaims, ResponseAt, StateAt;
    LineEffect(h, s, lines, n);
    if CallAt(lines[n]).Some? {
      var (op, params) := CallAt(lines[n]).value;
      StepPop(h, StateAt(h, s, lines, n), op, params, lines[n].nonce);
    }
  }

  lemma {:induction false} ChallengeOrigin(h: Host, s: State, lines: seq<Line>, n: nat, c: Challenge)
    requires n <= |lines| && s.challenges == [] && c in StateAt(h, s, lines, n).challenges
    ensures exists k: nat :: k < n && IssuedAt(h, s, lines, k, c) && SameFixture(lines, k, n)
  {
    hide ServeLine, IssuedAt, Begins;
    if n > 0 {
      ChallengeStep(h, s, lines, n - 1, c);
      hide StateAt;
      if IssuedAt(h, s, lines, n - 1, c) {
        assert SameFixture(lines, n - 1, n);
      } else {
        ChallengeOrigin(h, s, lines, n - 1, c);
        var k: nat :| k < n - 1 && IssuedAt(h, s, lines, k, c) && SameFixture(lines, k, n - 1);
        assert SameFixture(lines, k, n);
      }
    }
  }

  /** Where the presenter held after a line comes from. */
  lemma PresenterStep(h: Host, s: State, lines: seq<Line>, n: nat, presenter: string)
    requires n < |lines| && StateAt(h, s, lines, n + 1).presenter == Some(presenter)
    ensures (StateAt(h, s, lines, n).presenter == Some(presenter) && !Begins(lines[n]))
            || ProducedAt(h, s, lines, n, presenter)
  {
    hide Step, Succeeded, CallAt, UnverifiedClaims, PresenterFromPop, StateAt;
    LineEffect(h, s, lines, n);
    if CallAt(lines[n]).Some? {
      var (op, params) := CallAt(lines[n]).value;
      StepPop(h, StateAt(h, s, lines, n), op, params, lines[n].nonce);
    }
  }

  lemma {:induction false} PresenterOrigin(h: Host, s: State, lines: seq<Line>, n: nat, presenter: string)
    requires n <= |lines| && s.presenter == None && StateAt(h, s, lines, n).presenter == Some(presenter)
    ensures exists i: nat :: i < n && ProducedAt(h, s, lines, i, presenter) && SameFixture(lines, i, n)
  {
    hide ServeLine, ProducedAt, Begins;
    if n > 0 {
      PresenterStep(h, s, lines, n - 1, presenter);
      hide StateAt;
      if ProducedAt(h, s, lines, n - 1, presenter) {
        assert SameFixture(lines, n - 1, n);
      } else {
        PresenterOrigin(h, s, lines, n - 1, presenter);
        var i: nat :| i < n - 1 && ProducedAt(h, s, lines, i, presenter) && SameFixture(lines, i, n - 1);
        assert SameFixture(lines, i, n);
      }
    }
  }

  /** The envelope of line `i` is a signed response to this challenge, by jti and nonce, under the presenter's key. */
  ghost predicate RespondsTo(h: Host, envelope: Json, c: Challenge, presenter: string, now: int) {
    exists env: Claims, sender: Aid, r: Pop.Response ::
      && ResponseSays(h.suite, envelope, env, sender, r) && EnvelopeTyped(env)
      && VerifySender(h.suite, env, sender, "POP_RESPONSE_INVALID").Ok?
      && c.nonce == Str(r.nonceEcho) && Proves(h.suite, c, r.jti, presenter, r.signature, now)
  }

  /** The response at line `i` answers the challenge of line `k` less than 300 seconds after it. */
  ghost predicate Answers(h: Host, s: State, lines: seq<Line>, k: nat, i: nat, c: Challenge, presenter: string)
    requires k < |lines| && i < |lines|
  {
    && IssuedAt(h, s, lines, k, c)
    && StateAt(h, s, lines, i).clock < StateAt(h, s, lines, k).clock + 300
    && CallAt(lines[i]).Some?
    && RespondsTo(h, Get(CallAt(lines[i]).value.1, "envelope"), c, presenter, StateAt(h, s, lines, i).clock)
  }

  lemma ResponseAnswers(h: Host, envelope: Json, challenges: seq<Challenge>, jti: string, presenter: string, now: int)
    requires ValidResponse(h.suite, envelope, Ok(challenges), jti, presenter, now)
    ensures exists c <- challenges ::
              RespondsTo(h, envelope, c, presenter, now) && c.expiresAt.Some? && now < c.expiresAt.value
  {
    hide ResponseSays, EnvelopeTyped, VerifySender, SignsNonce;
    var env: Claims, sender: Aid, r: Pop.Response :|
      && ResponseSays(h.suite, envelope, env, sender, r) && EnvelopeTyped(env)
      && VerifySender(h.suite, env, sender, BAD_RESPONSE).Ok?
      && r.jti == jti
      && var c := FirstMatch(challenges, jti, r.nonceEcho);
         c.Some? && Proves(h.suite, c.value, jti, presenter, r.signature, now);
    var c := FirstMatch(challenges, jti, r.nonceEcho).value;
    assert c in challenges && RespondsTo(h, envelope, c, presenter, now);
  }

  lemma ProducedAnswers(h: Host, s: State, lines: seq<Line>, i: nat, presenter: string)
    requires i < |lines| && s.challenges == [] && ProducedAt(h, s, lines, i, presenter)
    ensures exists k: nat, c: Challenge ::
              k < i && SameFixture(lines, k, i) && Answers(h, s, lines, k, i, c, presenter)
  {
    hide Succeeded, StateAt, UnverifiedClaims, PresenterFromPop, ValidResponse, RespondsTo;
    var params := CallAt(lines[i]).value.1;
    var before := StateAt(h, s, lines, i);
    var claims := UnverifiedClaims(params);
    PresenterMeaning(h.suite, Get(params, "envelope"), Ok(before.challenges), claims, before.clock, presenter);
    ResponseAnswers(h, Get(params, "envelope"), before.challenges, Get(claims, "jti").s, presenter, before.clock);
    var c :| c in before.challenges && RespondsTo(h, Get(params, "envelope"), c, presenter, before.clock)
             && c.expiresAt.Some? && before.clock < c.expiresAt.value;
    ChallengeOrigin(h, s, lines, i, c);
    var k: nat :| k < i && IssuedAt(h, s, lines, k, c) && SameFixture(lines, k, i);
    assert Answers(h, s, lines, k, i, c, presenter);
  }

  /** The line reported this presenter as verified. */
  ghost predicate VerifiedAt(h: Host, s: State, lines: seq<Line>, j: nat, presenter: string)
    requires j < |lines|
  {
    && Calls(lines[j], "verify_pop_response") && Succeeded(h, s, lines, j)
    && ResponseAt(h, s, lines, j).value.result == map["presenter_aid" := Str(presenter)]
  }

  /**
   * Whenever `verify_pop_response` succeeds, an earlier `produce_pop_response` of the same fixture
   * succeeded for that presenter, and it answered a challenge issued earlier still in that fixture,
   * less than 300 seconds before.
   */
  lemma PopSafety(h: Host, s: State, lines: seq<Line>, j: nat, presenter: string)
    requires s.challenges == [] && s.presenter == None
    requires j < |lines| && VerifiedAt(h, s, lines, j, presenter)
    ensures exists k: nat, i: nat, c: Challenge ::
              && k < i < j && SameFixture(lines, k, j)
              && ProducedAt(h, s, lines, i, presenter) && Answers(h, s, lines, k, i, c, presenter)
  {
    VerifiedPresenter(h, s, lines, j, presenter);
    hide VerifiedAt, StateAt, Answers, CallAt, Begins, Succeeded, ProducedAt, SameFixture;
    PresenterOrigin(h, s, lines, j, presenter);
    var i: nat :| i < j && ProducedAt(h, s, lines, i, presenter) && SameFixture(lines, i, j);
    ProducedAnswers(h, s, lines, i, presenter);
    var k: nat, c: Challenge :|
      k < i && SameFixture(lines, k, i) && Answers(h, s, lines, k, i, c, presenter);
    ProducedNotBegin(h, s, lines, i, presenter);
    JoinFixture(lines, k, i, j);
  }

  lemma JoinFixture(lines: seq<Line>, k: nat, i: nat, j: nat)
    requires k < i < j <= |lines| && SameFixture(lines, k, i) && !Begins(lines[i]) && SameFixture(lines, i, j)
    ensures SameFixture(lines, k, j)
  {
    hide Begins;
  }

  lemma ProducedNotBegin(h: Host, s: State, lines: seq<Line>, i: nat, presenter: string)
    requires i < |lines| && ProducedAt(h, s, lines, i, presenter)
    ensures !Begins(lines[i])
  {
    hide CallAt, Succeeded, StateAt, PresenterFromPop;
  }

  lemma VerifiedPresenter(h: Host, s: State, lines: seq<Line>, j: nat, presenter: string)
    requires j < |lines| && VerifiedAt(h, s, lines, j, presenter)
    ensures StateAt(h, s, lines, j).presenter == Some(presenter)
  {
    hide Step, StateAt, ResponseAt, CallAt;
    LineEffect(h, s, lines, j);
    VerifyStep(h, StateAt(h, s, lines, j), CallAt(lines[j]).value.1, lines[j].nonce, presenter);
  }

  lemma VerifyStep(h: Host, s: State, params: Claims, random: string, presenter: string)
    requires Step(h, s, "verify_pop_response", params, random).1 == Ok(map["presenter_aid" := Str(presenter)])
    ensures s.presenter == Some(presenter)
  {
    hide PresenterFromPop, UnverifiedClaims, ChallengeNonce, RunOperation;
    var p := s.presenter.value;
    assert map["presenter_aid" := Str(p)]["presenter_aid"] == Str(presenter);
  }

  // ----- withheld responses -----

  /** The line put a challenge before the presenter: it issued one, or demanded one for an invocation. */
  ghost predicate Challenged(h: Host, s: State, lines: seq<Line>, k: nat)
    requires k < |lines|
  {
    && Succeeded(h, s, lines, k)
    && (|| Calls(lines[k], "issue_pop_challenge")
        || (Calls(lines[k], "authorize_capability_invocation")
            && ResponseAt(h, s, lines, k).value.result == Effects("pop_challenge_issued", true)))
  }

  predicate Challenges(op: string, r: Outcome<Claims>) {
    && r.Ok?
    && (op == "issue_pop_challenge"
        || (op == "authorize_capability_invocation" && r.value == Effects("pop_challenge_issued", true)))
  }

  lemma EffectsApart()
    ensures Effects("pop_challenge_issued", true) != Effects("capability_authorized", true)
  {
    var a, b := map["pop_challenge_issued" := Bool(true)], map["capability_authorized" := Bool(true)];
    assert "pop_challenge_issued" in a && "pop_challenge_issued" !in b;
    assert Effects("pop_challenge_issued", true)["side_effects"] == Obj(a);
    assert Effects("capability_authorized", true)["side_effects"] == Obj(b);
  }

  lemma SessionStepIssued(h: Host, s: State, op: string, params: Claims, random: string)
    requires IsSessionOp(op)
    ensures var (after, r) := SessionStep(h, s, op, params, random);
            after.issued <==> s.issued || Challenges(op, r)
  {
    EffectsApart();
    hide PresenterFromPop, UnverifiedClaims, ChallengeNonce, Effects;
  }

  lemma ControlIssued(h: Host, s: State, op: string, params: Claims, random: string)
    requires !IsSessionOp(op)
    ensures var (after, r) := Step(h, s, op, params, random);
            !Challenges(op, r) && after.issued == (s.issued && op != "begin_fixture")
  {
    hide SessionStep, RunOperation;
  }

  lemma IssuedStep(h: Host, s: State, lines: seq<Line>, n: nat)
    requires n < |lines|
    ensures StateAt(h, s, lines, n + 1).issued
            <==> (StateAt(h, s, lines, n).issued && !Begins(lines[n])) || Challenged(h, s, lines, n)
  {
    hide Step, Succeeded, CallAt, ResponseAt, StateAt, SessionStep, IsSessionOp, Effects;
    LineEffect(h, s, lines, n);
    if CallAt(lines[n]).Some? {
      var (op, params) := CallAt(lines[n]).value;
      var before, random := StateAt(h, s, lines, n), lines[n].nonce;
      if IsSessionOp(op) {
        SessionDispatch(h, before, op, params, random);
        SessionStepIssued(h, before, op, params, random);
      } else {
        ControlIssued(h, before, op, params, random);
      }
    }
  }

  /** The flag records exactly whether the current fixture has challenged the presenter. */
  lemma {:induction false} IssuedFlag(h: Host, s: State, lines: seq<Line>, n: nat)
    requires n <= |lines| && !s.issued
    ensures StateAt(h, s, lines, n).issued
            <==> exists k: nat :: k < n && Challenged(h, s, lines, k) && SameFixture(lines, k, n)
  {
    hide ServeLine, Challenged, Begins;
    if n > 0 {
      IssuedStep(h, s, lines, n - 1);
      IssuedFlag(h, s, lines, n - 1);
      hide StateAt;
      if k: nat :| k < n - 1 && Challenged(h, s, lines, k) && SameFixture(lines, k, n - 1) {
        assert !Begins(lines[n - 1]) ==> SameFixture(lines, k, n);
      }
      if Challenged(h, s, lines, n - 1) {
        assert SameFixture(lines, n - 1, n);
      }
      if k: nat :| k < n - 1 && Challenged(h, s, lines, k) && SameFixture(lines, k, n) {
        assert SameFixture(lines, k, n - 1) && !Begins(lines[n - 1]);
      }
    }
  }

  /** A withheld response is answered by authorizing exactly when nothing in the fixture challenged the presenter. */
  lemma WithheldNeverAuthorizes(h: Host, s: State, lines: seq<Line>, j: nat)
    requires !s.issued && j < |lines| && Calls(lines[j], "withhold_pop_response")
    ensures Succeeded(h, s, lines, j)
            <==> !exists k: nat :: k < j && Challenged(h, s, lines, k) && SameFixture(lines, k, j)
  {
    hide Step, StateAt, ResponseAt, CallAt, Challenged, SessionStep;
    LineEffect(h, s, lines, j);
    IssuedFlag(h, s, lines, j);
    var params := CallAt(lines[j]).value.1;
    SessionDispatch(h, StateAt(h, s, lines, j), "withhold_pop_response", params, lines[j].nonce);
    WithholdStep(h, StateAt(h, s, lines, j), params, lines[j].nonce);
  }

  lemma WithholdStep(h: Host, s: State, params: Claims, random: string)
    ensures SessionStep(h, s, "withhold_pop_response", params, random).1.Ok? <==> !s.issued
  {
  }
}
