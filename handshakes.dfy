/** The protocol run of app/page.tsx as functions of the engine state: what
    each handshake (`simulateEVRegistration`, lines 251-301;
    `simulateChargingStationRegistration`, lines 303-338;
    `simulateAuthentication`, lines 340-419) and what `startSimulation`
    (lines 421-463) do to the nodes, the message log, the metrics and the
    step counter. The class in module Engine is proved to follow these
    functions exactly. */
module Handshakes {
  import opened Wrappers
  import opened Types
  import opened Registry
  import opened MetricsRules
  import Hashing
  import Numerals

  /** The part of the engine's state a run changes. */
  datatype EngineState = EngineState(nodes: seq<Node>, messages: seq<Message>, metrics: Metrics, currentStep: int)

  /** `addMessage`: one more encrypted message and the counters it bumps. */
  function Send(s: EngineState, from: string, to: string, msgType: string, content: Content,
                phase: Phase, step: int, stamp: Stamp): EngineState
  {
    s.(messages := s.messages + [Message(stamp.id, from, to, msgType, content, stamp.time, true, step, phase)],
       metrics := Counted(s.metrics))
  }

  /** `updateNodeStatus` applied to the engine state. */
  function SetStatus(s: EngineState, id: string, status: Status, patch: Patch): EngineState
  {
    s.(nodes := UpdateNodeStatus(s.nodes, id, status, patch))
  }

  /** `setCurrentStep(prev => prev + 1)` after each handshake. */
  function Bump(s: EngineState): EngineState
  {
    s.(currentStep := s.currentStep + 1)
  }

  /** `simulateEVRegistration(ev)`; `view` is the node list of the render the
      run started in, where the USP is looked up. Without a USP nothing happens. */
  function RegisterEv(s: EngineState, view: seq<Node>, ev: Node, d: EvRegistrationDraws, speed: int): EngineState
  {
    match FindUsp(view)
    case None => s
    case Some(usp) =>
      var puffResponse := Hashing.Puff(d.challenge, None);
      var psidev := Hashing.Hash([ev.id, puffResponse]);
      var s1 := SetStatus(s, ev.id, Registering, Patch(Some(d.challenge), Some(puffResponse), Some(psidev), None));
      var s2 := Send(s1, ev.id, usp.id, "M1_EV_Registration",
                     EvRegistrationRequest(Some(psidev), d.challenge, puffResponse, ev.publicKey), Registration, 1, d.m1);
      var aj := Hashing.Hash([ev.id, d.challenge, usp.id, Hashing.OrEmpty(usp.publicKey)]);
      var s3 := Send(s2, usp.id, ev.id, "M2_USP_Response",
                     UspResponse(aj, usp.id, usp.publicKey, d.nonce), Registration, 2, d.m2);
      var s4 := SetStatus(s3, ev.id, Idle, NoPatch);
      s4.(metrics := AfterEvRegistration(s4.metrics, speed))
  }

  /** `simulateChargingStationRegistration(cs)`: the same two-message exchange,
      with no success counted. */
  function RegisterCs(s: EngineState, view: seq<Node>, cs: Node, d: CsRegistrationDraws): EngineState
  {
    match FindUsp(view)
    case None => s
    case Some(usp) =>
      var s1 := SetStatus(s, cs.id, Registering, NoPatch);
      var puffResponse := Hashing.Puff(d.challenge, None);
      var s2 := Send(s1, cs.id, usp.id, "M1_CS_Registration",
                     CsRegistrationRequest(cs.id, d.challenge, puffResponse, cs.publicKey), Registration, 1, d.m1);
      var aj := Hashing.Hash([cs.id, d.challenge, puffResponse, usp.id,
                              Hashing.OrEmpty(usp.publicKey), Hashing.OrEmpty(cs.publicKey)]);
      var s3 := Send(s2, usp.id, cs.id, "M2_USP_CS_Response", UspCsResponse(aj, usp.id, d.now), Registration, 2, d.m2);
      SetStatus(s3, cs.id, Idle, NoPatch)
  }

  /** The session token of step 4: `generateHash(psidev!, Date.now().toString(), puffResult, csId)`;
      `join` prints an undefined psidev as the empty string. */
  function Token(psidev: Option<string>, now: nat, puffResult: string, csId: string): string
  {
    Hashing.Hash([Hashing.OrEmpty(psidev), Numerals.Dec(now), puffResult, csId])
  }

  /** `simulateAuthentication(ev, cs)`: four messages, both ends authenticated. */
  function Authenticate(s: EngineState, ev: Node, cs: Node, d: AuthenticationDraws, speed: int): EngineState
    requires speed > 0
  {
    var s1 := SetStatus(SetStatus(s, ev.id, Authenticating, NoPatch), cs.id, Authenticating, NoPatch);
    var s2 := Send(s1, ev.id, cs.id, "M1_Auth_Request", AuthRequest(ev.psidev, d.n1, ev.publicKey), Authentication, 1, d.m1);
    var s3 := Send(s2, cs.id, ev.id, "M2_Challenge_Response",
                   ChallengeResponse(cs.id, d.challenge, d.n2, d.seed), Authentication, 2, d.m2);
    var ki := Hashing.Puff(d.seed, None);
    var puffResult := Hashing.Puff(d.evChallenge, None);
    var s4 := Send(s3, ev.id, cs.id, "M3_PUFF_Response",
                   PuffResponse(ev.psidev, d.evChallenge, puffResult, ki), Authentication, 3, d.m3);
    var token := Token(ev.psidev, d.now, puffResult, cs.id);
    var rsk := Hashing.Puff(puffResult, None);
    var key := Hashing.Hash([rsk, token]);
    var s5 := Send(s4, cs.id, ev.id, "M4_Auth_Complete",
                   AuthComplete(cs.id, d.evChallenge, d.n2, puffResult, token, key), Authentication, 4, d.m4);
    var s6 := SetStatus(SetStatus(s5, ev.id, Authenticated, Patch(None, None, None, Some(token))), cs.id, Authenticated, NoPatch);
    s6.(metrics := AfterAuthentication(s6.metrics, speed))
  }

  /** The number of pairings: `Math.min(evNodes.length, csNodes.length)`. */
  function Pairings(evs: seq<Node>, css: seq<Node>): (p: nat)
    ensures p <= |evs| && p <= |css| && (p == |evs| || p == |css|)
  {
    if |evs| < |css| then |evs| else |css|
  }

  /** One of the three loops of `startSimulation`, with everything its body reads. */
  datatype Round =
    | EvRound(view: seq<Node>, evs: seq<Node>, evDraw: nat -> EvRegistrationDraws, speed: int)
    | CsRound(view: seq<Node>, css: seq<Node>, csDraw: nat -> CsRegistrationDraws)
    | AuthRound(evs: seq<Node>, css: seq<Node>, authDraw: nat -> AuthenticationDraws, speed: int)

  /** The authentication loop divides by the step delay. */
  predicate Runnable(r: Round)
  {
    r.AuthRound? ==> r.speed > 0
  }

  /** How many iterations the loop makes. */
  function Length(r: Round): nat
  {
    match r
    case EvRound(_, evs, _, _) => |evs|
    case CsRound(_, css, _) => |css|
    case AuthRound(evs, css, _, _) => Pairings(evs, css)
  }

  /** Iteration `j` of a loop: one handshake, then the step bump. Past the end it does nothing. */
  function Turn(r: Round, t: EngineState, j: nat): EngineState
    requires Runnable(r)
  {
    match r
    case EvRound(view, evs, draw, speed) =>
      if j < |evs| then Bump(RegisterEv(t, view, evs[j], draw(j), speed)) else t
    case CsRound(view, css, draw) =>
      if j < |css| then Bump(RegisterCs(t, view, css[j], draw(j))) else t
    case AuthRound(evs, css, draw, speed) =>
      if j < Pairings(evs, css) then Bump(Authenticate(t, evs[j], css[j % |css|], draw(j), speed)) else t
  }

  /** Iteration `j` of the loop `r`, as a function of the state and `j`. */
  function TurnOf(r: Round): (EngineState, nat) -> EngineState
    requires Runnable(r)
  {
    (t: EngineState, j: nat) => Turn(r, t, j)
  }

  /** Iterations `k .. n - 1` of a loop whose iteration `j` takes `t` to `turn(t, j)`. */
  function Iterate(s: EngineState, turn: (EngineState, nat) -> EngineState, k: nat, n: nat): EngineState
    decreases n - k
  {
    if k >= n then s else Iterate(turn(s, k), turn, k + 1, n)
  }

  /** The loop `r` from iteration `k` on. */
  function Rest(s: EngineState, r: Round, k: nat): EngineState
    requires Runnable(r)
  {
    Iterate(s, TurnOf(r), k, Length(r))
  }

  /** One more iteration of the loop: what a `for` loop's body does to its invariant. */
  lemma RestStep(s: EngineState, r: Round, j: nat)
    requires Runnable(r) && j < Length(r)
    ensures Rest(s, r, j) == Rest(Turn(r, s, j), r, j + 1)
  {
  }

  /** Past the last iteration nothing is left to do. */
  lemma RestDone(s: EngineState, r: Round)
    requires Runnable(r)
    ensures Rest(s, r, Length(r)) == s
  {
  }

  /** Lines 422-438: step counter, node statuses, log and metrics reset. */
  function RunStart(s: EngineState): EngineState
  {
    EngineState(ResetStatuses(s.nodes), [], ZeroMetrics, 0)
  }

  /** A whole run. The EV and station lists, and the nodes the handshakes read,
      come from the registry as it was when the run started (`s.nodes`). */
  function Run(s: EngineState, evDraw: nat -> EvRegistrationDraws, csDraw: nat -> CsRegistrationDraws,
               authDraw: nat -> AuthenticationDraws, speed: int): EngineState
    requires speed > 0
  {
    var view := s.nodes;
    var evs := OfKind(view, Ev);
    var css := OfKind(view, ChargingStation);
    var s1 := Rest(RunStart(s), EvRound(view, evs, evDraw, speed), 0);
    var s2 := Rest(s1, CsRound(view, css, csDraw), 0);
    Rest(s2, AuthRound(evs, css, authDraw, speed), 0)
  }
}
