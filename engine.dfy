/** The stateful component of app/page.tsx (`EVNetworkSimulation`, lines
    75-515): its `useState` cells as the fields of a class, and the handlers
    that update them as methods. Each method is proved to take the engine
    state to the value the functions of module Handshakes give, so the
    lemmas of modules RunFacts and NetworkRun speak about these methods. */
module Engine {
  import opened Wrappers
  import opened Types
  import opened Registry
  import opened MetricsRules
  import opened Handshakes
  import opened Hashing
  import Numerals
  import Controls
  import NetworkRun

  /** The cells a handler may leave alone: the configuration, the metrics
      history, the saved results and the running flag. */
  datatype Session = Session(config: Config, history: seq<Snapshot>, results: seq<SimulationResult>, simulating: bool)

  class Simulation {
    var numEVs: int
    var numChargingStations: int
    var simulationSpeed: int
    var nodes: seq<Node>
    var messages: seq<Message>
    var metrics: Metrics
    var metricsHistory: seq<Snapshot>
    var simulationResults: seq<SimulationResult>
    var isSimulating: bool
    var currentStep: int

    /** The history holds at most 50 snapshots, and the step delay is one the
        slider offers. */
    ghost predicate Valid()
      reads this
    {
      |metricsHistory| <= HistoryCapacity && Controls.OnSlider(simulationSpeed)
    }

    /** The part of the state the protocol run changes. */
    function Core(): EngineState
      reads this
    {
      EngineState(nodes, messages, metrics, currentStep)
    }

    function SessionOf(): Session
      reads this
    {
      Session(Config(numEVs, numChargingStations, simulationSpeed), metricsHistory, simulationResults, isSimulating)
    }

    /** The initial `useState` values (lines 76-101), then the mount effect
        (lines 157-159), which builds the network for the default counts at
        once: the first state a user sees. */
    constructor (key: nat -> string)
      ensures Valid() && Controls.ControlsEnabled(isSimulating)
      ensures numEVs == 3 && numChargingStations == 2 && simulationSpeed == 1000
      ensures Core() == EngineState(Network(3, 2, key), [], ZeroMetrics, 0)
      ensures metricsHistory == [] && simulationResults == [] && !isSimulating
    {
      numEVs := 3;
      numChargingStations := 2;
      simulationSpeed := 1000;
      nodes := [];
      messages := [];
      metrics := ZeroMetrics;
      metricsHistory := [];
      simulationResults := [];
      isSimulating := false;
      currentStep := 0;
      new;
      InitializeNetwork(key);
    }

    /** `initializeNetwork` (lines 104-155): `USP-1`, then `EV-1..EV-n`, then
        `CS-1..CS-m`; the `i`-th call of `generateKey` returns `key(i)`. The
        log and the step counter are cleared; the metrics are not. */
    method InitializeNetwork(key: nat -> string)
      modifies this
      ensures nodes == Network(numEVs, numChargingStations, key)
      ensures messages == [] && currentStep == 0 && metrics == old(metrics)
      ensures SessionOf() == old(SessionOf())
    {
      var newNodes := BuildNetwork(numEVs, numChargingStations, key);
      nodes := newNodes;
      messages := [];
      currentStep := 0;
    }

    /** `addMessage` (lines 188-215). */
    method AddMessage(from: string, to: string, msgType: string, content: Content, phase: Phase, step: int, stamp: Stamp)
      modifies this
      ensures Core() == Send(old(Core()), from, to, msgType, content, phase, step, stamp)
      ensures SessionOf() == old(SessionOf())
    {
      var message := Message(stamp.id, from, to, msgType, content, stamp.time, true, step, phase);
      messages := messages + [message];
      metrics := metrics.(totalMessages := metrics.totalMessages + 1,
                          networkUtilization := Min(100, (metrics.totalMessages + 1) * 2));
    }

    /** The entry `updateMetricsHistory` builds (lines 218-232): the success
        rate as a percentage, 0 before any attempt, and the delay in seconds. */
    method HistoryEntry(now: int) returns (entry: Snapshot)
      ensures entry == SnapshotOf(metrics, now)
    {
      var successRate := if metrics.successfulAuthentications + metrics.failedAuthentications > 0
        then (metrics.successfulAuthentications as real /
              (metrics.successfulAuthentications + metrics.failedAuthentications) as real) * 100.0
        else 0.0;
      entry := Snapshot(now, metrics.throughput, metrics.endToEndDelay as real / 1000.0,
                        metrics.networkUtilization, successRate);
    }

    /** `updateMetricsHistory` (lines 217-238) with the clock reading `now`. */
    method UpdateMetricsHistory(now: int)
      requires Valid()
      modifies this
      ensures Valid()
      ensures metricsHistory == AppendBounded(old(metricsHistory), SnapshotOf(metrics, now))
      ensures Core() == old(Core()) && simulationResults == old(simulationResults)
      ensures isSimulating == old(isSimulating)
      ensures Config(numEVs, numChargingStations, simulationSpeed) == old(SessionOf()).config
    {
      var newEntry := HistoryEntry(now);
      var updated := metricsHistory + [newEntry];
      if |updated| > HistoryCapacity {
        updated := updated[|updated| - HistoryCapacity..];
      }
      metricsHistory := updated;
    }

    /** The effect at lines 240-245: a snapshot is taken only while a run is on. */
    method MetricsChanged(now: int)
      requires Valid()
      modifies this
      ensures Valid()
      ensures metricsHistory == if old(isSimulating) then AppendBounded(old(metricsHistory), SnapshotOf(metrics, now))
                                else old(metricsHistory)
      ensures Core() == old(Core()) && simulationResults == old(simulationResults)
      ensures isSimulating == old(isSimulating)
      ensures Config(numEVs, numChargingStations, simulationSpeed) == old(SessionOf()).config
    {
      if isSimulating {
        UpdateMetricsHistory(now);
      }
    }

    /** `updateNodeStatus` (lines 247-249). */
    method UpdateNodeStatus(id: string, status: Status, patch: Patch)
      modifies this
      ensures Core() == SetStatus(old(Core()), id, status, patch)
      ensures SessionOf() == old(SessionOf())
    {
      nodes := Registry.UpdateNodeStatus(nodes, id, status, patch);
    }

    /** `simulateEVRegistration(ev)` (lines 251-301); `view` is the node list
        the handler's closure sees. */
    method SimulateEvRegistration(view: seq<Node>, ev: Node, d: EvRegistrationDraws)
      modifies this
      ensures Core() == RegisterEv(old(Core()), view, ev, d, old(simulationSpeed))
      ensures SessionOf() == old(SessionOf())
    {
      var found := FindUsp(view);
      if found.None? {
        return;
      }
      var usp := found.value;
      var challenge := d.challenge;
      var puffResponse := GeneratePuff(challenge, None);
      var psidev := GenerateHash([ev.id, puffResponse]);
      UpdateNodeStatus(ev.id, Registering, Patch(Some(challenge), Some(puffResponse), Some(psidev), None));
      AddMessage(ev.id, usp.id, "M1_EV_Registration",
                 EvRegistrationRequest(Some(psidev), challenge, puffResponse, ev.publicKey), Registration, 1, d.m1);
      var aj := GenerateHash([ev.id, challenge, usp.id, OrEmpty(usp.publicKey)]);
      AddMessage(usp.id, ev.id, "M2_USP_Response", UspResponse(aj, usp.id, usp.publicKey, d.nonce), Registration, 2, d.m2);
      UpdateNodeStatus(ev.id, Idle, NoPatch);
      metrics := metrics.(successfulAuthentications := metrics.successfulAuthentications + 1,
                          endToEndDelay := metrics.endToEndDelay + simulationSpeed * 2);
    }

    /** `simulateChargingStationRegistration(cs)` (lines 303-338). */
    method SimulateCsRegistration(view: seq<Node>, cs: Node, d: CsRegistrationDraws)
      modifies this
      ensures Core() == RegisterCs(old(Core()), view, cs, d)
      ensures SessionOf() == old(SessionOf())
    {
      var found := FindUsp(view);
      if found.None? {
        return;
      }
      var usp := found.value;
      UpdateNodeStatus(cs.id, Registering, NoPatch);
      var challenge := d.challenge;
      var puffResponse := GeneratePuff(challenge, None);
      AddMessage(cs.id, usp.id, "M1_CS_Registration",
                 CsRegistrationRequest(cs.id, challenge, puffResponse, cs.publicKey), Registration, 1, d.m1);
      var aj := GenerateHash([cs.id, challenge, puffResponse, usp.id, OrEmpty(usp.publicKey), OrEmpty(cs.publicKey)]);
      AddMessage(usp.id, cs.id, "M2_USP_CS_Response", UspCsResponse(aj, usp.id, d.now), Registration, 2, d.m2);
      UpdateNodeStatus(cs.id, Idle, NoPatch);
    }

    /** The `setMetrics` at the end of `simulateAuthentication` (lines 411-418). */
    method RecordAuthentication()
      requires simulationSpeed > 0
      modifies this
      ensures metrics == AfterAuthentication(old(metrics), old(simulationSpeed))
      ensures nodes == old(nodes) && messages == old(messages) && currentStep == old(currentStep)
      ensures SessionOf() == old(SessionOf())
    {
      metrics := metrics.(successfulAuthentications := metrics.successfulAuthentications + 1,
                          throughput := metrics.throughput + 60000.0 / simulationSpeed as real,
                          endToEndDelay := metrics.endToEndDelay + simulationSpeed * 4,
                          averageProcessingTime := (metrics.averageProcessingTime + (simulationSpeed * 4) as real) / 2.0);
    }

    /** `simulateAuthentication(ev, cs)` (lines 340-419); the delays between
        the messages are left out. `kk` (line 360) is computed and never used. */
    method SimulateAuthentication(ev: Node, cs: Node, d: AuthenticationDraws)
      requires simulationSpeed > 0
      modifies this
      ensures Core() == Authenticate(old(Core()), ev, cs, d, old(simulationSpeed))
      ensures SessionOf() == old(SessionOf())
    {
      UpdateNodeStatus(ev.id, Authenticating, NoPatch);
      UpdateNodeStatus(cs.id, Authenticating, NoPatch);
      AddMessage(ev.id, cs.id, "M1_Auth_Request", AuthRequest(ev.psidev, d.n1, ev.publicKey), Authentication, 1, d.m1);
      AddMessage(cs.id, ev.id, "M2_Challenge_Response",
                 ChallengeResponse(cs.id, d.challenge, d.n2, d.seed), Authentication, 2, d.m2);
      var ki := GeneratePuff(d.seed, None);
      var puffResult := GeneratePuff(d.evChallenge, None);
      AddMessage(ev.id, cs.id, "M3_PUFF_Response", PuffResponse(ev.psidev, d.evChallenge, puffResult, ki), Authentication, 3, d.m3);
      var token := GenerateHash([OrEmpty(ev.psidev), Numerals.Dec(d.now), puffResult, cs.id]);
      var rsk := GeneratePuff(puffResult, None);
      var encryptionKey := GenerateHash([rsk, token]);
      AddMessage(cs.id, ev.id, "M4_Auth_Complete",
                 AuthComplete(cs.id, d.evChallenge, d.n2, puffResult, token, encryptionKey), Authentication, 4, d.m4);
      UpdateNodeStatus(ev.id, Authenticated, Patch(None, None, None, Some(token)));
      UpdateNodeStatus(cs.id, Authenticated, NoPatch);
      assert token == Token(ev.psidev, d.now, puffResult, cs.id);
      RecordAuthentication();
    }

    /** Phase 1 of `startSimulation` (lines 445-450): register each EV of `evs`. */
    method RegisterEvs(view: seq<Node>, evs: seq<Node>, evDraw: nat -> EvRegistrationDraws)
      modifies this
      ensures Core() == Rest(old(Core()), EvRound(view, evs, evDraw, old(simulationSpeed)), 0)
      ensures SessionOf() == old(SessionOf())
    {
      ghost var r := EvRound(view, evs, evDraw, simulationSpeed);
      ghost var s0 := Core();
      for i := 0 to |evs|
        invariant Rest(Core(), r, i) == Rest(s0, r, 0)
        invariant SessionOf() == old(SessionOf())
      {
        ghost var t := Core();
        SimulateEvRegistration(view, evs[i], evDraw(i));
        currentStep := currentStep + 1;
        assert Core() == Turn(r, t, i);
        RestStep(t, r, i);
      }
      RestDone(Core(), r);
    }

    /** Phase 2 (lines 452-457): register each station of `css`. */
    method RegisterStations(view: seq<Node>, css: seq<Node>, csDraw: nat -> CsRegistrationDraws)
      modifies this
      ensures Core() == Rest(old(Core()), CsRound(view, css, csDraw), 0)
      ensures SessionOf() == old(SessionOf())
    {
      ghost var r := CsRound(view, css, csDraw);
      ghost var s0 := Core();
      for i := 0 to |css|
        invariant Rest(Core(), r, i) == Rest(s0, r, 0)
        invariant SessionOf() == old(SessionOf())
      {
        ghost var t := Core();
        SimulateCsRegistration(view, css[i], csDraw(i));
        currentStep := currentStep + 1;
        assert Core() == Turn(r, t, i);
        RestStep(t, r, i);
      }
      RestDone(Core(), r);
    }

    /** Iteration `i` of phase 3: one authentication and the step bump. */
    method AuthenticationTurn(evs: seq<Node>, css: seq<Node>, authDraw: nat -> AuthenticationDraws, i: nat)
      requires simulationSpeed > 0 && i < Min(|evs|, |css|)
      modifies this
      ensures Core() == Turn(AuthRound(evs, css, authDraw, old(simulationSpeed)), old(Core()), i)
      ensures SessionOf() == old(SessionOf())
    {
      SimulateAuthentication(evs[i], css[i % |css|], authDraw(i));
      currentStep := currentStep + 1;
    }

    /** Phase 3 (lines 459-463): authenticate EV `i` with station `i % |css|`
        for every `i < min(|evs|, |css|)`. */
    method AuthenticatePairs(evs: seq<Node>, css: seq<Node>, authDraw: nat -> AuthenticationDraws)
      requires simulationSpeed > 0
      modifies this
      ensures Core() == Rest(old(Core()), AuthRound(evs, css, authDraw, old(simulationSpeed)), 0)
      ensures SessionOf() == old(SessionOf())
    {
      ghost var r := AuthRound(evs, css, authDraw, simulationSpeed);
      ghost var s0 := Core();
      for i := 0 to Min(|evs|, |css|)
        invariant Rest(Core(), r, i) == Rest(s0, r, 0)
        invariant SessionOf() == old(SessionOf())
      {
        ghost var t := Core();
        AuthenticationTurn(evs, css, authDraw, i);
        RestStep(t, r, i);
      }
      RestDone(Core(), r);
    }

    /** Lines 422-463 of `startSimulation`: the reset, then the three loops.
        `view` is the node list of the render the click happened in: the
        loops iterate over it, and the handshakes look the USP up in it. */
    method PlayRun(evDraw: nat -> EvRegistrationDraws, csDraw: nat -> CsRegistrationDraws,
                   authDraw: nat -> AuthenticationDraws)
      requires simulationSpeed > 0
      modifies this
      ensures Core() == Run(old(Core()), evDraw, csDraw, authDraw, old(simulationSpeed))
      ensures SessionOf() == old(SessionOf())
    {
      var view := nodes;
      currentStep := 0;
      nodes := ResetStatuses(nodes);
      messages := [];
      metrics := ZeroMetrics;
      var evNodes := OfKind(view, Ev);
      RegisterEvs(view, evNodes, evDraw);
      var csNodes := OfKind(view, ChargingStation);
      RegisterStations(view, csNodes, csDraw);
      AuthenticatePairs(evNodes, csNodes, authDraw);
    }

    /** `startSimulation` (lines 421-488): the run, then the saved record. The
        record's figures come from the render the click happened in, so its
        `finalMetrics` and `metricsHistory` are those from before the run.
        Start is disabled while a run is on (components/simulation-controls.tsx,
        line 151), and the run ends with the controls enabled again. */
    method StartSimulation(evDraw: nat -> EvRegistrationDraws, csDraw: nat -> CsRegistrationDraws,
                           authDraw: nat -> AuthenticationDraws, idTime: nat, savedAt: int)
      requires Valid() && Controls.ControlsEnabled(isSimulating)
      modifies this
      ensures Valid()
      ensures Core() == Run(old(Core()), evDraw, csDraw, authDraw, old(simulationSpeed))
      ensures !isSimulating && Controls.ControlsEnabled(isSimulating) && metricsHistory == old(metricsHistory)
      ensures Config(numEVs, numChargingStations, simulationSpeed) == old(SessionOf()).config
      ensures simulationResults == old(simulationResults) +
        [SimulationResult("sim-" + Numerals.Dec(idTime), "Simulation " + Numerals.Dec(|old(simulationResults)| + 1),
                          savedAt, old(SessionOf()).config, old(metrics), old(metricsHistory))]
    {
      var finalMetrics, history, count := metrics, metricsHistory, |simulationResults|;
      isSimulating := true;
      PlayRun(evDraw, csDraw, authDraw);
      isSimulating := false;
      var result := SimulationResult("sim-" + Numerals.Dec(idTime), "Simulation " + Numerals.Dec(count + 1), savedAt,
                                     Config(numEVs, numChargingStations, simulationSpeed), finalMetrics, history);
      simulationResults := simulationResults + [result];
    }

    /** The same run, saving the metrics the run ended with and the history
        as it stands at the end: what the record is evidently meant to hold. */
    method StartSimulationReportingRun(evDraw: nat -> EvRegistrationDraws, csDraw: nat -> CsRegistrationDraws,
                                       authDraw: nat -> AuthenticationDraws, idTime: nat, savedAt: int)
      requires Valid() && Controls.ControlsEnabled(isSimulating)
      modifies this
      ensures Valid()
      ensures Core() == Run(old(Core()), evDraw, csDraw, authDraw, old(simulationSpeed))
      ensures !isSimulating && Controls.ControlsEnabled(isSimulating) && metricsHistory == old(metricsHistory)
      ensures Config(numEVs, numChargingStations, simulationSpeed) == old(SessionOf()).config
      ensures simulationResults == old(simulationResults) +
        [SimulationResult("sim-" + Numerals.Dec(idTime), "Simulation " + Numerals.Dec(|old(simulationResults)| + 1),
                          savedAt, old(SessionOf()).config, metrics, metricsHistory)]
    {
      var count := |simulationResults|;
      isSimulating := true;
      PlayRun(evDraw, csDraw, authDraw);
      isSimulating := false;
      var result := SimulationResult("sim-" + Numerals.Dec(idTime), "Simulation " + Numerals.Dec(count + 1), savedAt,
                                     Config(numEVs, numChargingStations, simulationSpeed), metrics, metricsHistory);
      simulationResults := simulationResults + [result];
    }

    /** `resetSimulation` (lines 490-507): a fresh network, zero metrics and
        an empty history; saved results are kept. Reset is disabled while a
        run is on (components/simulation-controls.tsx, line 161). */
    method ResetSimulation(key: nat -> string)
      requires Valid() && Controls.ControlsEnabled(isSimulating)
      modifies this
      ensures Valid()
      ensures Core() == EngineState(Network(numEVs, numChargingStations, key), [], ZeroMetrics, 0)
      ensures metricsHistory == [] && simulationResults == old(simulationResults)
      ensures isSimulating == old(isSimulating)
      ensures Config(numEVs, numChargingStations, simulationSpeed) == old(SessionOf()).config
    {
      InitializeNetwork(key);
      metrics := ZeroMetrics;
      metricsHistory := [];
    }

    /** `clearSimulationHistory` (lines 509-515). */
    method ClearSimulationHistory()
      requires Valid()
      modifies this
      ensures Valid()
      ensures simulationResults == [] && Core() == old(Core()) && metricsHistory == old(metricsHistory)
      ensures isSimulating == old(isSimulating)
      ensures Config(numEVs, numChargingStations, simulationSpeed) == old(SessionOf()).config
    {
      simulationResults := [];
    }

    /** The EV count field (components/simulation-controls.tsx, line 58):
        `parsed` is what `Number.parseInt` made of the text (`None` for NaN).
        The field is disabled while a run is on (line 59). `initializeNetwork`
        depends on the counts (line 155), so the effect at lines 157-159
        re-creates the network only when the count actually changes. */
    method SetNumEVs(parsed: Option<int>, key: nat -> string)
      requires Valid() && Controls.ControlsEnabled(isSimulating)
      modifies this
      ensures Valid()
      ensures numEVs == Controls.ParsedOrOne(parsed) && numChargingStations == old(numChargingStations)
      ensures numEVs == old(numEVs) ==> Core() == old(Core())
      ensures numEVs != old(numEVs) ==>
        nodes == Network(numEVs, numChargingStations, key) && messages == [] && currentStep == 0
      ensures metrics == old(metrics) && metricsHistory == old(metricsHistory)
      ensures simulationResults == old(simulationResults) && isSimulating == old(isSimulating)
      ensures simulationSpeed == old(simulationSpeed)
    {
      var n := Controls.ParsedOrOne(parsed);
      if n != numEVs {
        numEVs := n;
        InitializeNetwork(key);
      }
    }

    /** The station count field (lines 80-81), with the same effect. */
    method SetNumChargingStations(parsed: Option<int>, key: nat -> string)
      requires Valid() && Controls.ControlsEnabled(isSimulating)
      modifies this
      ensures Valid()
      ensures numChargingStations == Controls.ParsedOrOne(parsed) && numEVs == old(numEVs)
      ensures numChargingStations == old(numChargingStations) ==> Core() == old(Core())
      ensures numChargingStations != old(numChargingStations) ==>
        nodes == Network(numEVs, numChargingStations, key) && messages == [] && currentStep == 0
      ensures metrics == old(metrics) && metricsHistory == old(metricsHistory)
      ensures simulationResults == old(simulationResults) && isSimulating == old(isSimulating)
      ensures simulationSpeed == old(simulationSpeed)
    {
      var m := Controls.ParsedOrOne(parsed);
      if m != numChargingStations {
        numChargingStations := m;
        InitializeNetwork(key);
      }
    }

    /** The speed slider (components/simulation-controls.tsx, lines 100-103)
        hands over one of its positions; it is disabled while a run is on. */
    method SetSimulationSpeed(v: int)
      requires Valid() && Controls.ControlsEnabled(isSimulating) && Controls.OnSlider(v)
      modifies this
      ensures Valid()
      ensures simulationSpeed == v && numEVs == old(numEVs) && numChargingStations == old(numChargingStations)
      ensures Core() == old(Core()) && metricsHistory == old(metricsHistory)
      ensures simulationResults == old(simulationResults) && isSimulating == old(isSimulating)
    {
      simulationSpeed := v;
    }
  }

  /** `initializeNetwork`'s list (lines 105-152): the USP, then the EVs, then
      the stations. */
  method BuildNetwork(numEVs: int, numChargingStations: int, key: nat -> string) returns (newNodes: seq<Node>)
    ensures newNodes == Network(numEVs, numChargingStations, key)
  {
    newNodes := [UspNode(key)];
    newNodes := PushEvs(newNodes, numEVs, key);
    newNodes := PushStations(newNodes, numChargingStations, Clamp0(numEVs), key);
  }

  /** The EV loop (lines 118-133): EV `i + 1` for every `i < numEVs`. */
  method PushEvs(prefix: seq<Node>, numEVs: int, key: nat -> string) returns (newNodes: seq<Node>)
    ensures newNodes == prefix + EvNodes(Clamp0(numEVs), key)
  {
    newNodes := prefix;
    var i := 0;
    while i < numEVs
      invariant 0 <= i <= Clamp0(numEVs)
      invariant newNodes == prefix + EvNodes(i, key)
    {
      EvNodesSnoc(i, key);
      newNodes := newNodes + [EvNode(i, key)];
      i := i + 1;
    }
  }

  /** The station loop (lines 136-151), after `evs` EVs have drawn their keys. */
  method PushStations(prefix: seq<Node>, numChargingStations: int, evs: nat, key: nat -> string)
    returns (newNodes: seq<Node>)
    ensures newNodes == prefix + CsNodes(Clamp0(numChargingStations), evs, key)
  {
    newNodes := prefix;
    var j := 0;
    while j < numChargingStations
      invariant 0 <= j <= Clamp0(numChargingStations)
      invariant newNodes == prefix + CsNodes(j, evs, key)
    {
      CsNodesSnoc(j, evs, key);
      newNodes := newNodes + [CsNode(j, evs, key)];
      j := j + 1;
    }
  }

  /** What `StartSimulation` saves is not what the run did: on a fresh
      network with at least one EV, starting from the zero metrics a reset
      leaves, the run ends with `N + min(N, M)` successful authentications,
      while the record keeps the metrics from before the run. */
  lemma SavedMetricsMissTheRun(s: EngineState, numEVs: int, numChargingStations: int, key: nat -> string,
                               evDraw: nat -> EvRegistrationDraws, csDraw: nat -> CsRegistrationDraws,
                               authDraw: nat -> AuthenticationDraws, speed: int)
    requires speed > 0 && numEVs >= 1 && s.nodes == Network(numEVs, numChargingStations, key)
    requires s.metrics == ZeroMetrics
    ensures var e := Run(s, evDraw, csDraw, authDraw, speed);
      && e.metrics.successfulAuthentications == numEVs + Min(numEVs, Clamp0(numChargingStations))
      && s.metrics.successfulAuthentications == 0
      && e.metrics != s.metrics
  {
    NetworkRun.RunOnNetworkCounts(s, numEVs, numChargingStations, key, evDraw, csDraw, authDraw, speed);
  }
}
