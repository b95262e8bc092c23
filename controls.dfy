/** The decision rules of components/simulation-controls.tsx: the input
    fallback of the two count fields (lines 58, 80), the range of the speed
    slider (lines 100-103), the configuration summary (lines 126, 130, 135) and
    how those figures relate to what the engine builds and sends. */
module Controls {
  import opened Wrappers
  import opened Types
  import opened Registry
  import opened MetricsRules
  import opened Handshakes
  import opened RunFacts
  import opened NetworkRun

  /** `Number.parseInt(value) || 1`: the parse result, or 1 when it is NaN
      (`None`) or 0 — the two falsy numbers. */
  function ParsedOrOne(parsed: Option<int>): (r: int)
    ensures r != 0
    ensures (parsed.None? || parsed == Some(0)) <==> r == 1 && parsed != Some(1)
    ensures parsed.Some? && parsed.value != 0 ==> r == parsed.value
  {
    match parsed
    case None => 1
    case Some(v) => if v == 0 then 1 else v
  }

  /** The slider offers 500, 750, ..., 3000 milliseconds per step. */
  predicate OnSlider(v: int)
  {
    500 <= v <= 3000 && (v - 500) % 250 == 0
  }

  /** The slider's eleven positions, in order. */
  function SliderPositions(): (r: seq<int>)
    ensures |r| == 11 && r[0] == 500 && r[10] == 3000
    ensures forall i :: 0 <= i < |r| ==> OnSlider(r[i]) && r[i] == 500 + 250 * i
  {
    seq(11, i requires 0 <= i < 11 => 500 + 250 * i)
  }

  /** Every slider value is one of its positions, and a positive step delay. */
  lemma OnSliderPositions(v: int)
    ensures OnSlider(v) <==> v in SliderPositions()
    ensures OnSlider(v) ==> v > 0
  {
    var r := SliderPositions();
    if OnSlider(v) {
      var i := (v - 500) / 250;
      assert r[i] == v;
    }
  }

  /** "Total Nodes". */
  function TotalNodes(numEVs: int, numChargingStations: int): int
  {
    numEVs + numChargingStations + 1
  }

  /** "Max Connections". */
  function MaxConnections(numEVs: int, numChargingStations: int): int
  {
    (numEVs + numChargingStations) * 2
  }

  /** "Protocol Steps". */
  function ProtocolSteps(numEVs: int, numChargingStations: int): int
  {
    numEVs * 2 + numChargingStations * 2 + Min(numEVs, numChargingStations) * 4
  }

  /** `disabled={isSimulating}` on the two inputs, the slider, Start and
      Reset (lines 59, 81, 103, 151, 161): they can be used only while no run
      is on. The engine's handlers for them require it, and the constructor
      and a finished run re-establish it. */
  predicate ControlsEnabled(isSimulating: bool)
  {
    !isSimulating
  }

  /** For non-negative counts "Total Nodes" is the size of the network
      `initializeNetwork` builds, "Protocol Steps" the number of messages a
      run on it logs, and "Max Connections" the number of its registration
      messages, two per EV and two per station. */
  lemma SummaryMatchesEngine(s: EngineState, numEVs: int, numChargingStations: int, key: nat -> string,
                             evDraw: nat -> EvRegistrationDraws, csDraw: nat -> CsRegistrationDraws,
                             authDraw: nat -> AuthenticationDraws, speed: int)
    requires numEVs >= 0 && numChargingStations >= 0
    requires speed > 0 && s.nodes == Network(numEVs, numChargingStations, key)
    ensures var e := Run(s, evDraw, csDraw, authDraw, speed);
      && TotalNodes(numEVs, numChargingStations) == |s.nodes| == |e.nodes|
      && ProtocolSteps(numEVs, numChargingStations) == |e.messages|
      && MaxConnections(numEVs, numChargingStations) ==
           |e.messages| - |AuthenticationTags| * Min(numEVs, numChargingStations)
  {
    RunOnNetworkCounts(s, numEVs, numChargingStations, key, evDraw, csDraw, authDraw, speed);
  }

  /** The fields accept any typed integer: `-2` passes `parseInt(...) || 1`
      unchanged. The network then has no EVs, yet the summary reports one
      node and minus eight protocol steps for a network of three nodes whose
      run logs four messages. */
  lemma NegativeCountBreaksSummary(s: EngineState, key: nat -> string,
                                   evDraw: nat -> EvRegistrationDraws, csDraw: nat -> CsRegistrationDraws,
                                   authDraw: nat -> AuthenticationDraws, speed: int)
    requires speed > 0 && s.nodes == Network(ParsedOrOne(Some(-2)), 2, key)
    ensures ParsedOrOne(Some(-2)) == -2
    ensures TotalNodes(-2, 2) == 1 && |s.nodes| == 3
    ensures ProtocolSteps(-2, 2) == -8 && |Run(s, evDraw, csDraw, authDraw, speed).messages| == 4
  {
    RunOnNetworkCounts(s, -2, 2, key, evDraw, csDraw, authDraw, speed);
  }

  /** The count a field evidently means to hand over: the parsed number held
      to the field's own `min`..`max` range (1-10 EVs, 1-5 stations), with the
      NaN case falling back to 1 as before. */
  function CountInRange(parsed: Option<int>, max: int): (r: int)
    requires max >= 1
    ensures 1 <= r <= max
    ensures parsed.Some? && 1 <= parsed.value <= max ==> r == parsed.value
    ensures parsed.None? ==> r == 1
  {
    var v := ParsedOrOne(parsed);
    if v < 1 then 1 else if v > max then max else v
  }

  /** With the counts held to range, the summary agrees with the engine for
      whatever is typed into the two fields. */
  lemma SummaryMatchesEngineForAnyInput(s: EngineState, typedEVs: Option<int>, typedStations: Option<int>,
                                        key: nat -> string,
                                        evDraw: nat -> EvRegistrationDraws, csDraw: nat -> CsRegistrationDraws,
                                        authDraw: nat -> AuthenticationDraws, speed: int)
    requires speed > 0 && s.nodes == Network(CountInRange(typedEVs, 10), CountInRange(typedStations, 5), key)
    ensures var n, m := CountInRange(typedEVs, 10), CountInRange(typedStations, 5);
      var e := Run(s, evDraw, csDraw, authDraw, speed);
      && TotalNodes(n, m) == |e.nodes|
      && ProtocolSteps(n, m) == |e.messages|
  {
    SummaryMatchesEngine(s, CountInRange(typedEVs, 10), CountInRange(typedStations, 5), key,
                         evDraw, csDraw, authDraw, speed);
  }
}
