/** A run over a freshly initialised network of `USP-1`, `EV-1..EV-N` and
    `CS-1..CS-M`: which nodes end up authenticated, and the counters, in terms
    of the two counts the user entered. */
module NetworkRun {
  import opened Types
  import opened Registry
  import opened MetricsRules
  import opened Handshakes
  import opened RunFacts

  /** Node `k` of the network is one of the paired ones: EV `1..P` or station
      `1..P`, where `P = min(N, M)`. */
  predicate PairedSlot(k: nat, n: nat, m: nat)
  {
    (1 <= k <= Min(n, m)) || (n + 1 <= k <= n + Min(n, m))
  }

  lemma NetworkPairings(n: nat, m: nat, key: nat -> string)
    ensures Pairings(EvNodes(n, key), CsNodes(m, n, key)) == Min(n, m)
  {
  }

  /** The layout `NetworkShape` establishes, with the distinct ids of `NetworkIdsDistinct`. */
  predicate LaidOut(net: seq<Node>, n: nat, m: nat, key: nat -> string)
  {
    && |net| == 1 + n + m
    && (forall i :: 0 <= i < n ==> net[1 + i] == EvNode(i, key))
    && (forall j :: 0 <= j < m ==> net[1 + n + j] == CsNode(j, n, key))
    && DistinctIds(net)
  }

  lemma NetworkLaidOut(numEVs: int, numChargingStations: int, key: nat -> string)
    ensures LaidOut(Network(numEVs, numChargingStations, key), Clamp0(numEVs), Clamp0(numChargingStations), key)
  {
    NetworkShape(numEVs, numChargingStations, key);
    NetworkIdsDistinct(numEVs, numChargingStations, key);
  }

  /** The paired ids are exactly the ids sitting in the paired slots. */
  lemma SlotPaired(net: seq<Node>, n: nat, m: nat, key: nat -> string, k: nat)
    requires LaidOut(net, n, m, key) && k < |net|
    ensures net[k].id in Paired(EvNodes(n, key), CsNodes(m, n, key)) <==> PairedSlot(k, n, m)
  {
    if PairedSlot(k, n, m) {
      PairedSlotIn(net, n, m, key, k);
    }
    if net[k].id in Paired(EvNodes(n, key), CsNodes(m, n, key)) {
      InPairedSlot(net, n, m, key, k);
    }
  }

  lemma PairedSlotIn(net: seq<Node>, n: nat, m: nat, key: nat -> string, k: nat)
    requires LaidOut(net, n, m, key) && k < |net| && PairedSlot(k, n, m)
    ensures net[k].id in Paired(EvNodes(n, key), CsNodes(m, n, key))
  {
    var evs, css := EvNodes(n, key), CsNodes(m, n, key);
    NetworkPairings(n, m, key);
    if k <= Min(n, m) {
      assert net[1 + (k - 1)] == evs[k - 1];
    } else {
      assert net[1 + n + (k - 1 - n)] == css[k - 1 - n];
    }
  }

  lemma InPairedSlot(net: seq<Node>, n: nat, m: nat, key: nat -> string, k: nat)
    requires LaidOut(net, n, m, key) && k < |net|
    requires net[k].id in Paired(EvNodes(n, key), CsNodes(m, n, key))
    ensures PairedSlot(k, n, m)
  {
    var evs, css := EvNodes(n, key), CsNodes(m, n, key);
    NetworkPairings(n, m, key);
    var j :| 0 <= j < Min(n, m) && (net[k].id == evs[j].id || net[k].id == css[j].id);
    if net[k].id == evs[j].id {
      assert net[1 + j] == evs[j];
      SameIdSameSlot(net, k, 1 + j);
    } else {
      assert net[1 + n + j] == css[j];
      SameIdSameSlot(net, k, 1 + n + j);
    }
  }

  lemma SameIdSameSlot(net: seq<Node>, i: nat, j: nat)
    requires DistinctIds(net) && i < |net| && j < |net|
    ensures net[i].id == net[j].id ==> i == j
  {
  }

  /** Statuses over the network layout, slot by slot. */
  lemma SlotStatuses(numEVs: int, numChargingStations: int, key: nat -> string, nodes: seq<Node>)
    requires SameLayout(Network(numEVs, numChargingStations, key), nodes)
    requires StatusesAre(nodes, Paired(EvNodes(Clamp0(numEVs), key),
                                       CsNodes(Clamp0(numChargingStations), Clamp0(numEVs), key)))
    ensures |nodes| == 1 + Clamp0(numEVs) + Clamp0(numChargingStations)
    ensures forall k :: 0 <= k < |nodes| ==>
      nodes[k].id == Network(numEVs, numChargingStations, key)[k].id &&
      nodes[k].status == if PairedSlot(k, Clamp0(numEVs), Clamp0(numChargingStations)) then Authenticated else Idle
  {
    NetworkLaidOut(numEVs, numChargingStations, key);
    forall k | 0 <= k < |nodes|
      ensures nodes[k].id == Network(numEVs, numChargingStations, key)[k].id
      ensures nodes[k].status == if PairedSlot(k, Clamp0(numEVs), Clamp0(numChargingStations)) then Authenticated else Idle
    {
      SlotPaired(Network(numEVs, numChargingStations, key), Clamp0(numEVs), Clamp0(numChargingStations), key, k);
    }
  }

  /** The counters of a run on a fresh network of `N` EVs and `M` stations:
      `2N + 2M + 4P` messages for `P = min(N, M)`, `N + M + P` steps and
      `N + P` successes. */
  lemma RunOnNetworkCounts(s: EngineState, numEVs: int, numChargingStations: int, key: nat -> string,
                           evDraw: nat -> EvRegistrationDraws, csDraw: nat -> CsRegistrationDraws,
                           authDraw: nat -> AuthenticationDraws, speed: int)
    requires speed > 0 && s.nodes == Network(numEVs, numChargingStations, key)
    ensures var e := Run(s, evDraw, csDraw, authDraw, speed);
      var n, m := Clamp0(numEVs), Clamp0(numChargingStations);
      && |e.nodes| == |s.nodes| == 1 + n + m
      && |e.messages| == 2 * n + 2 * m + 4 * Min(n, m)
      && e.currentStep == n + m + Min(n, m)
      && e.metrics.successfulAuthentications == n + Min(n, m)
      && e.metrics.failedAuthentications == 0
  {
    NetworkShape(numEVs, numChargingStations, key);
    NetworkLookups(numEVs, numChargingStations, key);
    NetworkPairings(Clamp0(numEVs), Clamp0(numChargingStations), key);
    RunLog(s, evDraw, csDraw, authDraw, speed);
    RunMetrics(s, evDraw, csDraw, authDraw, speed);
  }

  /** Which nodes a run on a fresh network leaves authenticated. */
  lemma RunOnNetworkStatuses(s: EngineState, numEVs: int, numChargingStations: int, key: nat -> string,
                             evDraw: nat -> EvRegistrationDraws, csDraw: nat -> CsRegistrationDraws,
                             authDraw: nat -> AuthenticationDraws, speed: int)
    requires speed > 0 && s.nodes == Network(numEVs, numChargingStations, key)
    ensures var e := Run(s, evDraw, csDraw, authDraw, speed);
      var n, m := Clamp0(numEVs), Clamp0(numChargingStations);
      && |e.nodes| == |s.nodes|
      && forall k :: 0 <= k < |e.nodes| ==>
           e.nodes[k].id == s.nodes[k].id &&
           e.nodes[k].status == if PairedSlot(k, n, m) then Authenticated else Idle
  {
    NetworkLookups(numEVs, numChargingStations, key);
    NetworkPairings(Clamp0(numEVs), Clamp0(numChargingStations), key);
    RunLog(s, evDraw, csDraw, authDraw, speed);
    RunStatuses(s, evDraw, csDraw, authDraw, speed);
    SlotStatuses(numEVs, numChargingStations, key, Run(s, evDraw, csDraw, authDraw, speed).nodes);
  }

  /** A run on a fresh network of `N` EVs and `M` stations authenticates
      `EV-1..EV-P` and `CS-1..CS-P` for `P = min(N, M)` and leaves every other
      node idle; it logs `2N + 2M + 4P` messages, takes `N + M + P` steps and
      counts `N + P` successes. */
  lemma RunOnNetwork(s: EngineState, numEVs: int, numChargingStations: int, key: nat -> string,
                     evDraw: nat -> EvRegistrationDraws, csDraw: nat -> CsRegistrationDraws,
                     authDraw: nat -> AuthenticationDraws, speed: int)
    requires speed > 0 && s.nodes == Network(numEVs, numChargingStations, key)
    ensures var e := Run(s, evDraw, csDraw, authDraw, speed);
      var n, m := Clamp0(numEVs), Clamp0(numChargingStations);
      && |e.nodes| == 1 + n + m
      && (forall k :: 0 <= k < |e.nodes| ==>
            e.nodes[k].id == s.nodes[k].id &&
            e.nodes[k].status == if PairedSlot(k, n, m) then Authenticated else Idle)
      && |e.messages| == 2 * n + 2 * m + 4 * Min(n, m)
      && e.currentStep == n + m + Min(n, m)
      && e.metrics.successfulAuthentications == n + Min(n, m)
      && e.metrics.failedAuthentications == 0
  {
    RunOnNetworkCounts(s, numEVs, numChargingStations, key, evDraw, csDraw, authDraw, speed);
    RunOnNetworkStatuses(s, numEVs, numChargingStations, key, evDraw, csDraw, authDraw, speed);
  }
}
