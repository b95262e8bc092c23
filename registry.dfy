/** The node registry of app/page.tsx: the network `initializeNetwork`
    builds (lines 104-155), the `map` rewrite of `updateNodeStatus`
    (lines 247-249), the run-start reset (line 426) and the `find` and
    `filter` lookups the handshakes use. */
module Registry {
  import opened Wrappers
  import opened Types
  import Numerals

  /** The fields `updateNodeStatus`'s optional `updates` argument may set;
      `None` means the key is absent from `updates`. */
  datatype Patch = Patch(challenge: Option<string>, puffResponse: Option<string>, psidev: Option<string>, token: Option<string>)

  const NoPatch: Patch := Patch(None, None, None, None)

  function Override(old_: Option<string>, update: Option<string>): Option<string>
  {
    if update.Some? then update else old_
  }

  /** `{ ...node, status, ...updates }`. */
  function Apply(node: Node, status: Status, patch: Patch): (r: Node)
    ensures r.id == node.id && r.kind == node.kind && r.status == status
    ensures r.publicKey == node.publicKey && r.privateKey == node.privateKey && r.sharedKey == node.sharedKey
    ensures r.nonce == node.nonce
    ensures patch == NoPatch ==> r == node.(status := status)
  {
    node.(status := status,
          challenge := Override(node.challenge, patch.challenge),
          puffResponse := Override(node.puffResponse, patch.puffResponse),
          psidev := Override(node.psidev, patch.psidev),
          token := Override(node.token, patch.token))
  }

  /** `prev.map(node => node.id === nodeId ? { ...node, status, ...updates } : node)`. */
  function UpdateNodeStatus(nodes: seq<Node>, id: string, status: Status, patch: Patch): (r: seq<Node>)
    ensures |r| == |nodes|
    ensures forall i :: 0 <= i < |nodes| ==> r[i].id == nodes[i].id && r[i].kind == nodes[i].kind
    ensures forall i :: 0 <= i < |nodes| && nodes[i].id != id ==> r[i] == nodes[i]
    ensures forall i :: 0 <= i < |nodes| && nodes[i].id == id ==> r[i] == Apply(nodes[i], status, patch)
  {
    seq(|nodes|, i requires 0 <= i < |nodes| => if nodes[i].id == id then Apply(nodes[i], status, patch) else nodes[i])
  }

  /** Updating a node twice the same way is the same as updating it once. */
  lemma UpdateIdempotent(nodes: seq<Node>, id: string, status: Status, patch: Patch)
    ensures UpdateNodeStatus(UpdateNodeStatus(nodes, id, status, patch), id, status, patch)
         == UpdateNodeStatus(nodes, id, status, patch)
  {
  }

  /** Updates of two different ids do not interfere. */
  lemma UpdatesCommute(nodes: seq<Node>, a: string, sa: Status, pa: Patch, b: string, sb: Status, pb: Patch)
    requires a != b
    ensures UpdateNodeStatus(UpdateNodeStatus(nodes, a, sa, pa), b, sb, pb)
         == UpdateNodeStatus(UpdateNodeStatus(nodes, b, sb, pb), a, sa, pa)
  {
  }

  /** An id that names no node leaves the registry as it was. */
  lemma UpdateAbsentId(nodes: seq<Node>, id: string, status: Status, patch: Patch)
    requires forall i :: 0 <= i < |nodes| ==> nodes[i].id != id
    ensures UpdateNodeStatus(nodes, id, status, patch) == nodes
  {
  }

  /** `prev.map(node => ({ ...node, status: "idle" }))`, run at the start of every run. */
  function ResetStatuses(nodes: seq<Node>): (r: seq<Node>)
    ensures |r| == |nodes|
    ensures forall i :: 0 <= i < |r| ==> r[i].status == Idle
    ensures forall i :: 0 <= i < |r| ==> r[i].(status := nodes[i].status) == nodes[i]
  {
    seq(|nodes|, i requires 0 <= i < |nodes| => nodes[i].(status := Idle))
  }

  /** `nodes.find(n => n.type === "USP")`: the first USP in registry order. */
  function FindUsp(nodes: seq<Node>): (r: Option<Node>)
    ensures r.Some? ==> r.value.kind == Usp && r.value in nodes
    ensures r.Some? ==> exists k :: 0 <= k < |nodes| && nodes[k] == r.value && forall j :: 0 <= j < k ==> nodes[j].kind != Usp
    ensures r.None? <==> forall i :: 0 <= i < |nodes| ==> nodes[i].kind != Usp
  {
    if nodes == [] then None
    else if nodes[0].kind == Usp then Some(nodes[0])
    else
      var rest := FindUsp(nodes[1..]);
      assert forall i :: 1 <= i < |nodes| ==> nodes[i] == nodes[1..][i - 1];
      if rest.Some? then
        var k :| 0 <= k < |nodes[1..]| && nodes[1..][k] == rest.value && forall j :: 0 <= j < k ==> nodes[1..][j].kind != Usp;
        assert nodes[k + 1] == rest.value;
        rest
      else rest
  }

  /** `nodes.filter(n => n.type === kind)`. */
  function OfKind(nodes: seq<Node>, kind: Kind): (r: seq<Node>)
    ensures |r| <= |nodes|
    ensures forall i :: 0 <= i < |r| ==> r[i].kind == kind && r[i] in nodes
  {
    if nodes == [] then []
    else OfKind(nodes[..|nodes| - 1], kind) + (if nodes[|nodes| - 1].kind == kind then [nodes[|nodes| - 1]] else [])
  }

  lemma {:induction false} OfKindAppend(a: seq<Node>, b: seq<Node>, kind: Kind)
    ensures OfKind(a + b, kind) == OfKind(a, kind) + OfKind(b, kind)
    decreases |b|
  {
    if b == [] {
      assert a + b == a;
    } else {
      var b' := b[..|b| - 1];
      assert (a + b)[..|a + b| - 1] == a + b';
      OfKindAppend(a, b', kind);
    }
  }

  /** Filtering a list whose nodes all have the kind keeps it; all other kinds drop it. */
  lemma {:induction false} OfKindUniform(nodes: seq<Node>, k: Kind, kind: Kind)
    requires forall i :: 0 <= i < |nodes| ==> nodes[i].kind == k
    ensures OfKind(nodes, kind) == if k == kind then nodes else []
    decreases |nodes|
  {
    if nodes != [] {
      OfKindUniform(nodes[..|nodes| - 1], k, kind);
    }
  }

  /** Number of nodes a count from the controls creates: the `for` loop runs no time for a count <= 0. */
  function Clamp0(n: int): nat
  {
    if n < 0 then 0 else n
  }

  /** The USP node; `generateKey()` calls 0 and 1 give its keys. */
  function UspNode(key: nat -> string): Node
  {
    Node("USP-1", Usp, Idle, Some(key(0)), Some(key(1)), None, None, None, None, None, None)
  }

  /** EV number `i + 1`; it takes `generateKey()` calls 2+3i .. 4+3i. */
  function EvNode(i: nat, key: nat -> string): Node
  {
    Node("EV-" + Numerals.Dec(i + 1), Ev, Idle,
         Some(key(2 + 3 * i)), Some(key(3 + 3 * i)), Some(key(4 + 3 * i)), None, None, None, None, None)
  }

  /** Charging station number `j + 1` after `evs` EVs. */
  function CsNode(j: nat, evs: nat, key: nat -> string): Node
  {
    Node("CS-" + Numerals.Dec(j + 1), ChargingStation, Idle,
         Some(key(2 + 3 * evs + 2 * j)), Some(key(3 + 3 * evs + 2 * j)), None, None, None, None, None, None)
  }

  function EvNodes(n: nat, key: nat -> string): (r: seq<Node>)
    ensures |r| == n && forall i :: 0 <= i < n ==> r[i] == EvNode(i, key)
  {
    seq(n, i requires 0 <= i < n => EvNode(i, key))
  }

  function CsNodes(m: nat, evs: nat, key: nat -> string): (r: seq<Node>)
    ensures |r| == m && forall j :: 0 <= j < m ==> r[j] == CsNode(j, evs, key)
  {
    seq(m, j requires 0 <= j < m => CsNode(j, evs, key))
  }

  /** One more EV at the end of the list. */
  lemma EvNodesSnoc(n: nat, key: nat -> string)
    ensures EvNodes(n + 1, key) == EvNodes(n, key) + [EvNode(n, key)]
  {
  }

  /** One more station at the end of the list. */
  lemma CsNodesSnoc(m: nat, evs: nat, key: nat -> string)
    ensures CsNodes(m + 1, evs, key) == CsNodes(m, evs, key) + [CsNode(m, evs, key)]
  {
  }

  /** The registry `initializeNetwork` builds for the configured counts. */
  function Network(numEVs: int, numChargingStations: int, key: nat -> string): seq<Node>
  {
    [UspNode(key)] + EvNodes(Clamp0(numEVs), key) + CsNodes(Clamp0(numChargingStations), Clamp0(numEVs), key)
  }

  predicate DistinctIds(nodes: seq<Node>)
  {
    forall i, j :: 0 <= i < j < |nodes| ==> nodes[i].id != nodes[j].id
  }

  /** `USP-1`, then `EV-1..EV-n`, then `CS-1..CS-m`: `1 + n + m` idle nodes. */
  lemma NetworkShape(numEVs: int, numChargingStations: int, key: nat -> string)
    ensures var net := Network(numEVs, numChargingStations, key);
      var n, m := Clamp0(numEVs), Clamp0(numChargingStations);
      && |net| == 1 + n + m
      && net[0] == UspNode(key)
      && (forall i :: 0 <= i < n ==> net[1 + i] == EvNode(i, key))
      && (forall j :: 0 <= j < m ==> net[1 + n + j] == CsNode(j, n, key))
      && (forall i :: 0 <= i < |net| ==> net[i].status == Idle)
  {
    var n, m := Clamp0(numEVs), Clamp0(numChargingStations);
    var u, e, c := [UspNode(key)], EvNodes(n, key), CsNodes(m, n, key);
    var net := u + e + c;
    assert Network(numEVs, numChargingStations, key) == net;
    forall i | 0 <= i < n
      ensures net[1 + i] == EvNode(i, key)
    {
      assert net[1 + i] == (u + e)[1 + i] == e[i];
    }
    forall j | 0 <= j < m
      ensures net[1 + n + j] == CsNode(j, n, key)
    {
      assert net[1 + n + j] == c[j];
    }
    forall i | 0 <= i < |net|
      ensures net[i].status == Idle
    {
      if i == 0 {
      } else if i < 1 + n {
        assert net[i] == e[i - 1];
      } else {
        assert net[i] == c[i - 1 - n];
      }
    }
  }

  /** The USP is the one node `find` returns, and the filters give the EVs and stations in order. */
  lemma NetworkLookups(numEVs: int, numChargingStations: int, key: nat -> string)
    ensures var net := Network(numEVs, numChargingStations, key);
      var n, m := Clamp0(numEVs), Clamp0(numChargingStations);
      && FindUsp(net) == Some(UspNode(key))
      && OfKind(net, Ev) == EvNodes(n, key)
      && OfKind(net, ChargingStation) == CsNodes(m, n, key)
  {
    var n, m := Clamp0(numEVs), Clamp0(numChargingStations);
    var u, e, c := [UspNode(key)], EvNodes(n, key), CsNodes(m, n, key);
    OfKindAppend(u + e, c, Ev);
    OfKindAppend(u, e, Ev);
    OfKindAppend(u + e, c, ChargingStation);
    OfKindAppend(u, e, ChargingStation);
    OfKindUniform(u, Usp, Ev);
    OfKindUniform(e, Ev, Ev);
    OfKindUniform(c, ChargingStation, Ev);
    OfKindUniform(u, Usp, ChargingStation);
    OfKindUniform(e, Ev, ChargingStation);
    OfKindUniform(c, ChargingStation, ChargingStation);
  }

  lemma PrefixedIdsDiffer(prefix: string, a: nat, b: nat)
    requires a != b
    ensures prefix + Numerals.Dec(a) != prefix + Numerals.Dec(b)
  {
    Numerals.RadixInjective(a, b, 10);
    assert (prefix + Numerals.Dec(a))[|prefix|..] == Numerals.Dec(a);
    assert (prefix + Numerals.Dec(b))[|prefix|..] == Numerals.Dec(b);
  }

  /** No two nodes of a fresh network share an id. */
  lemma NetworkIdsDistinct(numEVs: int, numChargingStations: int, key: nat -> string)
    ensures DistinctIds(Network(numEVs, numChargingStations, key))
  {
    NetworkShape(numEVs, numChargingStations, key);
    LaidOutIdsDistinct(Network(numEVs, numChargingStations, key), Clamp0(numEVs), Clamp0(numChargingStations), key);
  }

  lemma LaidOutIdsDistinct(net: seq<Node>, n: nat, m: nat, key: nat -> string)
    requires |net| == 1 + n + m && net[0] == UspNode(key)
    requires forall i :: 0 <= i < n ==> net[1 + i] == EvNode(i, key)
    requires forall j :: 0 <= j < m ==> net[1 + n + j] == CsNode(j, n, key)
    ensures DistinctIds(net)
  {
    forall i, j | 0 <= i < j < |net|
      ensures net[i].id != net[j].id
    {
      TwoIdsDiffer(net, n, m, key, i, j);
    }
  }

  lemma TwoIdsDiffer(net: seq<Node>, n: nat, m: nat, key: nat -> string, i: nat, j: nat)
    requires |net| == 1 + n + m && net[0] == UspNode(key)
    requires forall i :: 0 <= i < n ==> net[1 + i] == EvNode(i, key)
    requires forall j :: 0 <= j < m ==> net[1 + n + j] == CsNode(j, n, key)
    requires i < j < |net|
    ensures net[i].id != net[j].id
  {
    NodeIdInitial(net, n, m, key, i);
    NodeIdInitial(net, n, m, key, j);
    if 1 <= i && j <= n {
      PrefixedIdsDiffer("EV-", i, j);
    } else if n < i {
      PrefixedIdsDiffer("CS-", i - n, j - n);
    }
  }

  /** Where node `i` of a fresh network sits and the first letter of its id. */
  lemma NodeIdInitial(net: seq<Node>, n: nat, m: nat, key: nat -> string, i: nat)
    requires |net| == 1 + n + m && net[0] == UspNode(key)
    requires forall i :: 0 <= i < n ==> net[1 + i] == EvNode(i, key)
    requires forall j :: 0 <= j < m ==> net[1 + n + j] == CsNode(j, n, key)
    requires i < |net|
    ensures i == 0 ==> net[i].id[0] == 'U'
    ensures 1 <= i <= n ==> net[i].id == "EV-" + Numerals.Dec(i) && net[i].id[0] == 'E'
    ensures n < i ==> net[i].id == "CS-" + Numerals.Dec(i - n) && net[i].id[0] == 'C'
  {
    if 1 <= i <= n {
      assert net[1 + (i - 1)] == EvNode(i - 1, key);
    } else if n < i {
      assert net[1 + n + (i - 1 - n)] == CsNode(i - 1 - n, n, key);
    }
  }
}
