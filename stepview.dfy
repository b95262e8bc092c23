/** The protocol panel of components/protocol-visualization.tsx: the constant
    table of eight protocol steps in three phases (lines 10-66), the status of
    a step against the engine's step counter (lines 69-73) and the message
    shown beside a step (lines 75-77). */
module StepView {
  import opened Wrappers
  import opened Types
  import opened Registry
  import opened Handshakes
  import opened RunFacts

  /** One phase of the table with the ids of its steps; the titles and
      descriptions are display text and are left out. */
  datatype StepGroup = StepGroup(phase: string, stepIds: seq<int>)

  /** The table `protocolSteps`. */
  function ProtocolSteps(): (r: seq<StepGroup>)
    ensures |r| == 3
    ensures AllStepIds(r) == [1, 2, 3, 4, 5, 6, 7, 8]
  {
    var r := [StepGroup("EV Registration", [1, 2]),
              StepGroup("Charging Station Registration", [3, 4]),
              StepGroup("Authentication Process", [5, 6, 7, 8])];
    assert AllStepIds(r) == [1, 2] + AllStepIds(r[1..]);
    assert AllStepIds(r[1..]) == [3, 4] + AllStepIds(r[2..]);
    r
  }

  /** The step ids of all phases, in table order. */
  function AllStepIds(groups: seq<StepGroup>): seq<int>
  {
    if groups == [] then [] else groups[0].stepIds + AllStepIds(groups[1..])
  }

  predicate StrictlyIncreasing(ids: seq<int>)
  {
    forall i, j :: 0 <= i < j < |ids| ==> ids[i] < ids[j]
  }

  /** The table's ids are `1..8` in increasing order, so no two steps share an id. */
  lemma StepIdsIncreasing()
    ensures StrictlyIncreasing(AllStepIds(ProtocolSteps()))
    ensures forall i :: 0 <= i < |AllStepIds(ProtocolSteps())| ==> AllStepIds(ProtocolSteps())[i] == i + 1
  {
    var ids := AllStepIds(ProtocolSteps());
    assert forall i :: 0 <= i < |ids| ==> ids[i] == i + 1;
  }

  datatype StepStatus = Completed | Active | Pending

  /** `getStepStatus(stepId)`: before, at or after the current step. */
  function GetStepStatus(stepId: int, currentStep: int): (r: StepStatus)
    ensures r == Completed <==> stepId < currentStep
    ensures r == Active <==> stepId == currentStep
    ensures r == Pending <==> stepId > currentStep
  {
    if stepId < currentStep then Completed
    else if stepId == currentStep then Active
    else Pending
  }

  /** As the counter grows, a step only moves forward: pending, active, completed. */
  lemma StatusMonotone(stepId: int, c: int, c': int)
    requires c <= c'
    ensures GetStepStatus(stepId, c) == Completed ==> GetStepStatus(stepId, c') == Completed
    ensures GetStepStatus(stepId, c) == Active ==> GetStepStatus(stepId, c') != Pending
  {
  }

  /** At most one step of the table is active at any time. */
  lemma AtMostOneActive(currentStep: int, i: nat, j: nat)
    requires i < j < |AllStepIds(ProtocolSteps())|
    ensures !(GetStepStatus(AllStepIds(ProtocolSteps())[i], currentStep) == Active &&
              GetStepStatus(AllStepIds(ProtocolSteps())[j], currentStep) == Active)
  {
    StepIdsIncreasing();
  }

  /** The position of `messages.find((m) => m.step === stepId)`, if any. */
  function FirstWithStep(messages: seq<Message>, stepId: int): (r: Option<nat>)
    ensures r.Some? ==> r.value < |messages| && messages[r.value].step == stepId &&
                        forall i :: 0 <= i < r.value ==> messages[i].step != stepId
    ensures r.None? <==> forall i :: 0 <= i < |messages| ==> messages[i].step != stepId
  {
    if messages == [] then None
    else if messages[0].step == stepId then Some(0)
    else match FirstWithStep(messages[1..], stepId)
      case None => None
      case Some(k) => Some(k + 1)
  }

  /** `getRecentMessage(stepId)`: the earliest logged message with that step. */
  function GetRecentMessage(messages: seq<Message>, stepId: int): (r: Option<Message>)
    ensures r.Some? ==> exists k :: 0 <= k < |messages| && messages[k] == r.value && r.value.step == stepId &&
                                    forall i :: 0 <= i < k ==> messages[i].step != stepId
    ensures r.None? <==> forall m :: m in messages ==> m.step != stepId
  {
    match FirstWithStep(messages, stepId)
    case None => None
    case Some(k) => Some(messages[k])
  }

  /** Every element of `n` copies of a block is an element of the block. */
  lemma {:induction false} RepeatMembers<T>(block: seq<T>, n: nat, i: nat)
    requires i < |Repeat(block, n)|
    ensures Repeat(block, n)[i] in block
    decreases n
  {
    if i >= |block| {
      RepeatMembers(block, n - 1, i - |block|);
    }
  }

  /** Every message carries a step between 1 and 4. */
  predicate StepsWithinHandshake(msgs: seq<Message>)
  {
    forall i :: 0 <= i < |msgs| ==> 1 <= msgs[i].step <= 4
  }

  /** A log laid out as registrations, then authentications, numbers its
      messages 1-2 and 1-4. */
  lemma LaidOutSteps(msgs: seq<Message>, a: nat, b: nat, p: nat)
    requires Tags(msgs) == Repeat(RegistrationTags, a) + Repeat(RegistrationTags, b) + Repeat(AuthenticationTags, p)
    ensures StepsWithinHandshake(msgs)
  {
    var ra, rb, rc := Repeat(RegistrationTags, a), Repeat(RegistrationTags, b), Repeat(AuthenticationTags, p);
    forall i | 0 <= i < |msgs|
      ensures 1 <= msgs[i].step <= 4
    {
      assert Tags(msgs)[i] == Tag(msgs[i]);
      if i < |ra| {
        RepeatMembers(RegistrationTags, a, i);
        assert (ra + rb + rc)[i] == ra[i];
      } else if i < |ra| + |rb| {
        RepeatMembers(RegistrationTags, b, i - |ra|);
        assert (ra + rb + rc)[i] == rb[i - |ra|];
      } else {
        RepeatMembers(AuthenticationTags, p, i - |ra| - |rb|);
        assert (ra + rb + rc)[i] == rc[i - |ra| - |rb|];
      }
    }
  }

  /** Every message of a run carries a step between 1 and 4. */
  lemma RunSteps(s: EngineState, evDraw: nat -> EvRegistrationDraws, csDraw: nat -> CsRegistrationDraws,
                 authDraw: nat -> AuthenticationDraws, speed: int)
    requires speed > 0 && FindUsp(s.nodes).Some?
    ensures StepsWithinHandshake(Run(s, evDraw, csDraw, authDraw, speed).messages)
  {
    RunLog(s, evDraw, csDraw, authDraw, speed);
    LaidOutSteps(Run(s, evDraw, csDraw, authDraw, speed).messages,
                 |OfKind(s.nodes, Ev)|, |OfKind(s.nodes, ChargingStation)|,
                 Pairings(OfKind(s.nodes, Ev), OfKind(s.nodes, ChargingStation)));
  }

  /** The authentication rows of the table (steps 5-8) never find a message
      from a run: the engine numbers the messages of each handshake from 1. */
  lemma AuthenticationRowsFindNothing(s: EngineState, evDraw: nat -> EvRegistrationDraws,
                                      csDraw: nat -> CsRegistrationDraws,
                                      authDraw: nat -> AuthenticationDraws, speed: int, stepId: int)
    requires speed > 0 && FindUsp(s.nodes).Some? && stepId in ProtocolSteps()[2].stepIds
    ensures stepId > 4
    ensures GetRecentMessage(Run(s, evDraw, csDraw, authDraw, speed).messages, stepId) == None
  {
    RunSteps(s, evDraw, csDraw, authDraw, speed);
    NothingBeyondFour(Run(s, evDraw, csDraw, authDraw, speed).messages, stepId);
  }

  lemma NothingBeyondFour(msgs: seq<Message>, stepId: int)
    requires StepsWithinHandshake(msgs) && stepId > 4
    ensures GetRecentMessage(msgs, stepId) == None
  {
  }
}
