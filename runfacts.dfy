/** What a protocol run produces, proved about the functions of module
    Handshakes: the shape of the message log, the final metrics in closed
    form, which nodes end up authenticated, and what the messages carry. */
module RunFacts {
  import opened Wrappers
  import opened Types
  import opened Registry
  import opened MetricsRules
  import opened Handshakes
  import Hashing
  import Numerals

  /** What identifies a message's place in the protocol: its phase and its step. */
  function Tag(m: Message): (Phase, int)
  {
    (m.phase, m.step)
  }

  function Tags(msgs: seq<Message>): (r: seq<(Phase, int)>)
    ensures |r| == |msgs| && forall i :: 0 <= i < |msgs| ==> r[i] == Tag(msgs[i])
  {
    seq(|msgs|, i requires 0 <= i < |msgs| => Tag(msgs[i]))
  }

  const RegistrationTags: seq<(Phase, int)> := [(Registration, 1), (Registration, 2)]
  const AuthenticationTags: seq<(Phase, int)> := [(Authentication, 1), (Authentication, 2), (Authentication, 3), (Authentication, 4)]

  /** `n` copies of `block`, one after the other. */
  function Repeat<T>(block: seq<T>, n: nat): seq<T>
  {
    if n == 0 then [] else block + Repeat(block, n - 1)
  }

  lemma {:induction false} RepeatAdd<T>(block: seq<T>, a: nat, b: nat)
    ensures Repeat(block, a) + Repeat(block, b) == Repeat(block, a + b)
  {
    if a > 0 {
      RepeatAdd(block, a - 1, b);
      assert block + Repeat(block, a - 1) + Repeat(block, b) == block + (Repeat(block, a - 1) + Repeat(block, b));
    }
  }

  lemma {:induction false} RepeatLength<T>(block: seq<T>, n: nat)
    ensures |Repeat(block, n)| == n * |block|
  {
    if n > 0 {
      RepeatLength(block, n - 1);
    }
  }

  predicate AllEncrypted(msgs: seq<Message>)
  {
    forall i :: 0 <= i < |msgs| ==> msgs[i].encrypted
  }

  /** The log only grows: the old messages are a prefix of the new ones. */
  predicate LogExtends(s: EngineState, r: EngineState)
  {
    |s.messages| <= |r.messages| && r.messages[..|s.messages|] == s.messages &&
    (AllEncrypted(s.messages) ==> AllEncrypted(r.messages))
  }

  /** The nodes keep their ids and kinds, in order. */
  predicate SameLayout(a: seq<Node>, b: seq<Node>)
  {
    |a| == |b| && forall i :: 0 <= i < |a| ==> a[i].id == b[i].id && a[i].kind == b[i].kind
  }

  lemma SameLayoutTrans(a: seq<Node>, b: seq<Node>, c: seq<Node>)
    requires SameLayout(a, b) && SameLayout(b, c)
    ensures SameLayout(a, c)
  {
  }

  /** Every node whose id is in `done` is authenticated; every other node is idle. */
  predicate StatusesAre(nodes: seq<Node>, done: set<string>)
  {
    forall i :: 0 <= i < |nodes| ==> nodes[i].status == if nodes[i].id in done then Authenticated else Idle
  }

  /** How the counters moved from `a` to `b`, besides `averageProcessingTime`. */
  predicate Advanced(a: Metrics, b: Metrics, messages: int, successes: int, delay: int, gain: real)
  {
    && b.totalMessages == a.totalMessages + messages
    && b.successfulAuthentications == a.successfulAuthentications + successes
    && b.failedAuthentications == a.failedAuthentications
    && b.endToEndDelay == a.endToEndDelay + delay
    && b.throughput == a.throughput + gain
    && (UtilizationTracksMessages(a) ==> UtilizationTracksMessages(b))
  }

  lemma SendEffect(s: EngineState, from: string, to: string, msgType: string, content: Content,
                   phase: Phase, step: int, stamp: Stamp)
    ensures var r := Send(s, from, to, msgType, content, phase, step, stamp);
      && LogExtends(s, r)
      && Tags(r.messages) == Tags(s.messages) + [(phase, step)]
      && |r.messages| == |s.messages| + 1
      && r.metrics == Counted(s.metrics)
      && r.nodes == s.nodes && r.currentStep == s.currentStep
  {
    var r := Send(s, from, to, msgType, content, phase, step, stamp);
    assert r.messages[..|s.messages|] == s.messages;
  }

  /** Without a USP in the registry a registration handshake changes nothing. */
  lemma RegistrationWithoutUsp(s: EngineState, view: seq<Node>, ev: Node, cs: Node,
                               de: EvRegistrationDraws, dc: CsRegistrationDraws, speed: int)
    requires forall i :: 0 <= i < |view| ==> view[i].kind != Usp
    ensures RegisterEv(s, view, ev, de, speed) == s
    ensures RegisterCs(s, view, cs, dc) == s
  {
  }

  /** One EV registration: two registration messages (steps 1 and 2), then the success update. */
  lemma RegisterEvLog(s: EngineState, view: seq<Node>, ev: Node, d: EvRegistrationDraws, speed: int)
    requires FindUsp(view).Some?
    ensures var r := RegisterEv(s, view, ev, d, speed);
      && Progress(s, r, RegistrationTags, 0)
      && |r.messages| == |s.messages| + 2
      && r.metrics == AfterEvRegistration(Counted(Counted(s.metrics)), speed)
  {
    var usp := FindUsp(view).value;
    var puffResponse := Hashing.Puff(d.challenge, None);
    var psidev := Hashing.Hash([ev.id, puffResponse]);
    var s1 := SetStatus(s, ev.id, Registering, Patch(Some(d.challenge), Some(puffResponse), Some(psidev), None));
    var s2 := Send(s1, ev.id, usp.id, "M1_EV_Registration",
                   EvRegistrationRequest(Some(psidev), d.challenge, puffResponse, ev.publicKey), Registration, 1, d.m1);
    var aj := Hashing.Hash([ev.id, d.challenge, usp.id, Hashing.OrEmpty(usp.publicKey)]);
    var s3 := Send(s2, usp.id, ev.id, "M2_USP_Response", UspResponse(aj, usp.id, usp.publicKey, d.nonce), Registration, 2, d.m2);
    SendEffect(s1, ev.id, usp.id, "M1_EV_Registration",
               EvRegistrationRequest(Some(psidev), d.challenge, puffResponse, ev.publicKey), Registration, 1, d.m1);
    SendEffect(s2, usp.id, ev.id, "M2_USP_Response", UspResponse(aj, usp.id, usp.publicKey, d.nonce), Registration, 2, d.m2);
    assert s3.messages[..|s.messages|] == s.messages by {
      assert s3.messages[..|s2.messages|] == s2.messages;
    }
  }

  /** What the two registration messages say: the `psidev` the EV derives is
      `Hash(evId, PUFF(challenge))`, the USP's tag is `Hash(evId, challenge, uspId, uspKey)`. */
  lemma RegisterEvContents(s: EngineState, view: seq<Node>, ev: Node, d: EvRegistrationDraws, speed: int)
    requires FindUsp(view).Some?
    ensures var r := RegisterEv(s, view, ev, d, speed);
      var usp := FindUsp(view).value;
      var n := |s.messages|;
      var psidev := Hashing.Hash([ev.id, Hashing.Puff(d.challenge, None)]);
      && |r.messages| == n + 2
      && r.messages[n].from == ev.id && r.messages[n].to == usp.id
      && r.messages[n].msgType == "M1_EV_Registration"
      && r.messages[n].content == EvRegistrationRequest(Some(psidev), d.challenge, Hashing.Puff(d.challenge, None), ev.publicKey)
      && r.messages[n + 1].from == usp.id && r.messages[n + 1].to == ev.id
      && r.messages[n + 1].msgType == "M2_USP_Response"
      && r.messages[n + 1].content.aj == Hashing.Hash([ev.id, d.challenge, usp.id, Hashing.OrEmpty(usp.publicKey)])
  {
  }

  /** An EV registration leaves ids, kinds and the idle statuses alone, and
      records `psidev` on the EV. */
  lemma RegisterEvNodes(s: EngineState, view: seq<Node>, ev: Node, d: EvRegistrationDraws, speed: int, done: set<string>)
    ensures var r := RegisterEv(s, view, ev, d, speed);
      && SameLayout(s.nodes, r.nodes)
      && (StatusesAre(s.nodes, done) && ev.id !in done ==> StatusesAre(r.nodes, done))
      && (FindUsp(view).Some? ==> forall i :: 0 <= i < |r.nodes| && r.nodes[i].id == ev.id ==>
            r.nodes[i].psidev == Some(Hashing.Hash([ev.id, Hashing.Puff(d.challenge, None)])))
  {
  }

  /** One station registration: two registration messages and no success update. */
  lemma RegisterCsLog(s: EngineState, view: seq<Node>, cs: Node, d: CsRegistrationDraws)
    requires FindUsp(view).Some?
    ensures var r := RegisterCs(s, view, cs, d);
      && Progress(s, r, RegistrationTags, 0)
      && |r.messages| == |s.messages| + 2
      && r.metrics == Counted(Counted(s.metrics))
  {
    var usp := FindUsp(view).value;
    var s1 := SetStatus(s, cs.id, Registering, NoPatch);
    var puffResponse := Hashing.Puff(d.challenge, None);
    var s2 := Send(s1, cs.id, usp.id, "M1_CS_Registration",
                   CsRegistrationRequest(cs.id, d.challenge, puffResponse, cs.publicKey), Registration, 1, d.m1);
    var aj := Hashing.Hash([cs.id, d.challenge, puffResponse, usp.id,
                            Hashing.OrEmpty(usp.publicKey), Hashing.OrEmpty(cs.publicKey)]);
    var s3 := Send(s2, usp.id, cs.id, "M2_USP_CS_Response", UspCsResponse(aj, usp.id, d.now), Registration, 2, d.m2);
    SendEffect(s1, cs.id, usp.id, "M1_CS_Registration",
               CsRegistrationRequest(cs.id, d.challenge, puffResponse, cs.publicKey), Registration, 1, d.m1);
    SendEffect(s2, usp.id, cs.id, "M2_USP_CS_Response", UspCsResponse(aj, usp.id, d.now), Registration, 2, d.m2);
    assert s3.messages[..|s.messages|] == s.messages by {
      assert s3.messages[..|s2.messages|] == s2.messages;
    }
  }

  /** What the two station registration messages say: the station's PUFF
      response to its challenge, and the USP's tag over both parties. */
  lemma RegisterCsContents(s: EngineState, view: seq<Node>, cs: Node, d: CsRegistrationDraws)
    requires FindUsp(view).Some?
    ensures var r := RegisterCs(s, view, cs, d);
      var usp := FindUsp(view).value;
      var n := |s.messages|;
      var response := Hashing.Puff(d.challenge, None);
      && |r.messages| == n + 2
      && r.messages[n].from == cs.id && r.messages[n].to == usp.id
      && r.messages[n].msgType == "M1_CS_Registration"
      && r.messages[n].content == CsRegistrationRequest(cs.id, d.challenge, response, cs.publicKey)
      && r.messages[n + 1].from == usp.id && r.messages[n + 1].to == cs.id
      && r.messages[n + 1].msgType == "M2_USP_CS_Response"
      && r.messages[n + 1].content == UspCsResponse(Hashing.Hash([cs.id, d.challenge, response, usp.id,
           Hashing.OrEmpty(usp.publicKey), Hashing.OrEmpty(cs.publicKey)]), usp.id, d.now)
  {
  }

  lemma RegisterCsNodes(s: EngineState, view: seq<Node>, cs: Node, d: CsRegistrationDraws, done: set<string>)
    ensures var r := RegisterCs(s, view, cs, d);
      && SameLayout(s.nodes, r.nodes)
      && (StatusesAre(s.nodes, done) && cs.id !in done ==> StatusesAre(r.nodes, done))
  {
  }

  /** One authentication: four authentication messages (steps 1-4), then the success update. */
  lemma AuthenticateLog(s: EngineState, ev: Node, cs: Node, d: AuthenticationDraws, speed: int)
    requires speed > 0
    ensures var r := Authenticate(s, ev, cs, d, speed);
      && Progress(s, r, AuthenticationTags, 0)
      && |r.messages| == |s.messages| + 4
      && r.metrics == AfterAuthentication(Counted(Counted(Counted(Counted(s.metrics)))), speed)
  {
    var s1 := SetStatus(SetStatus(s, ev.id, Authenticating, NoPatch), cs.id, Authenticating, NoPatch);
    var c1 := AuthRequest(ev.psidev, d.n1, ev.publicKey);
    var s2 := Send(s1, ev.id, cs.id, "M1_Auth_Request", c1, Authentication, 1, d.m1);
    var c2 := ChallengeResponse(cs.id, d.challenge, d.n2, d.seed);
    var s3 := Send(s2, cs.id, ev.id, "M2_Challenge_Response", c2, Authentication, 2, d.m2);
    var ki := Hashing.Puff(d.seed, None);
    var puffResult := Hashing.Puff(d.evChallenge, None);
    var c3 := PuffResponse(ev.psidev, d.evChallenge, puffResult, ki);
    var s4 := Send(s3, ev.id, cs.id, "M3_PUFF_Response", c3, Authentication, 3, d.m3);
    var token := Token(ev.psidev, d.now, puffResult, cs.id);
    var key := Hashing.Hash([Hashing.Puff(puffResult, None), token]);
    var c4 := AuthComplete(cs.id, d.evChallenge, d.n2, puffResult, token, key);
    var s5 := Send(s4, cs.id, ev.id, "M4_Auth_Complete", c4, Authentication, 4, d.m4);
    SendEffect(s1, ev.id, cs.id, "M1_Auth_Request", c1, Authentication, 1, d.m1);
    SendEffect(s2, cs.id, ev.id, "M2_Challenge_Response", c2, Authentication, 2, d.m2);
    SendEffect(s3, ev.id, cs.id, "M3_PUFF_Response", c3, Authentication, 3, d.m3);
    SendEffect(s4, cs.id, ev.id, "M4_Auth_Complete", c4, Authentication, 4, d.m4);
    assert s5.messages[..|s.messages|] == s.messages by {
      assert s5.messages[..|s4.messages|] == s4.messages;
      assert s4.messages[..|s3.messages|] == s3.messages;
      assert s3.messages[..|s2.messages|] == s2.messages;
    }
    assert Tags(s5.messages) == Tags(s.messages) + AuthenticationTags;
  }

  /** What the four authentication messages carry. The EV's `ki` in M3 is the
      PUFF of the seed the station sent in M2, which is how the station's own
      `kk` is computed; M3 and M4 carry the same PUFF result; M4's token is
      `Token` of the EV's pseudonym, the clock, that result and the station,
      and its key is `Hash(PUFF(puffResult), token)`. */
  lemma AuthenticateContents(s: EngineState, ev: Node, cs: Node, d: AuthenticationDraws, speed: int)
    requires speed > 0
    ensures var r := Authenticate(s, ev, cs, d, speed);
      var n := |s.messages|;
      && |r.messages| == n + 4
      && r.messages[n].from == ev.id && r.messages[n].to == cs.id
      && r.messages[n].content == AuthRequest(ev.psidev, d.n1, ev.publicKey)
      && r.messages[n + 1].from == cs.id && r.messages[n + 1].to == ev.id
      && r.messages[n + 1].content.seed == d.seed
      && r.messages[n + 2].from == ev.id && r.messages[n + 2].to == cs.id
      && r.messages[n + 2].content.ki == Hashing.Puff(r.messages[n + 1].content.seed, None)
      && r.messages[n + 2].content.psidev == ev.psidev
      && r.messages[n + 3].from == cs.id && r.messages[n + 3].to == ev.id
      && r.messages[n + 3].content.puffResult == r.messages[n + 2].content.puffResult
      && r.messages[n + 3].content.nonce == r.messages[n + 1].content.n2
      && r.messages[n + 3].content.challenge == r.messages[n + 2].content.challenge
      && r.messages[n + 3].content.token == Token(ev.psidev, d.now, r.messages[n + 2].content.puffResult, cs.id)
      && r.messages[n + 3].content.key ==
           Hashing.Hash([Hashing.Puff(r.messages[n + 3].content.puffResult, None), r.messages[n + 3].content.token])
  {
  }

  /** After an authentication both ends are authenticated and the EV holds the
      token M4 delivered; nothing else changes status. */
  lemma AuthenticateNodes(s: EngineState, ev: Node, cs: Node, d: AuthenticationDraws, speed: int, done: set<string>)
    requires speed > 0
    ensures var r := Authenticate(s, ev, cs, d, speed);
      && SameLayout(s.nodes, r.nodes)
      && (StatusesAre(s.nodes, done) ==> StatusesAre(r.nodes, done + {ev.id, cs.id}))
      && (forall i :: 0 <= i < |r.nodes| && r.nodes[i].id == ev.id && ev.id != cs.id ==>
            r.nodes[i].token == Some(r.messages[|r.messages| - 1].content.token))
  {
  }

  /** How a stretch of the run moved the state from `s` to `r`: the log grew by
      messages tagged `tags`, the step counter moved by `steps`, and the nodes
      kept their layout. */
  predicate Progress(s: EngineState, r: EngineState, tags: seq<(Phase, int)>, steps: int)
  {
    && LogExtends(s, r)
    && Tags(r.messages) == Tags(s.messages) + tags
    && r.currentStep == s.currentStep + steps
    && SameLayout(s.nodes, r.nodes)
  }

  lemma ProgressTrans(s: EngineState, t: EngineState, r: EngineState,
                      tags1: seq<(Phase, int)>, k1: int, tags2: seq<(Phase, int)>, k2: int)
    requires Progress(s, t, tags1, k1) && Progress(t, r, tags2, k2)
    ensures Progress(s, r, tags1 + tags2, k1 + k2)
  {
    assert r.messages[..|s.messages|] == t.messages[..|s.messages|];
  }

  lemma BumpProgress(s: EngineState)
    ensures Progress(s, Bump(s), [], 1)
  {
    assert Bump(s).messages[..|s.messages|] == s.messages;
  }

  lemma ProgressNone(s: EngineState)
    ensures Progress(s, s, [], 0)
  {
    assert s.messages[..|s.messages|] == s.messages;
  }

  /** What a finished handshake does to the counters. */
  datatype Outcome = EvRegistered(speed: int) | CsRegistered | PairAuthenticated(speed: int)

  predicate Recordable(o: Outcome)
  {
    o.PairAuthenticated? ==> o.speed > 0
  }

  /** The counters after one more handshake: its messages, then its success update. */
  function Record(o: Outcome, m: Metrics): Metrics
    requires Recordable(o)
  {
    match o
    case EvRegistered(speed) => AfterEvRegistration(Counted(Counted(m)), speed)
    case CsRegistered => Counted(Counted(m))
    case PairAuthenticated(speed) => AfterAuthentication(Counted(Counted(Counted(Counted(m)))), speed)
  }

  /** The handshake each loop runs. */
  function OutcomeOf(r: Round): (o: Outcome)
    ensures Runnable(r) ==> Recordable(o)
  {
    match r
    case EvRound(_, _, _, speed) => EvRegistered(speed)
    case CsRound(_, _, _) => CsRegistered
    case AuthRound(_, _, _, speed) => PairAuthenticated(speed)
  }

  /** `m` after `c` more handshakes of the same kind. */
  function Compose(o: Outcome, m: Metrics, c: nat): Metrics
    requires Recordable(o)
    decreases c
  {
    if c == 0 then m else Compose(o, Record(o, m), c - 1)
  }

  lemma AdvancedTrans(a: Metrics, b: Metrics, c: Metrics,
                      m1: int, n1: int, d1: int, g1: real, m2: int, n2: int, d2: int, g2: real)
    requires Advanced(a, b, m1, n1, d1, g1) && Advanced(b, c, m2, n2, d2, g2)
    ensures Advanced(a, c, m1 + m2, n1 + n2, d1 + d2, g1 + g2)
  {
  }

  lemma ProductStep(x: int, c: nat)
    requires c > 0
    ensures x + x * (c - 1) == x * c
  {
  }

  lemma RealProductStep(x: real, c: nat)
    requires c > 0
    ensures x + (c - 1) as real * x == c as real * x
  {
  }

  /** `c` EV registrations: `2c` messages, `c` successes, `2Dc` of delay. */
  lemma {:induction false} EvRegistrationsClosedForm(m: Metrics, c: nat, speed: int)
    ensures var r := Compose(EvRegistered(speed), m, c);
      Advanced(m, r, 2 * c, c, 2 * speed * c, 0.0) && r.averageProcessingTime == m.averageProcessingTime
    decreases c
  {
    if c > 0 {
      var m1 := Record(EvRegistered(speed), m);
      EvRegistrationsClosedForm(m1, c - 1, speed);
      AdvancedTrans(m, m1, Compose(EvRegistered(speed), m1, c - 1),
                    2, 1, 2 * speed, 0.0, 2 * (c - 1), c - 1, 2 * speed * (c - 1), 0.0);
      ProductStep(2 * speed, c);
    }
  }

  /** `c` station registrations: `2c` messages and nothing else. */
  lemma {:induction false} CsRegistrationsClosedForm(m: Metrics, c: nat)
    ensures var r := Compose(CsRegistered, m, c);
      Advanced(m, r, 2 * c, 0, 0, 0.0) && r.averageProcessingTime == m.averageProcessingTime
    decreases c
  {
    if c > 0 {
      var m1 := Record(CsRegistered, m);
      CsRegistrationsClosedForm(m1, c - 1);
      AdvancedTrans(m, m1, Compose(CsRegistered, m1, c - 1), 2, 0, 0, 0.0, 2 * (c - 1), 0, 0, 0.0);
    }
  }

  /** `c` authentications: `4c` messages, `c` successes, `4Dc` of delay,
      `c * 60000 / D` of throughput, and `c` blends of the processing time. */
  lemma {:induction false} AuthenticationsClosedForm(m: Metrics, c: nat, speed: int)
    requires speed > 0
    ensures var r := Compose(PairAuthenticated(speed), m, c);
      && Advanced(m, r, 4 * c, c, 4 * speed * c, c as real * (60000.0 / speed as real))
      && r.averageProcessingTime == BlendsFrom(m.averageProcessingTime, c, speed)
    decreases c
  {
    if c > 0 {
      var g := 60000.0 / speed as real;
      var m1 := Record(PairAuthenticated(speed), m);
      AuthenticationsClosedForm(m1, c - 1, speed);
      AdvancedTrans(m, m1, Compose(PairAuthenticated(speed), m1, c - 1),
                    4, 1, 4 * speed, g, 4 * (c - 1), c - 1, 4 * speed * (c - 1), (c - 1) as real * g);
      ProductStep(4 * speed, c);
      RealProductStep(g, c);
    }
  }

  /** `ids(k) + ... + ids(n - 1)`. */
  function IdsFrom(ids: nat -> set<string>, k: nat, n: nat): set<string>
    decreases n - k
  {
    if k >= n then {} else ids(k) + IdsFrom(ids, k + 1, n)
  }

  lemma {:induction false} IdsFromMembers(ids: nat -> set<string>, k: nat, n: nat, x: string)
    ensures x in IdsFrom(ids, k, n) <==> exists j :: k <= j < n && x in ids(j)
    decreases n - k
  {
    if k < n {
      IdsFromMembers(ids, k + 1, n, x);
      if x in ids(k) {
        assert k <= k < n && x in ids(k);
      }
    }
  }

  /** Every iteration `k <= j < n` extends the log by `tags` and bumps the step once. */
  ghost predicate TurnsExtendLog(turn: (EngineState, nat) -> EngineState, k: nat, n: nat, tags: seq<(Phase, int)>)
  {
    forall t: EngineState, j: nat :: k <= j < n ==> Progress(t, turn(t, j), tags, 1)
  }

  /** Every iteration `k <= j < n` records one handshake `o`. */
  ghost predicate TurnsRecord(turn: (EngineState, nat) -> EngineState, k: nat, n: nat, o: Outcome)
    requires Recordable(o)
  {
    forall t: EngineState, j: nat :: k <= j < n ==> turn(t, j).metrics == Record(o, t.metrics)
  }

  /** Every iteration `k <= j < n` leaves an all-idle registry all idle. */
  ghost predicate TurnsKeepIdle(turn: (EngineState, nat) -> EngineState, k: nat, n: nat)
  {
    forall t: EngineState, j: nat :: k <= j < n && StatusesAre(t.nodes, {}) ==> StatusesAre(turn(t, j).nodes, {})
  }

  /** Every iteration `k <= j < n` authenticates the nodes named in `ids(j)` and no other. */
  ghost predicate TurnsAuthenticate(turn: (EngineState, nat) -> EngineState, k: nat, n: nat, ids: nat -> set<string>)
  {
    forall t: EngineState, j: nat, d: set<string> :: k <= j < n && StatusesAre(t.nodes, d) ==>
      StatusesAre(turn(t, j).nodes, d + ids(j))
  }

  /** A stretch of iterations that each extend the log by `tags` and bump the
      step extends it by `n - k` copies of `tags`. */
  lemma {:induction false} IterateProgress(s: EngineState, turn: (EngineState, nat) -> EngineState, k: nat, n: nat,
                                           tags: seq<(Phase, int)>)
    requires k <= n && TurnsExtendLog(turn, k, n, tags)
    ensures Progress(s, Iterate(s, turn, k, n), Repeat(tags, n - k), n - k)
    decreases n - k
  {
    if k < n {
      var t := turn(s, k);
      assert Progress(s, t, tags, 1);
      IterateProgress(t, turn, k + 1, n, tags);
      ProgressTrans(s, t, Iterate(s, turn, k, n), tags, 1, Repeat(tags, n - (k + 1)), n - (k + 1));
    } else {
      ProgressNone(s);
    }
  }

  lemma {:induction false} IterateMetrics(s: EngineState, turn: (EngineState, nat) -> EngineState, k: nat, n: nat, o: Outcome)
    requires Recordable(o) && k <= n && TurnsRecord(turn, k, n, o)
    ensures Iterate(s, turn, k, n).metrics == Compose(o, s.metrics, n - k)
    decreases n - k
  {
    if k < n {
      assert turn(s, k).metrics == Record(o, s.metrics);
      IterateMetrics(turn(s, k), turn, k + 1, n, o);
    }
  }

  lemma {:induction false} IterateKeepsIdle(s: EngineState, turn: (EngineState, nat) -> EngineState, k: nat, n: nat)
    requires k <= n && StatusesAre(s.nodes, {}) && TurnsKeepIdle(turn, k, n)
    ensures StatusesAre(Iterate(s, turn, k, n).nodes, {})
    decreases n - k
  {
    if k < n {
      assert StatusesAre(turn(s, k).nodes, {});
      IterateKeepsIdle(turn(s, k), turn, k + 1, n);
    }
  }

  lemma {:induction false} IterateStatuses(s: EngineState, turn: (EngineState, nat) -> EngineState, k: nat, n: nat,
                                           done: set<string>, ids: nat -> set<string>)
    requires k <= n && StatusesAre(s.nodes, done) && TurnsAuthenticate(turn, k, n, ids)
    ensures StatusesAre(Iterate(s, turn, k, n).nodes, done + IdsFrom(ids, k, n))
    decreases n - k
  {
    if k < n {
      assert StatusesAre(turn(s, k).nodes, done + ids(k));
      IterateStatuses(turn(s, k), turn, k + 1, n, done + ids(k), ids);
      assert done + ids(k) + IdsFrom(ids, k + 1, n) == done + IdsFrom(ids, k, n);
    }
  }

  /** What one iteration of each loop does to the log, the counters and the statuses. */
  lemma EvTurnLog(r: Round, t: EngineState, j: nat)
    requires r.EvRound? && FindUsp(r.view).Some? && j < |r.evs|
    ensures Progress(t, Turn(r, t, j), RegistrationTags, 1)
  {
    var t1 := RegisterEv(t, r.view, r.evs[j], r.evDraw(j), r.speed);
    RegisterEvLog(t, r.view, r.evs[j], r.evDraw(j), r.speed);
    BumpProgress(t1);
    ProgressTrans(t, t1, Bump(t1), RegistrationTags, 0, [], 1);
  }

  lemma EvTurnMetrics(r: Round, t: EngineState, j: nat)
    requires r.EvRound? && FindUsp(r.view).Some? && j < |r.evs|
    ensures Turn(r, t, j).metrics == Record(OutcomeOf(r), t.metrics)
  {
    RegisterEvLog(t, r.view, r.evs[j], r.evDraw(j), r.speed);
  }

  lemma EvTurnStatuses(r: Round, t: EngineState, j: nat)
    requires r.EvRound? && j < |r.evs| && StatusesAre(t.nodes, {})
    ensures StatusesAre(Turn(r, t, j).nodes, {})
  {
    RegisterEvNodes(t, r.view, r.evs[j], r.evDraw(j), r.speed, {});
  }

  lemma CsTurnLog(r: Round, t: EngineState, j: nat)
    requires r.CsRound? && FindUsp(r.view).Some? && j < |r.css|
    ensures Progress(t, Turn(r, t, j), RegistrationTags, 1)
  {
    var t1 := RegisterCs(t, r.view, r.css[j], r.csDraw(j));
    RegisterCsLog(t, r.view, r.css[j], r.csDraw(j));
    BumpProgress(t1);
    ProgressTrans(t, t1, Bump(t1), RegistrationTags, 0, [], 1);
  }

  lemma CsTurnMetrics(r: Round, t: EngineState, j: nat)
    requires r.CsRound? && FindUsp(r.view).Some? && j < |r.css|
    ensures Turn(r, t, j).metrics == Record(OutcomeOf(r), t.metrics)
  {
    RegisterCsLog(t, r.view, r.css[j], r.csDraw(j));
  }

  lemma CsTurnStatuses(r: Round, t: EngineState, j: nat)
    requires r.CsRound? && j < |r.css| && StatusesAre(t.nodes, {})
    ensures StatusesAre(Turn(r, t, j).nodes, {})
  {
    RegisterCsNodes(t, r.view, r.css[j], r.csDraw(j), {});
  }

  /** The two ids pairing `i` authenticates. */
  function PairIds(evs: seq<Node>, css: seq<Node>): nat -> set<string>
  {
    (i: nat) => if i < Pairings(evs, css) then {evs[i].id, css[i % |css|].id} else {}
  }

  lemma AuthTurnLog(r: Round, t: EngineState, i: nat)
    requires r.AuthRound? && r.speed > 0 && i < Pairings(r.evs, r.css)
    ensures Progress(t, Turn(r, t, i), AuthenticationTags, 1)
  {
    var t1 := Authenticate(t, r.evs[i], r.css[i % |r.css|], r.authDraw(i), r.speed);
    AuthenticateLog(t, r.evs[i], r.css[i % |r.css|], r.authDraw(i), r.speed);
    BumpProgress(t1);
    ProgressTrans(t, t1, Bump(t1), AuthenticationTags, 0, [], 1);
  }

  lemma AuthTurnMetrics(r: Round, t: EngineState, i: nat)
    requires r.AuthRound? && r.speed > 0 && i < Pairings(r.evs, r.css)
    ensures Turn(r, t, i).metrics == Record(OutcomeOf(r), t.metrics)
  {
    AuthenticateLog(t, r.evs[i], r.css[i % |r.css|], r.authDraw(i), r.speed);
  }

  lemma AuthTurnStatuses(r: Round, t: EngineState, i: nat, done: set<string>)
    requires r.AuthRound? && r.speed > 0 && i < Pairings(r.evs, r.css) && StatusesAre(t.nodes, done)
    ensures StatusesAre(Turn(r, t, i).nodes, done + PairIds(r.evs, r.css)(i))
  {
    assert PairIds(r.evs, r.css)(i) == {r.evs[i].id, r.css[i % |r.css|].id};
    AuthenticateNodes(t, r.evs[i], r.css[i % |r.css|], r.authDraw(i), r.speed, done);
  }

  /** The same facts for every iteration and every state it starts from. */
  lemma EvTurnsLog(r: Round)
    requires r.EvRound? && FindUsp(r.view).Some?
    ensures TurnsExtendLog(TurnOf(r), 0, Length(r), RegistrationTags)
  {
    forall t: EngineState, j: nat | 0 <= j < Length(r) ensures Progress(t, TurnOf(r)(t, j), RegistrationTags, 1) {
      EvTurnLog(r, t, j);
    }
  }

  lemma EvTurnsRecord(r: Round)
    requires r.EvRound? && FindUsp(r.view).Some?
    ensures TurnsRecord(TurnOf(r), 0, Length(r), OutcomeOf(r))
  {
    forall t: EngineState, j: nat | 0 <= j < Length(r) ensures TurnOf(r)(t, j).metrics == Record(OutcomeOf(r), t.metrics) {
      EvTurnMetrics(r, t, j);
    }
  }

  lemma EvTurnsKeepIdle(r: Round)
    requires r.EvRound?
    ensures TurnsKeepIdle(TurnOf(r), 0, Length(r))
  {
    forall t: EngineState, j: nat | 0 <= j < Length(r) && StatusesAre(t.nodes, {})
      ensures StatusesAre(TurnOf(r)(t, j).nodes, {})
    {
      EvTurnStatuses(r, t, j);
    }
  }

  lemma CsTurnsLog(r: Round)
    requires r.CsRound? && FindUsp(r.view).Some?
    ensures TurnsExtendLog(TurnOf(r), 0, Length(r), RegistrationTags)
  {
    forall t: EngineState, j: nat | 0 <= j < Length(r) ensures Progress(t, TurnOf(r)(t, j), RegistrationTags, 1) {
      CsTurnLog(r, t, j);
    }
  }

  lemma CsTurnsRecord(r: Round)
    requires r.CsRound? && FindUsp(r.view).Some?
    ensures TurnsRecord(TurnOf(r), 0, Length(r), OutcomeOf(r))
  {
    forall t: EngineState, j: nat | 0 <= j < Length(r) ensures TurnOf(r)(t, j).metrics == Record(OutcomeOf(r), t.metrics) {
      CsTurnMetrics(r, t, j);
    }
  }

  lemma CsTurnsKeepIdle(r: Round)
    requires r.CsRound?
    ensures TurnsKeepIdle(TurnOf(r), 0, Length(r))
  {
    forall t: EngineState, j: nat | 0 <= j < Length(r) && StatusesAre(t.nodes, {})
      ensures StatusesAre(TurnOf(r)(t, j).nodes, {})
    {
      CsTurnStatuses(r, t, j);
    }
  }

  lemma AuthTurnsLog(r: Round)
    requires r.AuthRound? && r.speed > 0
    ensures TurnsExtendLog(TurnOf(r), 0, Length(r), AuthenticationTags)
  {
    forall t: EngineState, j: nat | 0 <= j < Length(r) ensures Progress(t, TurnOf(r)(t, j), AuthenticationTags, 1) {
      AuthTurnLog(r, t, j);
    }
  }

  lemma AuthTurnsRecord(r: Round)
    requires r.AuthRound? && r.speed > 0
    ensures TurnsRecord(TurnOf(r), 0, Length(r), OutcomeOf(r))
  {
    forall t: EngineState, j: nat | 0 <= j < Length(r) ensures TurnOf(r)(t, j).metrics == Record(OutcomeOf(r), t.metrics) {
      AuthTurnMetrics(r, t, j);
    }
  }

  lemma AuthTurnsAuthenticate(r: Round)
    requires r.AuthRound? && r.speed > 0
    ensures TurnsAuthenticate(TurnOf(r), 0, Length(r), PairIds(r.evs, r.css))
  {
    forall t: EngineState, j: nat, d: set<string> | 0 <= j < Length(r) && StatusesAre(t.nodes, d)
      ensures StatusesAre(TurnOf(r)(t, j).nodes, d + PairIds(r.evs, r.css)(j))
    {
      AuthTurnStatuses(r, t, j, d);
    }
  }

  /** Phase 1, the EV registrations: two messages and one step per EV. */
  lemma EvPhaseLog(s: EngineState, r: Round)
    requires r.EvRound? && FindUsp(r.view).Some?
    ensures Progress(s, Rest(s, r, 0), Repeat(RegistrationTags, |r.evs|), |r.evs|)
  {
    EvTurnsLog(r);
    IterateProgress(s, TurnOf(r), 0, Length(r), RegistrationTags);
  }

  /** Phase 1 counts `|evs|` EV registrations. */
  lemma EvPhaseMetrics(s: EngineState, r: Round)
    requires r.EvRound? && FindUsp(r.view).Some?
    ensures Rest(s, r, 0).metrics == Compose(EvRegistered(r.speed), s.metrics, |r.evs|)
  {
    assert OutcomeOf(r) == EvRegistered(r.speed) && Length(r) - 0 == |r.evs|;
    EvTurnsRecord(r);
    IterateMetrics(s, TurnOf(r), 0, Length(r), OutcomeOf(r));
  }

  /** Phase 1 leaves idle nodes idle. */
  lemma EvPhaseKeepsIdle(s: EngineState, r: Round)
    requires r.EvRound? && FindUsp(r.view).Some?
    requires StatusesAre(s.nodes, {})
    ensures StatusesAre(Rest(s, r, 0).nodes, {})
  {
    EvTurnsKeepIdle(r);
    IterateKeepsIdle(s, TurnOf(r), 0, Length(r));
  }

  /** Phase 2, the station registrations: two messages and one step per station. */
  lemma CsPhaseLog(s: EngineState, r: Round)
    requires r.CsRound? && FindUsp(r.view).Some?
    ensures Progress(s, Rest(s, r, 0), Repeat(RegistrationTags, |r.css|), |r.css|)
  {
    CsTurnsLog(r);
    IterateProgress(s, TurnOf(r), 0, Length(r), RegistrationTags);
  }

  /** Phase 2 counts `|css|` station registrations. */
  lemma CsPhaseMetrics(s: EngineState, r: Round)
    requires r.CsRound? && FindUsp(r.view).Some?
    ensures Rest(s, r, 0).metrics == Compose(CsRegistered, s.metrics, |r.css|)
  {
    assert OutcomeOf(r) == CsRegistered && Length(r) - 0 == |r.css|;
    CsTurnsRecord(r);
    IterateMetrics(s, TurnOf(r), 0, Length(r), OutcomeOf(r));
  }

  /** Phase 2 leaves idle nodes idle. */
  lemma CsPhaseKeepsIdle(s: EngineState, r: Round)
    requires r.CsRound? && FindUsp(r.view).Some?
    requires StatusesAre(s.nodes, {})
    ensures StatusesAre(Rest(s, r, 0).nodes, {})
  {
    CsTurnsKeepIdle(r);
    IterateKeepsIdle(s, TurnOf(r), 0, Length(r));
  }

  /** Phase 3, the authentications: four messages and one step per pairing. */
  lemma AuthPhaseLog(s: EngineState, r: Round)
    requires r.AuthRound? && r.speed > 0
    ensures Progress(s, Rest(s, r, 0), Repeat(AuthenticationTags, Pairings(r.evs, r.css)), Pairings(r.evs, r.css))
  {
    AuthTurnsLog(r);
    IterateProgress(s, TurnOf(r), 0, Length(r), AuthenticationTags);
  }

  /** Phase 3 counts one authentication per pairing. */
  lemma AuthPhaseMetrics(s: EngineState, r: Round)
    requires r.AuthRound? && r.speed > 0
    ensures Rest(s, r, 0).metrics == Compose(PairAuthenticated(r.speed), s.metrics, Pairings(r.evs, r.css))
  {
    assert OutcomeOf(r) == PairAuthenticated(r.speed) && Length(r) - 0 == Pairings(r.evs, r.css);
    AuthTurnsRecord(r);
    IterateMetrics(s, TurnOf(r), 0, Length(r), OutcomeOf(r));
  }

  /** Phase 3 authenticates exactly the ids of its pairs, on top of `done`. */
  lemma AuthPhaseStatuses(s: EngineState, r: Round, done: set<string>)
    requires r.AuthRound? && r.speed > 0
    requires StatusesAre(s.nodes, done)
    ensures StatusesAre(Rest(s, r, 0).nodes, done + IdsFrom(PairIds(r.evs, r.css), 0, Pairings(r.evs, r.css)))
  {
    AuthTurnsAuthenticate(r);
    IterateStatuses(s, TurnOf(r), 0, Length(r), done, PairIds(r.evs, r.css));
  }

  /** The EV loop, the station loop and the authentication loop of a run from `s`. */
  function EvLoop(s: EngineState, evDraw: nat -> EvRegistrationDraws, speed: int): Round
  {
    EvRound(s.nodes, OfKind(s.nodes, Ev), evDraw, speed)
  }

  function CsLoop(s: EngineState, csDraw: nat -> CsRegistrationDraws): Round
  {
    CsRound(s.nodes, OfKind(s.nodes, ChargingStation), csDraw)
  }

  function AuthLoop(s: EngineState, authDraw: nat -> AuthenticationDraws, speed: int): Round
  {
    AuthRound(OfKind(s.nodes, Ev), OfKind(s.nodes, ChargingStation), authDraw, speed)
  }

  /** Run is the three loops one after the other, from the reset state. */
  lemma RunUnfolds(s: EngineState, evDraw: nat -> EvRegistrationDraws, csDraw: nat -> CsRegistrationDraws,
                   authDraw: nat -> AuthenticationDraws, speed: int)
    requires speed > 0
    ensures Run(s, evDraw, csDraw, authDraw, speed) ==
      Rest(Rest(Rest(RunStart(s), EvLoop(s, evDraw, speed), 0), CsLoop(s, csDraw), 0), AuthLoop(s, authDraw, speed), 0)
  {
  }

  /** Resetting the statuses keeps every node's id and kind and leaves them all idle. */
  lemma ResetKeepsLayout(nodes: seq<Node>)
    ensures SameLayout(nodes, ResetStatuses(nodes))
    ensures StatusesAre(ResetStatuses(nodes), {})
  {
    var r := ResetStatuses(nodes);
    forall i | 0 <= i < |nodes|
      ensures nodes[i].id == r[i].id && nodes[i].kind == r[i].kind
    {
      assert r[i].(status := nodes[i].status) == nodes[i];
    }
  }

  /** The log of a run over the EVs `evs` and the stations `css`: one
      two-message registration per EV and per station, then one four-message
      authentication per pairing, every message encrypted. */
  predicate LogOfRun(msgs: seq<Message>, evs: seq<Node>, css: seq<Node>)
  {
    Tags(msgs) == Repeat(RegistrationTags, |evs|) + Repeat(RegistrationTags, |css|) + Repeat(AuthenticationTags, Pairings(evs, css)) &&
    AllEncrypted(msgs)
  }

  /** The message log of a run in a registry with a USP: `N + M` registration
      handshakes of two messages each, then `min(N, M)` authentications of four,
      all encrypted, and one step per handshake. */
  lemma RunLog(s: EngineState, evDraw: nat -> EvRegistrationDraws, csDraw: nat -> CsRegistrationDraws,
               authDraw: nat -> AuthenticationDraws, speed: int)
    requires speed > 0 && FindUsp(s.nodes).Some?
    ensures var e := Run(s, evDraw, csDraw, authDraw, speed);
      var evs, css := OfKind(s.nodes, Ev), OfKind(s.nodes, ChargingStation);
      && LogOfRun(e.messages, evs, css)
      && |e.messages| == 2 * |evs| + 2 * |css| + 4 * Pairings(evs, css)
      && e.currentStep == |evs| + |css| + Pairings(evs, css)
      && SameLayout(s.nodes, e.nodes)
  {
    var s0 := RunStart(s);
    var s1 := Rest(s0, EvLoop(s, evDraw, speed), 0);
    var s2 := Rest(s1, CsLoop(s, csDraw), 0);
    var e := Rest(s2, AuthLoop(s, authDraw, speed), 0);
    EvPhaseLog(s0, EvLoop(s, evDraw, speed));
    CsPhaseLog(s1, CsLoop(s, csDraw));
    AuthPhaseLog(s2, AuthLoop(s, authDraw, speed));
    ThreePhasesChain(s0, s1, s2, e, |EvLoop(s, evDraw, speed).evs|, |CsLoop(s, csDraw).css|,
                     Pairings(AuthLoop(s, authDraw, speed).evs, AuthLoop(s, authDraw, speed).css));
    ResetKeepsLayout(s.nodes);
    SameLayoutTrans(s.nodes, s0.nodes, e.nodes);
  }

  /** The three phases of a run, chained: registrations of `a` and then `b`
      nodes, then `p` authentications, from an empty log. */
  lemma ThreePhasesChain(s0: EngineState, s1: EngineState, s2: EngineState, e: EngineState, a: nat, b: nat, p: nat)
    requires s0.messages == [] && s0.currentStep == 0
    requires Progress(s0, s1, Repeat(RegistrationTags, a), a)
    requires Progress(s1, s2, Repeat(RegistrationTags, b), b)
    requires Progress(s2, e, Repeat(AuthenticationTags, p), p)
    ensures Tags(e.messages) == Repeat(RegistrationTags, a) + Repeat(RegistrationTags, b) + Repeat(AuthenticationTags, p)
    ensures AllEncrypted(e.messages)
    ensures |e.messages| == 2 * a + 2 * b + 4 * p
    ensures e.currentStep == a + b + p
    ensures SameLayout(s0.nodes, e.nodes)
  {
    ProgressTrans(s0, s1, s2, Repeat(RegistrationTags, a), a, Repeat(RegistrationTags, b), b);
    ProgressTrans(s0, s2, e, Repeat(RegistrationTags, a) + Repeat(RegistrationTags, b), a + b, Repeat(AuthenticationTags, p), p);
    assert Tags(s0.messages) == [];
    RepeatLength(RegistrationTags, a);
    RepeatLength(RegistrationTags, b);
    RepeatLength(AuthenticationTags, p);
    assert |Tags(e.messages)| == |e.messages|;
  }


  /** The counters a run leaves behind, from the zeroed metrics `startSimulation`
      installs: `N + P` successes and no failure, `2N + 2M + 4P` messages, `2D`
      of delay per EV registration and `4D` per authentication, `60000 / D` of
      throughput per authentication, `P` blends of the processing time, and the
      utilization of the final message count. */
  lemma RunMetrics(s: EngineState, evDraw: nat -> EvRegistrationDraws, csDraw: nat -> CsRegistrationDraws,
                   authDraw: nat -> AuthenticationDraws, speed: int)
    requires speed > 0 && FindUsp(s.nodes).Some?
    ensures var m := Run(s, evDraw, csDraw, authDraw, speed).metrics;
      var n, c, p := |OfKind(s.nodes, Ev)|, |OfKind(s.nodes, ChargingStation)|,
                     Pairings(OfKind(s.nodes, Ev), OfKind(s.nodes, ChargingStation));
      && m.successfulAuthentications == n + p
      && m.failedAuthentications == 0
      && m.totalMessages == 2 * n + 2 * c + 4 * p
      && m.endToEndDelay == 2 * speed * n + 4 * speed * p
      && m.throughput == Gained(p, speed)
      && m.averageProcessingTime == BlendsFrom(0.0, p, speed)
      && UtilizationTracksMessages(m)
  {
    var s0 := RunStart(s);
    var s1 := Rest(s0, EvLoop(s, evDraw, speed), 0);
    var s2 := Rest(s1, CsLoop(s, csDraw), 0);
    var e := Rest(s2, AuthLoop(s, authDraw, speed), 0);
    EvPhaseMetrics(s0, EvLoop(s, evDraw, speed));
    CsPhaseMetrics(s1, CsLoop(s, csDraw));
    AuthPhaseMetrics(s2, AuthLoop(s, authDraw, speed));
    MetricsChain(s0.metrics, s1.metrics, s2.metrics, e.metrics, |OfKind(s.nodes, Ev)|, |OfKind(s.nodes, ChargingStation)|,
                 Pairings(OfKind(s.nodes, Ev), OfKind(s.nodes, ChargingStation)), speed);
  }

  /** The throughput `p` authentications add at step delay `speed`. */
  function Gained(p: nat, speed: int): real
    requires speed > 0
  {
    p as real * (60000.0 / speed as real)
  }

  /** The counters of `a` EV registrations, `b` station registrations and `p`
      authentications, from zero. */
  lemma MetricsChain(m0: Metrics, m1: Metrics, m2: Metrics, m3: Metrics, a: nat, b: nat, p: nat, speed: int)
    requires speed > 0 && m0 == ZeroMetrics
    requires m1 == Compose(EvRegistered(speed), m0, a)
    requires m2 == Compose(CsRegistered, m1, b)
    requires m3 == Compose(PairAuthenticated(speed), m2, p)
    ensures m3.successfulAuthentications == a + p
    ensures m3.failedAuthentications == 0
    ensures m3.totalMessages == 2 * a + 2 * b + 4 * p
    ensures m3.endToEndDelay == 2 * speed * a + 4 * speed * p
    ensures m3.throughput == Gained(p, speed)
    ensures m3.averageProcessingTime == BlendsFrom(0.0, p, speed)
    ensures UtilizationTracksMessages(m3)
  {
    EvRegistrationsClosedForm(m0, a, speed);
    CsRegistrationsClosedForm(m1, b);
    AuthenticationsClosedForm(m2, p, speed);
  }

  /** The ids of the first `P` EVs and the first `P` stations: the pairs the
      authentication phase visits. */
  function Paired(evs: seq<Node>, css: seq<Node>): (r: set<string>)
    ensures forall i :: 0 <= i < Pairings(evs, css) ==> evs[i].id in r && css[i].id in r
  {
    (set i | 0 <= i < Pairings(evs, css) :: evs[i].id) + (set i | 0 <= i < Pairings(evs, css) :: css[i].id)
  }

  /** The ids of pair `j`: EV `j` and station `j`, since `j < P <= |css|`. */
  lemma PairIdsAt(evs: seq<Node>, css: seq<Node>, j: nat)
    requires j < Pairings(evs, css)
    ensures PairIds(evs, css)(j) == {evs[j].id, css[j].id}
  {
    assert j % |css| == j;
  }

  /** The authentication phase's ids, gathered pair by pair, are the paired ids. */
  lemma PairIdsGathered(evs: seq<Node>, css: seq<Node>)
    ensures IdsFrom(PairIds(evs, css), 0, Pairings(evs, css)) == Paired(evs, css)
  {
    forall x: string
      ensures x in IdsFrom(PairIds(evs, css), 0, Pairings(evs, css)) <==> x in Paired(evs, css)
    {
      PairedMember(evs, css, x);
    }
  }

  lemma PairedMember(evs: seq<Node>, css: seq<Node>, x: string)
    ensures x in IdsFrom(PairIds(evs, css), 0, Pairings(evs, css)) <==> x in Paired(evs, css)
  {
    IdsFromMembers(PairIds(evs, css), 0, Pairings(evs, css), x);
    if x in Paired(evs, css) {
      var j :| 0 <= j < Pairings(evs, css) && (x == evs[j].id || x == css[j].id);
      PairIdsAt(evs, css, j);
    }
    if x in IdsFrom(PairIds(evs, css), 0, Pairings(evs, css)) {
      var j :| 0 <= j < Pairings(evs, css) && x in PairIds(evs, css)(j);
      PairIdsAt(evs, css, j);
    }
  }

  /** After a run exactly the paired EVs and stations are authenticated;
      every other node, the USP included, is idle. */
  lemma RunStatuses(s: EngineState, evDraw: nat -> EvRegistrationDraws, csDraw: nat -> CsRegistrationDraws,
                    authDraw: nat -> AuthenticationDraws, speed: int)
    requires speed > 0 && FindUsp(s.nodes).Some?
    ensures StatusesAre(Run(s, evDraw, csDraw, authDraw, speed).nodes,
                        Paired(OfKind(s.nodes, Ev), OfKind(s.nodes, ChargingStation)))
  {
    var s0 := RunStart(s);
    var s1 := Rest(s0, EvLoop(s, evDraw, speed), 0);
    var s2 := Rest(s1, CsLoop(s, csDraw), 0);
    var e := Rest(s2, AuthLoop(s, authDraw, speed), 0);
    ResetKeepsLayout(s.nodes);
    EvPhaseKeepsIdle(s0, EvLoop(s, evDraw, speed));
    CsPhaseKeepsIdle(s1, CsLoop(s, csDraw));
    AuthPhaseStatuses(s2, AuthLoop(s, authDraw, speed), {});
    PairIdsGathered(AuthLoop(s, authDraw, speed).evs, AuthLoop(s, authDraw, speed).css);
    assert {} + Paired(AuthLoop(s, authDraw, speed).evs, AuthLoop(s, authDraw, speed).css)
        == Paired(AuthLoop(s, authDraw, speed).evs, AuthLoop(s, authDraw, speed).css);
  }
}
