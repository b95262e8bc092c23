/** The data model of the simulation engine in app/page.tsx (lines 19-73):
    nodes, messages, metrics, metric snapshots and saved run results, with the
    source's string-tagged variants written as datatypes. */
module Types {
  import opened Wrappers

  /** `NetworkNode.type`. */
  datatype Kind = Ev | Usp | ChargingStation

  /** `NetworkNode.status`. `Charging` is declared but no operation assigns it. */
  datatype Status = Idle | Registering | Authenticating | Charging | Authenticated

  /** One simulated entity. Keys and protocol artifacts are optional fields
      in the source (`publicKey?` and so on); the canvas position is left out. */
  datatype Node = Node(
    id: string,
    kind: Kind,
    status: Status,
    publicKey: Option<string>,
    privateKey: Option<string>,
    sharedKey: Option<string>,
    psidev: Option<string>,
    challenge: Option<string>,
    puffResponse: Option<string>,
    nonce: Option<string>,
    token: Option<string>)

  /** `Message.phase`. */
  datatype Phase = Registration | Authentication

  /** The payload of each of the eight message types; a field whose value
      is undefined in the source is `None`. */
  datatype Content =
    | EvRegistrationRequest(psidev: Option<string>, challenge: string, response: string, publicKey: Option<string>)
    | UspResponse(aj: string, uspId: string, uspPublicKey: Option<string>, nonce: string)
    | CsRegistrationRequest(chargingId: string, challenge: string, puffResponse: string, publicKey: Option<string>)
    | UspCsResponse(aj: string, uspId: string, timestamp: int)
    | AuthRequest(psidev: Option<string>, n1: string, publicKey: Option<string>)
    | ChallengeResponse(chargingId: string, challenge: string, n2: string, seed: string)
    | PuffResponse(psidev: Option<string>, challenge: string, puffResult: string, ki: string)
    | AuthComplete(id: string, challenge: string, nonce: string, puffResult: string, token: string, key: string)

  /** One logged protocol exchange. `step` is the 1-based position within its handshake. */
  datatype Message = Message(
    id: string,
    from: string,
    to: string,
    msgType: string,
    content: Content,
    timestamp: int,
    encrypted: bool,
    step: int,
    phase: Phase)

  /** `SimulationMetrics`. The two values the source computes by division are `real`. */
  datatype Metrics = Metrics(
    throughput: real,
    endToEndDelay: int,
    successfulAuthentications: int,
    failedAuthentications: int,
    totalMessages: int,
    averageProcessingTime: real,
    networkUtilization: int)

  /** The all-zero metrics every run and every reset starts from. */
  const ZeroMetrics: Metrics := Metrics(0.0, 0, 0, 0, 0, 0.0, 0)

  /** One entry of the metrics history. */
  datatype Snapshot = Snapshot(
    timestamp: int,
    throughput: real,
    endToEndDelay: real,
    networkUtilization: int,
    successRate: real)

  datatype Config = Config(numEVs: int, numChargingStations: int, simulationSpeed: int)

  /** The record saved when a run finishes. */
  datatype SimulationResult = SimulationResult(
    id: string,
    name: string,
    timestamp: int,
    config: Config,
    finalMetrics: Metrics,
    metricsHistory: seq<Snapshot>)

  /** A message's `msg-${Date.now()}-${Math.random()}` id and its `Date.now()` timestamp. */
  datatype Stamp = Stamp(id: string, time: int)

  /** The random strings and clock readings one EV registration draws. */
  datatype EvRegistrationDraws = EvRegistrationDraws(challenge: string, nonce: string, m1: Stamp, m2: Stamp)

  /** The random strings and clock readings one charging-station registration draws. */
  datatype CsRegistrationDraws = CsRegistrationDraws(challenge: string, now: int, m1: Stamp, m2: Stamp)

  /** The random strings and clock readings one authentication draws. */
  datatype AuthenticationDraws = AuthenticationDraws(
    n1: string, challenge: string, seed: string, n2: string, evChallenge: string, now: nat,
    m1: Stamp, m2: Stamp, m3: Stamp, m4: Stamp)
}
