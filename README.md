# SmartCharge-Auth in Dafny

SmartCharge-Auth simulates the registration and authentication handshakes
of electric vehicles (EVs) and charging stations with a utility service
provider (USP). This project models the simulation engine of
`app/page.tsx` and the small decision rules of four panels around it, and
proves what they do.

- **Engine** (`Engine.Simulation`). The `useState` cells of the page are
  the fields of a class, and each handler is a method.
  - `InitializeNetwork` builds the registry as `USP-1`, `EV-1..EV-n`, then
    `CS-1..CS-m`.
  - `AddMessage` appends one encrypted message and bumps two counters.
  - `UpdateMetricsHistory` appends a snapshot and keeps the last 50.
  - The three `Simulate*` handshakes, `StartSimulation`,
    `ResetSimulation`, `ClearSimulationHistory` and the count and speed
    setters.

  Each method is proved to move the engine state exactly as a function of
  module `Handshakes` says (`Run`, `RegisterEv`, `Authenticate`, ...).
  Modules `RunFacts` and `NetworkRun` prove closed forms about those
  functions: the message count, the step count, the final counters and
  which nodes end up authenticated.
- **Hash placeholder** (`Hashing`). `generatePUFF` and `generateHash`
  run the same 32-bit fold. JavaScript's ToInt32 is written out
  explicitly. The fold is proved to be the recurrence `31 * h + c`
  wrapped to 32 bits, and its hex rendering is proved to be 1-8 digits
  with no leading zero. Module `Numerals` proves that decimal and hex
  rendering round-trip.
- **Panels.**
  - `Selection`: the bounded FIFO selection of saved runs and the order-preserving pick.
  - `Controls`: the input fallback, the slider and the configuration summary.
  - `StepView`: the protocol step table, step status and message lookup.
  - `MessageLog`: content truncation, phase colour and the lock label.

Modelling decisions:

- **Randomness and the clock are parameters.** Every `Math.random()`
  string, `Date.now()` reading and message id a handshake draws comes
  from a record (`EvRegistrationDraws`, `CsRegistrationDraws`,
  `AuthenticationDraws`). A run takes one function per phase that gives
  the record for handshake `i`. `generateKey()` call number `i` returns
  `key(i)`.
- **Stale closures are reproduced.** `startSimulation` sees the render
  in which Start was clicked.
  - The loops iterate over the node list from before the status reset.
  - The handshakes look the USP up in that list.
  - The EV passed to `simulateAuthentication` carries its `psidev` from
    that list, which is undefined on a freshly built network.
  - The saved `SimulationResult` holds the metrics and the history from
    before the run (see Findings).
- **Metrics history is a separate operation.** The history snapshots
  that the effect at `app/page.tsx:241-245` takes while a run is on are
  an operation of their own (`MetricsChanged`). They are not interleaved
  into `StartSimulation`.
- **Exact arithmetic.** `throughput` and `averageProcessingTime` are
  exact `real`s.

## Model

| member | source | states |
|---|---|---|
| Hashing.ToInt32 | app/page.tsx:171-173 | the result is a signed 32-bit integer congruent to the input modulo 2^32 (what `<<`, `&` apply) |
| Hashing.ToInt32Congruent | app/page.tsx:171-173 | ToInt32 depends only on the residue modulo 2^32 |
| Hashing.ToInt32OfInt32 | app/page.tsx:173 | `hash & hash` leaves a 32-bit value unchanged |
| Hashing.FoldStep | app/page.tsx:172-173 | one step of the fold as written always yields a 32-bit value |
| Hashing.FoldStepIsTimes31 | app/page.tsx:172-173 | `(h << 5) - h + c`, wrapped, equals `ToInt32(31 * h + c)` for every `h` and `c` |
| Hashing.FoldAppend | app/page.tsx:168-174 | folding `a + b` is folding `b` from the fold of `a` |
| Hashing.FoldIsInt32 | app/page.tsx:168-174 | the fold of any string is a 32-bit value |
| Hashing.PuffIsHash | app/page.tsx:165-186 | `generatePUFF(c, s) == generateHash(c, s)` and `generatePUFF(c) == generateHash(c)` |
| Hashing.HashOfConcatenation | app/page.tsx:177-186 | `generateHash(a, b) == generateHash(a + b)` |
| Hashing.RenderShape | app/page.tsx:175 | the printed fold has 1 to 8 lowercase hex digits and no leading zero, and is "0" exactly when the fold is 0, in particular for empty input |
| Hashing.RenderDeterminesAbs | app/page.tsx:175 | equal printed hashes mean equal absolute folds |
| Hashing.FoldString | app/page.tsx:168-174 | the `for` loop computes the fold of the whole input, a 32-bit value |
| Hashing.GeneratePuff | app/page.tsx:165-175 | returns the printed fold of `challenge + (seed \|\| "")`, 1-8 characters long |
| Hashing.GenerateHash | app/page.tsx:177-186 | returns the printed fold of the joined inputs, 1-8 characters long |
| Numerals.DigitChar | app/page.tsx:175 | every digit below 16 maps to a hex digit character |
| Numerals.DigitRoundTrip | app/page.tsx:175 | a digit character reads back as its digit, and only 0 gives '0' |
| Numerals.ToRadix | app/page.tsx:123 | every rendering has at least one character |
| Numerals.RadixRoundTrip | app/page.tsx:175 | reading a rendering back in its radix gives the number |
| Numerals.RadixInjective | app/page.tsx:123 | two numbers with the same rendering are equal |
| Numerals.RadixShape | app/page.tsx:175 | every character is a digit of the radix, the rendering starts with '0' iff the number is 0, and 0 renders as "0" |
| Numerals.RadixLength | app/page.tsx:175 | a number below `base^k` takes at most `k` digits |
| Registry.Apply | app/page.tsx:248 | `{ ...node, status, ...updates }` sets the status, keeps id, kind and keys, and with no updates changes nothing else |
| Registry.UpdateNodeStatus | app/page.tsx:247-249 | length, order, ids and kinds are kept, nodes with another id are unchanged, and the node with that id gets the update |
| Registry.UpdateIdempotent | app/page.tsx:247-249 | applying the same update twice equals applying it once |
| Registry.UpdatesCommute | app/page.tsx:247-249 | updates of two different ids commute |
| Registry.UpdateAbsentId | app/page.tsx:247-249 | an id that names no node leaves the registry unchanged |
| Registry.ResetStatuses | app/page.tsx:426 | same length, every node idle, and nothing but the status changes |
| Registry.FindUsp | app/page.tsx:252 | returns the first USP in registry order, or None exactly when there is no USP |
| Registry.OfKind | app/page.tsx:446 | the filter keeps only nodes of the kind, all taken from the list |
| Registry.OfKindAppend | app/page.tsx:446 | filtering distributes over concatenation |
| Registry.OfKindUniform | app/page.tsx:446 | a list of one kind is kept by its own filter and dropped by the others |
| Registry.EvNodes | app/page.tsx:118-133 | the EV list has `n` entries, entry `i` being `EV-(i+1)` |
| Registry.CsNodes | app/page.tsx:136-151 | the station list has `m` entries, entry `j` being `CS-(j+1)` |
| Registry.EvNodesSnoc | app/page.tsx:118-133 | one more pass of the EV loop appends the next EV |
| Registry.CsNodesSnoc | app/page.tsx:136-151 | one more pass of the station loop appends the next station |
| Registry.NetworkShape | app/page.tsx:104-155 | `USP-1`, then `EV-1..EV-n`, then `CS-1..CS-m`: `1 + n + m` nodes, all idle |
| Registry.NetworkLookups | app/page.tsx:104-155 | on that network `find` returns `USP-1` and the two filters return the EVs and the stations in order |
| Registry.NetworkIdsDistinct | app/page.tsx:104-155 | no two nodes of a fresh network share an id |
| Registry.LaidOutIdsDistinct | app/page.tsx:110-141 | any list laid out as USP, EVs, stations has distinct ids |
| Registry.NodeIdInitial | app/page.tsx:110-141 | the id of each slot of the layout and its first letter |
| MetricsRules.Counted | app/page.tsx:210-214 | `totalMessages` grows by one, `networkUtilization` becomes `min(100, 2 * totalMessages)`, nothing else changes |
| MetricsRules.AfterEvRegistration | app/page.tsx:296-300 | one more success and `2D` more delay, nothing else changes |
| MetricsRules.Blend | app/page.tsx:417 | the new processing time moves halfway from the old value towards `4D` |
| MetricsRules.AfterAuthentication | app/page.tsx:412-418 | one more success, `60000 / D` more throughput, `4D` more delay, processing time blended, failures and message counters unchanged |
| MetricsRules.BlendBounded | app/page.tsx:417 | starting in `[0, 4D)`, the blend stays there and grows strictly |
| MetricsRules.BlendsFromClosedForm | app/page.tsx:417 | `k` blends take `a` to `4D + (a - 4D) / 2^k` |
| MetricsRules.ProcessingTimeAfterRun | app/page.tsx:417 | from 0, `k` authentications leave `4D(1 - 2^-k)`, which lies in `[0, 4D)` |
| MetricsRules.SuccessRate | app/page.tsx:219-223 | 0 when nothing finished, between 0 and 100 for non-negative counters, 100 with successes and no failure |
| MetricsRules.SnapshotOf | app/page.tsx:226-232 | the snapshot carries the clock reading, the throughput, the delay in seconds, the utilization and the success rate |
| MetricsRules.AppendBounded | app/page.tsx:235-236 | the new entry is last, the result is the last `min(n + 1, 50)` entries of history plus entry, and below capacity nothing is dropped |
| MetricsRules.AppendAtCapacityEvictsOldest | app/page.tsx:235-236 | at 50 entries, appending drops exactly the oldest |
| Handshakes.Pairings | app/page.tsx:460 | `min(\|evs\|, \|css\|)`: no more than either list, and equal to one of them |
| Handshakes.RestStep | app/page.tsx:447-463 | one loop iteration turns the rest of the loop from `j` into the rest from `j + 1` |
| Handshakes.RestDone | app/page.tsx:447-463 | past the last iteration, the loop leaves the state alone |
| RunFacts.RegistrationWithoutUsp | app/page.tsx:251-305 | with no USP in the registry, both registration handshakes change nothing |
| RunFacts.RegisterEvLog | app/page.tsx:251-301 | an EV registration appends two registration messages (steps 1 and 2) and counts two messages and one success with `2D` of delay |
| RunFacts.RegisterEvContents | app/page.tsx:256-289 | M1 goes from the EV to the USP carrying `psidev = Hash(evId, PUFF(challenge))`; M2 goes back with `aj = Hash(evId, challenge, uspId, uspKey)` |
| RunFacts.RegisterEvNodes | app/page.tsx:260-294 | ids and kinds are kept, statuses are back where they were, and the EV holds the derived `psidev` |
| RunFacts.RegisterCsLog | app/page.tsx:303-338 | a station registration appends two registration messages and counts no success |
| RunFacts.RegisterCsContents | app/page.tsx:310-333 | M1 carries the PUFF response to the station's challenge, and M2 carries the USP's `aj` over both parties |
| RunFacts.RegisterCsNodes | app/page.tsx:307-337 | ids and kinds are kept and statuses are back where they were |
| RunFacts.AuthenticateLog | app/page.tsx:340-419 | an authentication appends four authentication messages (steps 1-4) and records one success |
| RunFacts.AuthenticateContents | app/page.tsx:347-404 | the message senders and receivers alternate; `ki` in M3 is the PUFF of the seed sent in M2 (the station's `kk`); M4 repeats M3's PUFF result, M2's nonce and M3's challenge, and carries the session token and the key derived from it |
| RunFacts.AuthenticateNodes | app/page.tsx:409-410 | both ends become authenticated, the EV holds the token, and no other status changes |
| RunFacts.EvRegistrationsClosedForm | app/page.tsx:296-300 | `c` EV registrations add `2c` messages, `c` successes and `2Dc` of delay |
| RunFacts.CsRegistrationsClosedForm | app/page.tsx:303-338 | `c` station registrations add `2c` messages and nothing else |
| RunFacts.AuthenticationsClosedForm | app/page.tsx:412-418 | `c` authentications add `4c` messages, `c` successes, `4Dc` of delay, `c * 60000 / D` of throughput and `c` blends |
| RunFacts.EvPhaseLog | app/page.tsx:445-450 | phase 1 appends two registration messages and one step per EV |
| RunFacts.EvPhaseMetrics | app/page.tsx:445-450 | phase 1 records one EV registration per EV |
| RunFacts.EvPhaseKeepsIdle | app/page.tsx:445-450 | phase 1 leaves an all-idle registry all idle |
| RunFacts.CsPhaseLog | app/page.tsx:452-457 | phase 2 appends two registration messages and one step per station |
| RunFacts.CsPhaseMetrics | app/page.tsx:452-457 | phase 2 records one station registration per station |
| RunFacts.CsPhaseKeepsIdle | app/page.tsx:452-457 | phase 2 leaves an all-idle registry all idle |
| RunFacts.AuthPhaseLog | app/page.tsx:459-463 | phase 3 appends four authentication messages and one step per pairing |
| RunFacts.AuthPhaseMetrics | app/page.tsx:459-463 | phase 3 records one authentication per pairing |
| RunFacts.AuthPhaseStatuses | app/page.tsx:459-463 | phase 3 authenticates exactly the ids of its pairs, on top of those already authenticated |
| RunFacts.PairIdsAt | app/page.tsx:460-461 | pair `j` is EV `j` with station `j % \|css\|`, which is station `j` since `j < min` |
| RunFacts.RunUnfolds | app/page.tsx:421-463 | a run is the reset followed by the three loops |
| RunFacts.ResetKeepsLayout | app/page.tsx:426 | the reset keeps every id and kind and leaves every node idle |
| RunFacts.RunLog | app/page.tsx:446-463 | with a USP, a run logs `N + M` two-message registrations (steps 1, 2), then `min(N, M)` four-message authentications (steps 1-4), all encrypted, and takes one step per handshake |
| RunFacts.RunMetrics | app/page.tsx:421-463 | a run ends with `N + P` successes, no failure, `2N + 2M + 4P` messages, `2DN + 4DP` of delay, `P * 60000 / D` of throughput and `P` blends of the processing time from 0 |
| RunFacts.RunStatuses | app/page.tsx:421-463 | after a run exactly the paired EVs and stations are authenticated, and every other node is idle |
| NetworkRun.NetworkPairings | app/page.tsx:460 | on a fresh network the number of pairings is `min(N, M)` |
| NetworkRun.NetworkLaidOut | app/page.tsx:104-155 | a fresh network is laid out slot by slot, with distinct ids |
| NetworkRun.SlotPaired | app/page.tsx:459-463 | a node's id is paired exactly when it sits at EV slot `1..P` or station slot `1..P` |
| NetworkRun.RunOnNetworkCounts | app/page.tsx:421-463 | a run on a fresh network of `N` EVs and `M` stations logs `2N + 2M + 4P` messages, takes `N + M + P` steps and counts `N + P` successes and no failure |
| NetworkRun.RunOnNetworkStatuses | app/page.tsx:421-463 | the run authenticates `EV-1..EV-P` and `CS-1..CS-P`, leaves every other node idle, and EVs beyond the station count are never authenticated |
| NetworkRun.RunOnNetwork | app/page.tsx:421-463 | both of the above together |
| Engine.Simulation.constructor | app/page.tsx:76-159 | the initial `useState` values (3 EVs, 2 stations, 1000 ms, zero metrics, empty history and results, no run on) followed by the mount effect, so the registry is already the default network with an empty log, and the controls are enabled |
| Engine.Simulation.InitializeNetwork | app/page.tsx:104-155 | the registry becomes `Network(numEVs, numChargingStations, key)`, and the log and the step are cleared; the metrics and configuration are untouched |
| Engine.Simulation.AddMessage | app/page.tsx:188-215 | the state becomes `Send(...)`: exactly one encrypted message with the given phase and step appended, counters bumped |
| Engine.Simulation.HistoryEntry | app/page.tsx:218-232 | the entry built is `SnapshotOf(metrics, now)` |
| Engine.Simulation.UpdateMetricsHistory | app/page.tsx:217-238 | the history becomes `AppendBounded(old history, snapshot)`, and stays within 50 entries |
| Engine.Simulation.MetricsChanged | app/page.tsx:241-245 | a snapshot is appended only while a run is on |
| Engine.Simulation.UpdateNodeStatus | app/page.tsx:247-249 | the registry becomes `Registry.UpdateNodeStatus(...)` |
| Engine.Simulation.SimulateEvRegistration | app/page.tsx:251-301 | the state becomes `RegisterEv(old state, view, ev, draws, D)` |
| Engine.Simulation.SimulateCsRegistration | app/page.tsx:303-338 | the state becomes `RegisterCs(old state, view, cs, draws)` |
| Engine.Simulation.RecordAuthentication | app/page.tsx:412-418 | the metrics become `AfterAuthentication(old metrics, D)` |
| Engine.Simulation.SimulateAuthentication | app/page.tsx:340-419 | the state becomes `Authenticate(old state, ev, cs, draws, D)` |
| Engine.Simulation.RegisterEvs | app/page.tsx:445-450 | the EV loop takes the state to the EV round of the specification |
| Engine.Simulation.RegisterStations | app/page.tsx:452-457 | the station loop takes the state to the station round |
| Engine.Simulation.AuthenticationTurn | app/page.tsx:460-462 | iteration `i` of phase 3 is one turn of the authentication round |
| Engine.Simulation.AuthenticatePairs | app/page.tsx:459-463 | the pairing loop takes the state to the authentication round |
| Engine.Simulation.PlayRun | app/page.tsx:422-463 | the reset and three loops take the state to `Run(old state, draws, D)` |
| Engine.Simulation.StartSimulation | app/page.tsx:421-488 | the state becomes `Run(...)`, the flag is off again, and one result is appended, named `Simulation k+1`, holding the configuration and the pre-run metrics and history; it requires a state with no run on (Start is disabled during one, components/simulation-controls.tsx:151) and ends with the controls enabled again |
| Engine.Simulation.StartSimulationReportingRun | app/page.tsx:421-488 | the same run, saving the metrics and history the run ended with |
| Engine.Simulation.ResetSimulation | app/page.tsx:490-507 | a fresh network, empty log, zero metrics, step 0 and empty history; saved results kept; callable only while no run is on (components/simulation-controls.tsx:161) |
| Engine.Simulation.ClearSimulationHistory | app/page.tsx:509-515 | the saved results are emptied and nothing else changes |
| Engine.Simulation.SetNumEVs | app/page.tsx:155-159 | the EV count becomes `parseInt(...) \|\| 1` (components/simulation-controls.tsx:58); when the count changes the network is rebuilt for it with an empty log and step 0, when it stays the same nothing else changes; callable only while no run is on |
| Engine.Simulation.SetNumChargingStations | app/page.tsx:155-159 | the station count becomes `parseInt(...) \|\| 1` (components/simulation-controls.tsx:80); a changed count rebuilds the network, an unchanged one changes nothing else; callable only while no run is on |
| Engine.Simulation.SetSimulationSpeed | app/page.tsx:102 | the delay becomes the slider's value and nothing else changes; callable only while no run is on (components/simulation-controls.tsx:103) |
| Engine.BuildNetwork | app/page.tsx:105-152 | the list built is `Network(numEVs, numChargingStations, key)` |
| Engine.PushEvs | app/page.tsx:118-133 | the EV loop appends `EV-1..EV-n`, and none for a count <= 0 |
| Engine.PushStations | app/page.tsx:136-151 | the station loop appends `CS-1..CS-m`, and none for a count <= 0 |
| Engine.SavedMetricsMissTheRun | app/page.tsx:467-480 | on a fresh network with at least one EV, the run ends with `N + min(N, M)` successes, while the saved record keeps the pre-run zero |
| Selection.Without | components/simulation-comparison.tsx:37-38 | the id is gone, every other id stays, the list does not grow, and an absent id changes nothing |
| Selection.WithoutPosition | components/simulation-comparison.tsx:37-38 | removing a present id takes out exactly its position, keeping the others in order |
| Selection.ToggleSelected | components/simulation-comparison.tsx:37-38 | toggling a selected id removes it, keeping the order of the others |
| Selection.ToggleUnselected | components/simulation-comparison.tsx:40-43 | below capacity the id is appended; at capacity the oldest is dropped, the id appended and the length kept |
| Selection.ToggleInvariant | components/simulation-comparison.tsx:35-46 | toggling keeps the list free of duplicates and, for a positive bound, within it |
| Selection.ToggleTwice | components/simulation-comparison.tsx:37-43 | toggling the same absent id twice below capacity restores the list |
| Selection.WithoutAppended | components/simulation-comparison.tsx:37-38 | removing an id just appended gives back the list |
| Selection.Click | components/simulation-comparison.tsx:796-810 | a selected card is deselected, a selectable card is appended, and any other click changes nothing |
| Selection.ClicksRespectBound | components/simulation-comparison.tsx:798-810 | through clicks the selection stays duplicate-free, within the bound, and loses only the clicked id |
| Selection.LoweredBoundKeepsSelection | components/simulation-comparison.tsx:40-41 | over a lowered bound a click is refused, and the eviction branch keeps the length (the bound is the select at line 765) |
| Selection.SelectedResults | components/simulation-comparison.tsx:48-50 | exactly the results whose id is selected, as a subsequence of the results in their order |
| Selection.SelectedResultsAppend | components/simulation-comparison.tsx:48-50 | picking distributes over concatenation |
| Selection.SelectedResultsExtremes | components/simulation-comparison.tsx:48-50 | nothing selected picks nothing; every id selected picks everything |
| Selection.OpenComparison | components/simulation-comparison.tsx:158-168 | the modal opens with two or more selections and otherwise stays as it was |
| Selection.CompareEnabled | components/simulation-comparison.tsx:780 | the button is enabled exactly when the modal would open |
| Controls.ParsedOrOne | components/simulation-controls.tsx:58 | NaN and 0 become 1, and every other integer, negatives included, passes through, so the result is never 0 (the same fallback at line 80) |
| Controls.SliderPositions | components/simulation-controls.tsx:100-102 | eleven positions, 500 to 3000 in steps of 250 |
| Controls.OnSliderPositions | components/simulation-controls.tsx:100-102 | a value is on the slider exactly when it is one of the positions, and then it is positive |
| Controls.SummaryMatchesEngine | components/simulation-controls.tsx:126-135 | for non-negative counts, "Total Nodes" is the network size, "Protocol Steps" the message count of a run, and "Max Connections" its registration messages |
| Controls.NegativeCountBreaksSummary | components/simulation-controls.tsx:58 | a typed -2 passes the fallback; the summary shows 1 node and -8 steps for a network of 3 nodes whose run logs 4 messages, against the summary at lines 126 and 135 |
| Controls.CountInRange | components/simulation-controls.tsx:55-58 | the count lies in `1..max`, an in-range value passes through, and NaN gives 1 (and lines 77-80 for stations) |
| Controls.SummaryMatchesEngineForAnyInput | components/simulation-controls.tsx:126-135 | with counts held to range, the summary matches the engine for any typed input |
| StepView.ProtocolSteps | components/protocol-visualization.tsx:10-66 | three phases whose step ids, in order, are 1 to 8 |
| StepView.StepIdsIncreasing | components/protocol-visualization.tsx:10-66 | the ids are strictly increasing, id `i + 1` at position `i` |
| StepView.GetStepStatus | components/protocol-visualization.tsx:69-73 | completed iff below the current step, active iff equal to it, pending iff above it |
| StepView.StatusMonotone | components/protocol-visualization.tsx:69-73 | as the counter grows a completed step stays completed and an active one never goes back to pending |
| StepView.AtMostOneActive | components/protocol-visualization.tsx:10-73 | no two steps of the table are active at once |
| StepView.FirstWithStep | components/protocol-visualization.tsx:76 | the position of the first message with that step, or None exactly when there is none |
| StepView.GetRecentMessage | components/protocol-visualization.tsx:75-77 | the first logged message with that step, no earlier message having it, or None exactly when no message has it |
| StepView.RepeatMembers | app/page.tsx:447-463 | every element of repeated blocks comes from the block |
| StepView.LaidOutSteps | app/page.tsx:274-404 | a log laid out as registrations and authentications carries steps 1 to 4 only |
| StepView.RunSteps | app/page.tsx:446-463 | every message of a run carries a step between 1 and 4 |
| StepView.AuthenticationRowsFindNothing | components/protocol-visualization.tsx:75-77 | the rows of steps 5-8 never find a message from a run |
| StepView.NothingBeyondFour | components/protocol-visualization.tsx:75-77 | in a log of steps 1-4 no step above 4 is found |
| MessageLog.TruncateContent | components/message-log.tsx:28-31 | a text of at most 100 characters is unchanged, a longer one becomes its first 100 characters plus "...", and the result has at most 103 |
| MessageLog.TruncateShape | components/message-log.tsx:30 | what is shown begins with the text, and for a text not already ending in "..." the ellipsis appears iff something was cut |
| MessageLog.TruncateIdempotent | components/message-log.tsx:30 | truncating twice equals truncating once |
| MessageLog.GetPhaseColor | components/message-log.tsx:13-22 | blue iff registration, green iff authentication, grey otherwise |
| MessageLog.PhaseColoursDistinct | components/message-log.tsx:13-22 | the two phases get distinct colours, neither of them the default |
| MessageLog.LockLabel | components/message-log.tsx:65-70 | "Encrypted" iff the message is encrypted, "Plain" iff not |
| MessageLog.RunShownEncrypted | components/message-log.tsx:65-70 | every message of a run is labelled "Encrypted" |

## Left out

- Rendering: the canvas topology, charts, metric cards, node positions (their trigonometry), colours and `toFixed` displays carry no engine logic.
- Toasts, CSV and PNG export and DOM access are foreign I/O.
- The `setTimeout` delays between messages are suspension points only. Each handshake is modelled as its steps in sequence, and no concurrent click is modelled.
- How many snapshots the effect at `app/page.tsx:241-245` records during a run depends on React's render batching. History updates are an operation of their own, `MetricsChanged`, and are not part of `StartSimulation`.
- `Math.random()`, `Date.now()` and `generateKey()` are parameters, not modelled generators. The base-36 shape of their strings is not modelled.
- `JSON.stringify` is left out: truncation takes the printed text as a given string.
- `Number.parseInt` is left out: the count fields take its result as an `Option<int>`.
- Hashing.FoldString: a character code is the Dafny `char` value. JavaScript's `charCodeAt` reads UTF-16 code units, which differ only above U+FFFF.
- IEEE 754 rounding of `throughput`, `averageProcessingTime` and the snapshot divisions is not modelled; they are exact reals.
- The titles and descriptions of the protocol step table are display text and are left out.
- `kk` (`app/page.tsx:360`) is computed and never used. It is not a state change and appears only through `RunFacts.AuthenticateContents`.
- The `psidev` that authentication sends comes from the node list of the render the run started in. On a freshly built network it is undefined. The model reproduces this but proves nothing beyond `RunFacts.AuthenticateContents`.
- RunFacts.RunLog, StepView.RunSteps and MessageLog.RunShownEncrypted require a USP in the registry. Without one the registrations log nothing, which `RunFacts.RegistrationWithoutUsp` states. The run-level closed forms are stated only for registries with a USP.
- Selection.ToggleInvariant: the length bound is stated for a bound of at least 1. The select at `components/simulation-comparison.tsx:765-772` offers only 2, 3, 4 and 6, while the model allows any integer. The `setMaxSelections` setter itself is not a separate operation.

## Findings

| source | as written | input that shows it | evidently intended | confidence | as-written member | corrected member |
|---|---|---|---|---|---|---|
| app/page.tsx:467-480 | the saved `SimulationResult` reads `metrics` and `metricsHistory` from the render Start was clicked in, so `finalMetrics` holds the counters from before the run | Reset, then Start on the default network (3 EVs, 2 stations): the run ends with 5 successes, but the saved record shows 0 | save the counters and history the run ended with | not executed | Engine.SavedMetricsMissTheRun | Engine.Simulation.StartSimulationReportingRun |
| components/simulation-controls.tsx:58 | `parseInt(value) \|\| 1` (here and at line 80) lets any non-zero integer through, so a negative count reaches the engine; the summary figures then disagree with what the engine builds and logs | type -2 EVs with 2 stations: "Total Nodes" shows 1 and "Protocol Steps" -8, while the network has 3 nodes and a run logs 4 messages | hold the count to the field's `min`..`max` range (1-10 EVs, 1-5 stations) | not executed | Controls.NegativeCountBreaksSummary | Controls.CountInRange |
