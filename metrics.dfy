/** The metric updates of app/page.tsx: the message counters of `addMessage`
    (lines 209-214), the registration and authentication success updates
    (lines 296-300, 412-418), and the bounded history of
    `updateMetricsHistory` (lines 217-237). */
module MetricsRules {
  import opened Types

  const HistoryCapacity: nat := 50

  function Min(a: int, b: int): int
  {
    if a < b then a else b
  }

  /** `networkUtilization` as `addMessage` derives it from the message count. */
  predicate UtilizationTracksMessages(m: Metrics)
  {
    m.networkUtilization == Min(100, m.totalMessages * 2)
  }

  /** The counters `addMessage` bumps for one more message. */
  function Counted(m: Metrics): (r: Metrics)
    ensures r.totalMessages == m.totalMessages + 1
    ensures UtilizationTracksMessages(r)
    ensures r.(totalMessages := m.totalMessages, networkUtilization := m.networkUtilization) == m
  {
    m.(totalMessages := m.totalMessages + 1,
       networkUtilization := Min(100, (m.totalMessages + 1) * 2))
  }

  /** The update at the end of an EV registration with step delay `speed`. */
  function AfterEvRegistration(m: Metrics, speed: int): (r: Metrics)
    ensures r.successfulAuthentications == m.successfulAuthentications + 1
    ensures r.endToEndDelay == m.endToEndDelay + 2 * speed
    ensures r.(successfulAuthentications := m.successfulAuthentications, endToEndDelay := m.endToEndDelay) == m
  {
    m.(successfulAuthentications := m.successfulAuthentications + 1,
       endToEndDelay := m.endToEndDelay + speed * 2)
  }

  /** `(prev.averageProcessingTime + simulationSpeed * 4) / 2`: halfway between
      the previous value and the latest sample. */
  function Blend(previous: real, speed: int): (r: real)
    ensures r - previous == ((4 * speed) as real - previous) / 2.0
  {
    (previous + (speed * 4) as real) / 2.0
  }

  /** The update at the end of an authentication with step delay `speed`. */
  function AfterAuthentication(m: Metrics, speed: int): (r: Metrics)
    requires speed > 0
    ensures r.successfulAuthentications == m.successfulAuthentications + 1
    ensures r.throughput == m.throughput + 60000.0 / speed as real
    ensures r.endToEndDelay == m.endToEndDelay + 4 * speed
    ensures r.averageProcessingTime == Blend(m.averageProcessingTime, speed)
    ensures r.failedAuthentications == m.failedAuthentications
    ensures r.totalMessages == m.totalMessages && r.networkUtilization == m.networkUtilization
  {
    m.(successfulAuthentications := m.successfulAuthentications + 1,
       throughput := m.throughput + 60000.0 / speed as real,
       endToEndDelay := m.endToEndDelay + speed * 4,
       averageProcessingTime := Blend(m.averageProcessingTime, speed))
  }

  /** The blend stays in `[0, 4D)` once it starts there: it never reaches the sample. */
  lemma BlendBounded(previous: real, speed: int)
    requires speed > 0 && 0.0 <= previous < (4 * speed) as real
    ensures 0.0 <= Blend(previous, speed) < (4 * speed) as real
    ensures previous < Blend(previous, speed)
  {
  }

  function Pow2(k: nat): (r: real)
    ensures r >= 1.0
  {
    if k == 0 then 1.0 else 2.0 * Pow2(k - 1)
  }

  /** `averageProcessingTime` after `k` more authentications, starting from `a`. */
  function BlendsFrom(a: real, k: nat, speed: int): real
    decreases k
  {
    if k == 0 then a else BlendsFrom(Blend(a, speed), k - 1, speed)
  }

  /** Closed form: `k` blends move `a` to `4D + (a - 4D) / 2^k`. */
  lemma {:induction false} BlendsFromClosedForm(a: real, k: nat, speed: int)
    ensures BlendsFrom(a, k, speed) == (4 * speed) as real + (a - (4 * speed) as real) / Pow2(k)
    decreases k
  {
    var d := (4 * speed) as real;
    if k > 0 {
      BlendsFromClosedForm(Blend(a, speed), k - 1, speed);
      var p := Pow2(k - 1);
      assert Blend(a, speed) - d == (a - d) / 2.0;
      assert ((a - d) / 2.0) / p == (a - d) / (2.0 * p);
    }
  }

  /** From a fresh run (0) the value after `k` authentications is `4D(1 - 2^-k)`,
      which lies in `[0, 4D)`. */
  lemma ProcessingTimeAfterRun(k: nat, speed: int)
    requires speed > 0
    ensures BlendsFrom(0.0, k, speed) == (4 * speed) as real * (1.0 - 1.0 / Pow2(k))
    ensures 0.0 <= BlendsFrom(0.0, k, speed) < (4 * speed) as real
  {
    BlendsFromClosedForm(0.0, k, speed);
    var d, p := (4 * speed) as real, Pow2(k);
    assert d + (0.0 - d) / p == d * (1.0 - 1.0 / p);
    assert 0.0 < 1.0 / p <= 1.0;
  }

  /** `successful / (successful + failed) * 100`, or 0 when no handshake has finished. */
  function SuccessRate(m: Metrics): (r: real)
    ensures m.successfulAuthentications + m.failedAuthentications <= 0 ==> r == 0.0
    ensures m.successfulAuthentications >= 0 && m.failedAuthentications >= 0 ==> 0.0 <= r <= 100.0
    ensures m.successfulAuthentications > 0 && m.failedAuthentications == 0 ==> r == 100.0
  {
    var s, f := m.successfulAuthentications, m.failedAuthentications;
    if s + f > 0 then (s as real / (s + f) as real) * 100.0 else 0.0
  }

  /** The entry `updateMetricsHistory` builds at clock reading `now`
      (the delay shown in seconds). */
  function SnapshotOf(m: Metrics, now: int): (r: Snapshot)
    ensures r.timestamp == now && r.throughput == m.throughput
    ensures r.endToEndDelay * 1000.0 == m.endToEndDelay as real
    ensures r.networkUtilization == m.networkUtilization && r.successRate == SuccessRate(m)
  {
    Snapshot(now, m.throughput, m.endToEndDelay as real / 1000.0, m.networkUtilization, SuccessRate(m))
  }

  /** `[...prev, entry].slice(-50)`. */
  function AppendBounded(history: seq<Snapshot>, entry: Snapshot): (r: seq<Snapshot>)
    ensures |r| == Min(|history| + 1, HistoryCapacity)
    ensures r[|r| - 1] == entry
    ensures r == (history + [entry])[|history| + 1 - |r|..]
    ensures |history| < HistoryCapacity ==> r == history + [entry]
    ensures |history| >= HistoryCapacity ==> r == history[|history| - (HistoryCapacity - 1)..] + [entry]
  {
    var all := history + [entry];
    if |all| <= HistoryCapacity then all else all[|all| - HistoryCapacity..]
  }

  /** At capacity, appending evicts exactly the oldest entry. */
  lemma AppendAtCapacityEvictsOldest(history: seq<Snapshot>, entry: Snapshot)
    requires |history| == HistoryCapacity
    ensures AppendBounded(history, entry) == history[1..] + [entry]
  {
  }
}
