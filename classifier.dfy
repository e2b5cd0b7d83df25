/**
 * Latency classification and probe outcomes (`getStatusByLatency` and the
 * three event handlers of `checkConnection` in the backend).
 */
module Classifier {
  import opened Util

  /** The tri-state health signal: 'green', 'yellow', 'red'. */
  datatype Status = Green | Yellow | Red

  /** The two configured latency thresholds, in milliseconds. */
  datatype Thresholds = Thresholds(good: int, warning: int)

  /** Thresholds used when the configuration supplies none. */
  const DefaultThresholds := Thresholds(100, 300)

  /** The thresholds in force: the configured ones if there are any, otherwise the defaults. */
  function EffectiveThresholds(configured: Option<Thresholds>): (t: Thresholds)
    ensures configured.None? ==> t == DefaultThresholds
    ensures configured.Some? ==> t == configured.value
  {
    configured.GetOr(DefaultThresholds)
  }

  /** Rank of a status in the worst-of order green < yellow < red. */
  function Severity(s: Status): nat
  {
    match s
    case Green => 0
    case Yellow => 1
    case Red => 2
  }

  /** The status for a measured latency. */
  function StatusByLatency(latency: nat, t: Thresholds): (s: Status)
    ensures s == Green <==> latency < t.good
    ensures s == Yellow <==> t.good <= latency < t.warning
    ensures s == Red <==> t.good <= latency && t.warning <= latency
  {
    if latency < t.good then Green
    else if latency < t.warning then Yellow
    else Red
  }

  /** A larger latency never gets a healthier status. */
  lemma StatusByLatencyMonotone(a: nat, b: nat, t: Thresholds)
    requires a <= b
    ensures Severity(StatusByLatency(a, t)) <= Severity(StatusByLatency(b, t))
  {
  }

  /** With misordered thresholds there is no yellow band: at or above `good` is red. */
  lemma MisorderedThresholdsSkipYellow(latency: nat, t: Thresholds)
    requires t.warning <= t.good
    ensures StatusByLatency(latency, t) != Yellow
    ensures t.good <= latency ==> StatusByLatency(latency, t) == Red
  {
  }

  /** The default thresholds on a few sample latencies. */
  lemma DefaultThresholdExamples()
    ensures StatusByLatency(50, DefaultThresholds) == Green
    ensures StatusByLatency(99, DefaultThresholds) == Green
    ensures StatusByLatency(100, DefaultThresholds) == Yellow
    ensures StatusByLatency(150, DefaultThresholds) == Yellow
    ensures StatusByLatency(300, DefaultThresholds) == Red
  {
  }

  /** What the socket reported: connected after some rounded milliseconds, timed out, or errored. */
  datatype ProbeOutcome = Connected(latency: nat) | TimedOut | Errored

  /** The `status` string of a probe result: 'connected', 'timeout' or 'error'. */
  datatype ConnectionState = ConnectedState | TimeoutState | ErrorState

  /** The object `checkConnection` resolves with. */
  datatype ProbeResult = ProbeResult(state: ConnectionState, latency: Option<nat>, statusCode: Status)

  /** `checkConnection`: classify what the socket reported. */
  function CheckConnection(o: ProbeOutcome, t: Thresholds): (r: ProbeResult)
    ensures r.latency.None? <==> !o.Connected?
    ensures o.Connected? ==> r.state == ConnectedState && r.latency == Some(o.latency)
                             && r.statusCode == StatusByLatency(o.latency, t)
    ensures o.TimedOut? ==> r.state == TimeoutState && r.statusCode == Red
    ensures o.Errored? ==> r.state == ErrorState && r.statusCode == Red
  {
    match o
    case Connected(ms) => ProbeResult(ConnectedState, Some(ms), StatusByLatency(ms, t))
    case TimedOut => ProbeResult(TimeoutState, None, Red)
    case Errored => ProbeResult(ErrorState, None, Red)
  }

  /** A result without a latency is always red; a non-red result always carries one. */
  lemma NoLatencyMeansRed(o: ProbeOutcome, t: Thresholds)
    ensures CheckConnection(o, t).latency.None? ==> CheckConnection(o, t).statusCode == Red
    ensures CheckConnection(o, t).statusCode != Red ==> CheckConnection(o, t).latency.Some?
  {
  }
}
