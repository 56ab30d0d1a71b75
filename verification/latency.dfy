/**
 The latency probe: one GET, timed from just before the request until its
 response headers arrive, classified against a fixed 100 ms threshold. The clock
 and the request are outside the model; the probe receives their outcome.
 */
module Latency {

  /** time.Millisecond, in nanoseconds (Go's time.Duration unit). */
  const Millisecond: int := 1_000_000

  /** Faster than this suggests a nearby CDN edge. */
  const Threshold: int := 100 * Millisecond

  /** The timed GET: a transport error, or the elapsed time in nanoseconds. */
  datatype Timing = TimingError | Elapsed(ns: int)

  datatype LatencyVerdict = FetchFailed | LikelyCdn | CdnNotDetected

  /** A transport error gives no verdict; otherwise "likely CDN" exactly when the
      response took strictly less than 100 ms. */
  function CheckLatency(t: Timing): (v: LatencyVerdict)
    ensures v == FetchFailed <==> t.TimingError?
    ensures v == LikelyCdn <==> t.Elapsed? && t.ns < 100_000_000
    ensures v == CdnNotDetected <==> t.Elapsed? && t.ns >= 100_000_000
  {
    match t
    case TimingError => FetchFailed
    case Elapsed(d) => if d < Threshold then LikelyCdn else CdnNotDetected
  }

  /** A faster response never loses the "likely CDN" verdict a slower one gets. */
  lemma FasterIsNoLessLikely(fast: int, slow: int)
    requires fast <= slow
    ensures CheckLatency(Elapsed(slow)) == LikelyCdn ==> CheckLatency(Elapsed(fast)) == LikelyCdn
    ensures CheckLatency(Elapsed(fast)) == CdnNotDetected ==> CheckLatency(Elapsed(slow)) == CdnNotDetected
  {
  }

  /** The threshold is strict: exactly 100 ms is not detected, 50 ms is, 150 ms is not. */
  lemma ThresholdIsStrict()
    ensures CheckLatency(Elapsed(100 * Millisecond)) == CdnNotDetected
    ensures CheckLatency(Elapsed(100 * Millisecond - 1)) == LikelyCdn
    ensures CheckLatency(Elapsed(50 * Millisecond)) == LikelyCdn
    ensures CheckLatency(Elapsed(150 * Millisecond)) == CdnNotDetected
  {
  }
}
