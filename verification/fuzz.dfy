/**
 The fuzzing probe. One GET to the URL with a path-traversal suffix decides the
 WAF verdict (403 or 404). Then up to ten plain GETs are sent one after another,
 stopping at the first transport error. If all ten come back, the rate-limit
 verdict is read from the status of the TRAVERSAL response, not from any burst
 response; the burst's statuses therefore never influence a verdict. Requests,
 their responses and the 200 ms pauses are outside the model: the probe
 receives the outcome of each request.
 */
module Fuzz {
  import opened Wrappers

  const TraversalSuffix: string := "/../../../../etc/passwd"

  /** Number of plain requests in the burst. */
  const BurstSize: nat := 10

  const StatusForbidden: int := 403
  const StatusNotFound: int := 404
  const StatusTooManyRequests: int := 429

  /** The outcome of one request: a transport error or a response status. */
  datatype Response = TransportError | Status(code: int)

  /** What the burst loop did: how many requests it issued and whether every one
      of them came back. */
  datatype Burst = Burst(issued: nat, completed: bool)

  /** The burst loop from iteration `i` on: issue request `i`; a transport error
      ends the probe, otherwise go on until `BurstSize` requests have been issued. */
  function BurstFrom(burst: seq<Response>, i: nat): (b: Burst)
    requires i <= BurstSize <= |burst|
    ensures i <= b.issued <= BurstSize
    ensures b.completed <==> forall j :: i <= j < BurstSize ==> burst[j].Status?
    ensures b.completed ==> b.issued == BurstSize
    ensures !b.completed ==> i < b.issued && burst[b.issued - 1].TransportError?
                             && forall j :: i <= j < b.issued - 1 ==> burst[j].Status?
    decreases BurstSize - i
  {
    if i == BurstSize then Burst(BurstSize, true)
    else if burst[i].TransportError? then Burst(i + 1, false)
    else BurstFrom(burst, i + 1)
  }

  /** The probe's findings: the traversal target, the WAF verdict, the number of
      burst requests issued and the rate-limit verdict (None where the probe
      stopped before reaching that verdict). */
  datatype FuzzReport = FuzzReport(target: string, waf: Option<bool>, issued: nat, rateLimit: Option<bool>)

  function FuzzProbe(url: string, traversal: Response, burst: seq<Response>): (r: FuzzReport)
    requires |burst| >= BurstSize
    ensures r.target == url + "/../../../../etc/passwd"
    ensures r.waf.None? <==> traversal.TransportError?
    ensures r.waf == Some(true) <==> traversal == Status(403) || traversal == Status(404)
    ensures traversal.TransportError? ==> r.issued == 0 && r.rateLimit.None?
    ensures r.issued <= 10
    ensures r.rateLimit.Some? <==> traversal.Status? && forall j :: 0 <= j < 10 ==> burst[j].Status?
    ensures r.rateLimit.Some? ==> r.issued == 10 && (r.rateLimit.value <==> traversal.code == 429)
    ensures traversal.Status? && r.rateLimit.None? ==>
              0 < r.issued && burst[r.issued - 1].TransportError?
              && forall j :: 0 <= j < r.issued - 1 ==> burst[j].Status?
  {
    var target := url + TraversalSuffix;
    match traversal
    case TransportError => FuzzReport(target, None, 0, None)
    case Status(code) =>
      var waf := code == StatusForbidden || code == StatusNotFound;
      var b := BurstFrom(burst, 0);
      var rateLimit := if b.completed then Some(code == StatusTooManyRequests) else None;
      FuzzReport(target, Some(waf), b.issued, rateLimit)
  }

  /** The burst loop sees only whether each request failed, never its status. */
  lemma {:induction false} BurstSeesOnlyFailures(b1: seq<Response>, b2: seq<Response>, i: nat)
    requires i <= BurstSize <= |b1| && BurstSize <= |b2|
    requires forall j :: i <= j < BurstSize ==> b1[j].TransportError? == b2[j].TransportError?
    ensures BurstFrom(b1, i) == BurstFrom(b2, i)
    decreases BurstSize - i
  {
    if i < BurstSize && !b1[i].TransportError? {
      BurstSeesOnlyFailures(b1, b2, i + 1);
    }
  }

  /** Two bursts that fail at the same requests give the same report, whatever
      statuses their responses carry: rate limiting is never read from the burst. */
  lemma RateLimitIgnoresBurstStatuses(url: string, traversal: Response, b1: seq<Response>, b2: seq<Response>)
    requires |b1| >= BurstSize && |b2| >= BurstSize
    requires forall j :: 0 <= j < BurstSize ==> b1[j].TransportError? == b2[j].TransportError?
    ensures FuzzProbe(url, traversal, b1) == FuzzProbe(url, traversal, b2)
  {
    BurstSeesOnlyFailures(b1, b2, 0);
  }

  /** A throttled traversal request with a clean burst reports rate limiting
      (and no WAF). */
  lemma ThrottledTraversalReportsRateLimit(url: string, burst: seq<Response>)
    requires |burst| >= BurstSize
    requires forall j :: 0 <= j < |burst| ==> burst[j] == Status(200)
    ensures FuzzProbe(url, Status(429), burst).rateLimit == Some(true)
    ensures FuzzProbe(url, Status(429), burst).waf == Some(false)
  {
  }

  /** A burst answered only with 429 is not noticed when the traversal request
      came back 200. */
  lemma ThrottledBurstGoesUnnoticed(url: string, burst: seq<Response>)
    requires |burst| >= BurstSize
    requires forall j :: 0 <= j < |burst| ==> burst[j] == Status(429)
    ensures FuzzProbe(url, Status(200), burst).rateLimit == Some(false)
  {
  }

  /** The WAF verdict survives a failing burst: it is reached before the burst. */
  lemma WafVerdictBeforeBurst(url: string, code: int, burst: seq<Response>)
    requires |burst| >= BurstSize && burst[0].TransportError?
    ensures FuzzProbe(url, Status(code), burst).waf == Some(code == 403 || code == 404)
    ensures FuzzProbe(url, Status(code), burst).issued == 1
    ensures FuzzProbe(url, Status(code), burst).rateLimit == None
  {
  }
}
