/**
 The analysis run: validate the entered URL, fetch it once to capture the
 response headers, report the six header-based detections, then run the latency,
 certificate and fuzzing probes in that order. The console output is modelled as
 a log of findings; the network is modelled as the outcomes it hands back.
 */
module Analyzer {
  import opened Wrappers
  import opened Strings
  import opened Headers
  import opened Latency
  import opened Ssl
  import opened Fuzz

  /** The initial GET: a transport error, or the response's header collection. */
  datatype Page = PageError | Page(headers: Header)

  /** What the network answers during one run, request by request. */
  datatype Network = Network(
    page: Page,            // the GET in the analysis itself
    timing: Timing,        // the timed GET of the latency probe
    tls: DialOutcome,      // the TLS dial of the certificate probe
    traversal: Response,   // the path-traversal GET of the fuzzing probe
    burst: seq<Response>)  // the burst GETs of the fuzzing probe, in order

  /** One reported finding, in the order the run reports them. */
  datatype Event =
    | RejectedInput
    | PageFetchFailed
    | HeaderFinding(check: HeaderCheck, detected: bool)
    | LatencyFinding(latency: LatencyVerdict)
    | SslFinding(ssl: SslVerdict)
    | FuzzFinding(fuzz: FuzzReport)

  /** Position of a header check in the report. */
  function CheckPosition(c: HeaderCheck): nat {
    match c
    case Cdn => 0
    case LoadBalancer => 1
    case Firewall => 2
    case RateLimiting => 3
    case Autoscaling => 4
    case Waf => 5
  }

  /** The stage of the run an event belongs to: 0 for an abort, 1-6 for the
      header detections, 7 latency, 8 certificate, 9 fuzzing. */
  function Stage(e: Event): nat {
    match e
    case RejectedInput => 0
    case PageFetchFailed => 0
    case HeaderFinding(c, _) => 1 + CheckPosition(c)
    case LatencyFinding(_) => 7
    case SslFinding(_) => 8
    case FuzzFinding(_) => 9
  }

  /** Input validation: the trimmed input is the target when it begins with "http". */
  function ValidateTarget(input: string): (r: Option<string>)
    ensures r.None? <==> !MatchAt(TrimSpace(input), "http", 0)
    ensures r.Some? ==> Trimmed(r.value) && |r.value| >= 4 && r.value[..4] == "http"
    ensures r.Some? ==> PaddedBy(input, r.value)
  {
    var url := TrimSpace(input);
    if HasPrefix(url, "http") then Some(url) else None
  }

  /** White space around the input never changes the verdict on it. */
  lemma ValidationIgnoresPadding(ws1: string, u: string, ws2: string)
    requires AllSpace(ws1) && AllSpace(ws2) && Trimmed(u)
    ensures ValidateTarget(ws1 + u + ws2) == (if MatchAt(u, "http", 0) then Some(u) else None)
  {
    TrimSpacePadding(ws1, u, ws2);
  }

  /** The i-th event of `log` belongs to stage `first + i`. */
  ghost predicate StagesFrom(log: seq<Event>, first: nat) {
    forall i :: 0 <= i < |log| ==> Stage(log[i]) == first + i
  }

  lemma StagesAppend(a: seq<Event>, b: seq<Event>, first: nat)
    requires StagesFrom(a, first) && StagesFrom(b, first + |a|)
    ensures StagesFrom(a + b, first)
  {
    forall i | 0 <= i < |a + b|
      ensures Stage((a + b)[i]) == first + i
    {
      if i >= |a| {
        assert (a + b)[i] == b[i - |a|];
      }
    }
  }

  /** The six header detections, in report order. */
  function HeaderFindings(h: Header): (events: seq<Event>)
    ensures |events| == 6 && StagesFrom(events, 1)
    ensures forall i :: 0 <= i < 6 ==>
              events[i] == HeaderFinding(ReportOrder[i], Classify(h, ReportOrder[i]))
  {
    [ HeaderFinding(Cdn, CheckCdn(h)),
      HeaderFinding(LoadBalancer, CheckLoadBalancer(h)),
      HeaderFinding(Firewall, CheckFirewall(h)),
      HeaderFinding(RateLimiting, CheckRateLimiting(h)),
      HeaderFinding(Autoscaling, CheckAutoscaling(h)),
      HeaderFinding(Waf, CheckWaf(h)) ]
  }

  /** The findings of an analysis whose initial GET succeeded, in report order:
      the six header detections, latency, certificate, then fuzzing when it ran. */
  function Findings(h: Header, latency: LatencyVerdict, ssl: SslVerdict, fuzz: Option<FuzzReport>): (log: seq<Event>)
    ensures |log| == (if fuzz.None? then 8 else 9)
    ensures StagesFrom(log, 1)
    ensures forall i :: 0 <= i < 6 ==>
              log[i] == HeaderFinding(ReportOrder[i], Classify(h, ReportOrder[i]))
    ensures log[6] == LatencyFinding(latency) && log[7] == SslFinding(ssl)
    ensures fuzz.Some? ==> log[8] == FuzzFinding(fuzz.value)
  {
    var head := HeaderFindings(h);
    var probes := [LatencyFinding(latency), SslFinding(ssl)];
    assert StagesFrom(probes, 7);
    StagesAppend(head, probes, 1);
    var log := head + probes;
    match fuzz
    case None => log
    case Some(report) =>
      var tail := [FuzzFinding(report)];
      assert StagesFrom(tail, 9);
      StagesAppend(log, tail, 1);
      log + tail
  }

  /** The analysis of a validated URL. A failed initial GET ends it at once;
      otherwise every stage reports exactly once and in order, except that the
      fuzzing probe never runs when the certificate probe panics. */
  function Analyze(url: string, net: Network): (log: seq<Event>)
    requires |net.burst| >= BurstSize
    ensures net.page.PageError? <==> log == [PageFetchFailed]
    ensures net.page.Page? ==> |log| == (if AbortsRun(url) then 8 else 9) && StagesFrom(log, 1)
    ensures net.page.Page? ==> forall i :: 0 <= i < 6 ==>
              log[i] == HeaderFinding(ReportOrder[i], Classify(net.page.headers, ReportOrder[i]))
    ensures net.page.Page? ==> log[6] == LatencyFinding(CheckLatency(net.timing))
                               && log[7] == SslFinding(SslProbe(url, net.tls))
    ensures net.page.Page? && !AbortsRun(url) ==>
              log[8] == FuzzFinding(FuzzProbe(url, net.traversal, net.burst))
  {
    match net.page
    case PageError => [PageFetchFailed]
    case Page(h) =>
      var ssl := SslProbe(url, net.tls);
      var fuzz := if ssl.NoSchemeSeparator? then None
                  else Some(FuzzProbe(url, net.traversal, net.burst));
      Findings(h, CheckLatency(net.timing), ssl, fuzz)
  }

  /** One interactive run on the entered line. */
  function Run(input: string, net: Network): (log: seq<Event>)
    requires |net.burst| >= BurstSize
    ensures |log| >= 1
    ensures log == [RejectedInput] <==> !MatchAt(TrimSpace(input), "http", 0)
    ensures (exists i :: 0 <= i < |log| && Stage(log[i]) > 0) <==>
              MatchAt(TrimSpace(input), "http", 0) && net.page.Page?
    ensures forall i, j :: 0 <= i < j < |log| ==> Stage(log[i]) < Stage(log[j])
    ensures MatchAt(TrimSpace(input), "http", 0) ==> log == Analyze(TrimSpace(input), net)
  {
    match ValidateTarget(input)
    case None => [RejectedInput]
    case Some(url) =>
      var log := Analyze(url, net);
      assert net.page.Page? ==> Stage(log[0]) == 1;
      log
  }

  /** A target "https://" + host, typed with trailing white space (the line
      ending, say), is accepted as the trimmed URL and dialled at host:443. */
  lemma HttpsTarget(host: string, ws: string)
    requires !Occurs(host, "//") && AllSpace(ws)
    requires |host| > 0 && !IsSpace(host[|host| - 1])
    ensures ValidateTarget("https://" + host + ws) == Some("https://" + host)
    ensures MatchAt("https://" + host, "https", 0) && Contains("https://" + host, "//")
    ensures DialAddress("https://" + host) == host + ":443"
  {
    var url := "https://" + host;
    assert url[0] == 'h' && url[|url| - 1] == host[|host| - 1];
    assert "https://" + host + ws == "" + url + ws;
    assert MatchAt(url, "http", 0) && MatchAt(url, "https", 0) by {
      assert url[0..4] == "http" && url[0..5] == "https";
    }
    ValidationIgnoresPadding("", url, ws);
    assert url == "https://" + host + "";
    DialAddressOf(host, "");
  }

  /** The analysis of an HTTPS URL that has a dial address, when the site
      answers with no headers at all. */
  lemma HeaderlessAnalysis(url: string, net: Network)
    requires MatchAt(url, "https", 0) && Contains(url, "//")
    requires |net.burst| >= BurstSize
    requires net.page == Page(map[])
    ensures var log := Analyze(url, net);
            && |log| == 9
            && log[0] == HeaderFinding(Cdn, false)
            && (forall i :: 1 <= i < 6 ==> log[i] == HeaderFinding(ReportOrder[i], true))
            && log[7].SslFinding? && (log[7].ssl.DialFailed? || log[7].ssl.Inspected?)
            && log[7].ssl.address == DialAddress(url)
            && log[8] == FuzzFinding(FuzzProbe(url, net.traversal, net.burst))
  {
    var log := Analyze(url, net);
    var ssl := SslProbe(url, net.tls);
    assert ssl.DialFailed? || ssl.Inspected?;
    assert log[7] == SslFinding(ssl);
    assert ReportOrder[0] == Cdn;
    forall i | 1 <= i < 6
      ensures log[i] == HeaderFinding(ReportOrder[i], true)
    {
      OnlyCdnCanFail(map[], ReportOrder[i]);
    }
  }

  /** The end-to-end case of an HTTPS site answering with no headers at all: only
      the CDN detection is negative, every other header detection is positive,
      the certificate probe dials host:443 and the fuzzing probe runs against the
      traversal path of the trimmed URL. */
  lemma HeaderlessSiteScenario(host: string, ws: string, net: Network)
    requires !Occurs(host, "//") && AllSpace(ws)
    requires |host| > 0 && !IsSpace(host[|host| - 1])
    requires |net.burst| >= BurstSize
    requires net.page == Page(map[])
    ensures var log := Run("https://" + host + ws, net);
            && |log| == 9
            && log[0] == HeaderFinding(Cdn, false)
            && (forall i :: 1 <= i < 6 ==> log[i] == HeaderFinding(ReportOrder[i], true))
            && log[7].SslFinding? && (log[7].ssl.DialFailed? || log[7].ssl.Inspected?)
            && log[7].ssl.address == host + ":443"
            && log[8].FuzzFinding?
            && log[8].fuzz.target == "https://" + host + "/../../../../etc/passwd"
  {
    HttpsTarget(host, ws);
    var url := "https://" + host;
    assert Run("https://" + host + ws, net) == Analyze(url, net);
    HeaderlessAnalysis(url, net);
  }

  /** Input that does not begin with "http" once trimmed runs no probe at all,
      whatever the network would have answered. */
  lemma RejectedInputRunsNothing(input: string, n1: Network, n2: Network)
    requires |n1.burst| >= BurstSize && |n2.burst| >= BurstSize
    requires !MatchAt(TrimSpace(input), "http", 0)
    ensures Run(input, n1) == Run(input, n2) == [RejectedInput]
  {
  }
}
