/**
 The header classifier: six verdicts read off the response headers of the first
 successful GET. Each verdict is the OR of two `contains` tests, and `contains` is
 substring search on the FIRST value of a header (the empty string when the header
 is absent). A test against the empty pattern therefore always holds, so five of
 the six classifiers detect their component for every header collection.
 */
module Headers {
  import opened Strings

  /** An HTTP header collection: each (canonical) key maps to its values in order. */
  type Header = map<string, seq<string>>

  /** The first value of a header is present and contains `needle`. */
  ghost predicate FirstValueContains(h: Header, key: string, needle: string) {
    key in h && |h[key]| > 0 && Occurs(h[key][0], needle)
  }

  /** http.Header.Get: the first value of `key`, or "" when there is none. */
  function Get(h: Header, key: string): (v: string)
    ensures key in h && |h[key]| > 0 ==> v == h[key][0]
    ensures key !in h || |h[key]| == 0 ==> v == ""
  {
    if key in h && |h[key]| > 0 then h[key][0] else ""
  }

  /** `contains`: substring test on the first value of `key`. An empty `value`
      matches whatever the headers hold, an absent header included. */
  function HeaderContains(h: Header, key: string, value: string): (r: bool)
    ensures value == "" ==> r
    ensures value != "" ==> (r <==> FirstValueContains(h, key, value))
  {
    NothingOccursInEmpty(value);
    Contains(Get(h, key), value)
  }

  /** CDN: a `Server` value mentioning "cloudflare" or an `X-CDN` value mentioning
      "akamai", both case-sensitive; never for a collection without those headers. */
  function CheckCdn(h: Header): (r: bool)
    ensures r <==> FirstValueContains(h, "Server", "cloudflare")
                   || FirstValueContains(h, "X-CDN", "akamai")
    ensures "Server" !in h && "X-CDN" !in h ==> !r
  {
    HeaderContains(h, "Server", "cloudflare") || HeaderContains(h, "X-CDN", "akamai")
  }

  /** Load balancer: `X-Forwarded-For` or `Via` against the empty pattern, which
      holds for every header collection. */
  function CheckLoadBalancer(h: Header): (r: bool)
    ensures r
  {
    HeaderContains(h, "X-Forwarded-For", "") || HeaderContains(h, "Via", "")
  }

  /** Firewall: `CF-RAY` or `X-Sucuri-ID` against the empty pattern; always holds. */
  function CheckFirewall(h: Header): (r: bool)
    ensures r
  {
    HeaderContains(h, "CF-RAY", "") || HeaderContains(h, "X-Sucuri-ID", "")
  }

  /** Rate limiting: `Retry-After` or `X-RateLimit-Limit` against the empty
      pattern; always holds. */
  function CheckRateLimiting(h: Header): (r: bool)
    ensures r
  {
    HeaderContains(h, "Retry-After", "") || HeaderContains(h, "X-RateLimit-Limit", "")
  }

  /** Autoscaling: `X-Amzn-Trace-Id` or `X-Request-Id` against the empty
      pattern; always holds. */
  function CheckAutoscaling(h: Header): (r: bool)
    ensures r
  {
    HeaderContains(h, "X-Amzn-Trace-Id", "") || HeaderContains(h, "X-Request-Id", "")
  }

  /** WAF: `X-Mod-Security` or `X-Sucuri-ID` against the empty pattern; always holds. */
  function CheckWaf(h: Header): (r: bool)
    ensures r
  {
    HeaderContains(h, "X-Mod-Security", "") || HeaderContains(h, "X-Sucuri-ID", "")
  }

  /** The six header-based detections, in the order the analysis reports them. */
  datatype HeaderCheck = Cdn | LoadBalancer | Firewall | RateLimiting | Autoscaling | Waf

  const ReportOrder: seq<HeaderCheck> :=
    [Cdn, LoadBalancer, Firewall, RateLimiting, Autoscaling, Waf]

  function Classify(h: Header, c: HeaderCheck): bool {
    match c
    case Cdn => CheckCdn(h)
    case LoadBalancer => CheckLoadBalancer(h)
    case Firewall => CheckFirewall(h)
    case RateLimiting => CheckRateLimiting(h)
    case Autoscaling => CheckAutoscaling(h)
    case Waf => CheckWaf(h)
  }

  /** Only the CDN detection can come out negative; it does exactly when neither
      fingerprint is present. */
  lemma OnlyCdnCanFail(h: Header, c: HeaderCheck)
    ensures !Classify(h, c) <==>
              c == Cdn && !FirstValueContains(h, "Server", "cloudflare")
                       && !FirstValueContains(h, "X-CDN", "akamai")
  {
  }

  /** The presence checks are not key-existence tests: with none of their headers
      present they still report detection. */
  lemma PresenceChecksWithoutHeaders()
    ensures var h: Header := map[];
            CheckLoadBalancer(h) && CheckFirewall(h) && CheckRateLimiting(h)
            && CheckAutoscaling(h) && CheckWaf(h) && !CheckCdn(h)
  {
  }

  /** The CDN fingerprints are matched case-sensitively. */
  lemma CdnMatchIsCaseSensitive()
    ensures !CheckCdn(map["Server" := ["Cloudflare"]])
  {
    var s := "Cloudflare";
    forall j
      ensures !MatchAt(s, "cloudflare", j)
    {
      if 0 <= j && j + 10 <= |s| {
        assert s[j..j + 10][0] == 'C';
      }
    }
  }

  /** A fingerprint anywhere inside the first value is enough. */
  lemma CdnMatchIsSubstring()
    ensures CheckCdn(map["Server" := ["cloudflare-nginx"]])
  {
    assert MatchAt("cloudflare-nginx", "cloudflare", 0);
  }

  /** Only the first value of a header is inspected. */
  lemma CdnReadsFirstValueOnly()
    ensures !CheckCdn(map["X-CDN" := ["", "akamai"]])
  {
    NothingOccursInEmpty("akamai");
  }
}
