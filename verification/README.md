# Website infrastructure analyzer: a Dafny model of its classification layer

The analyzer asks for a URL and probes it to guess which infrastructure sits in
front of it: a CDN, a load balancer, a firewall, rate limiting, autoscaling or a
WAF. It reads the headers of one GET response, times a second GET, inspects the
issuer of the TLS certificate, and sends a path-traversal request followed by a
burst of ten plain requests. Each probe prints a verdict.

This project models every decision the analyzer makes, as pure Dafny functions.
The network, the clock and the console are not modelled. Each network call is
replaced by its outcome, passed in as data: a header map, an elapsed time in
nanoseconds, a TLS handshake outcome carrying the issuer organisation, and a
status or transport error for each fuzzing request. The printed output becomes
a log of findings (`Analyzer.Event`).

Modules, one per component:

- `Strings` (strings.dfy): the Go `strings` functions the verdicts use. These
  are `Index`, `Contains`, `HasPrefix`, `Split`, `Join` and `TrimSpace`. Each is
  tied to a ghost reference definition: `MatchAt`, `Occurs`, `FirstAt`,
  `Delimits`, `Pieces`, `Concat` and `AllSpace`.
- `Headers` (headers.dfy): `http.Header.Get`, `contains` and the six header
  classifiers.
- `Latency` (latency.dfy): the 100 ms threshold.
- `Ssl` (ssl.dfy): the "https" prefix test, the dial address, and the issuer
  verdict.
- `Fuzz` (fuzz.dfy): the traversal verdict, the burst loop, and the rate-limit
  verdict.
- `Analyzer` (analyzer.dfy): input validation, the order of the probes, and the
  points where a run stops.
- `Wrappers` (wrappers.dfy): `Option`.

## Behaviour kept as the code has it

- **Presence checks always hold.** `contains(h, k, "")` calls
  `strings.Contains(h.Get(k), "")`, and that is true for every string,
  including the `""` that `Get` returns for an absent key. So
  `checkLoadBalancer`, `checkFirewall`, `checkRateLimiting`, `checkAutoscaling`
  and `checkWAF` report detection for every header collection, even an empty
  one. They are not key-presence tests: an absent key still matches the empty
  pattern. The model follows the code. `Headers.PresenceChecksWithoutHeaders` and
  `Analyzer.HeaderlessSiteScenario` show the difference.
- **Rate limiting reads the traversal status.** The fuzzing probe decides
  rate limiting from the status of the traversal response, not from the burst
  responses. The model keeps this. `Fuzz.RateLimitIgnoresBurstStatuses` proves
  that the burst's statuses never change the report. `Fuzz.ThrottledBurstGoesUnnoticed`
  shows a burst answered only with 429 that is still reported as "not
  detected".
- **A failed traversal request gives no verdict.** The code returns before
  printing any WAF verdict, so the model gives `waf == None` rather than "not
  detected".
- **The dial address can panic.** A URL that starts with "https" but contains
  no "//" makes `strings.Split(url, "//")[1]` panic. That ends the whole process
  before the fuzzing probe runs. `Ssl.DialAddress` requires a "//". `Ssl.SslProbe`
  returns `NoSchemeSeparator` instead of calling it, and `Analyzer.Analyze` then
  reports no fuzzing finding.
- **The dial address keeps the path.** The text after the first "//" is kept up
  to the next "//", so a path after the host is dialled too
  (`Ssl.DialAddressOf`).

## Model

| member | source | states |
|---|---|---|
| Strings.Index | analyzer.go:17 | the result is the leftmost occurrence of the pattern, or -1 exactly when the pattern occurs nowhere |
| Strings.Contains | analyzer.go:17 | true exactly when the pattern occurs somewhere; always true for the empty pattern |
| Strings.HasPrefix | analyzer.go:66 | true exactly when the string starts with the prefix |
| Strings.Split | analyzer.go:71 | the pieces are the text between consecutive leftmost, non-overlapping occurrences of the separator: the first is the text before the leftmost separator, and each later piece is the text before the leftmost separator in what follows the previous one; two or more pieces exactly when the separator occurs; no piece contains it; joining the pieces with it gives back the input |
| Strings.PiecesUnique | analyzer.go:71 | for a non-empty separator, a string has exactly one list of pieces, so the pieces `Split` returns are fully determined |
| Strings.SplitIsLeftmostNonOverlapping | analyzer.go:71 | "baaaaa" split on "aa" gives "b", "", "a": occurrences are taken leftmost and do not overlap |
| Strings.Join | analyzer.go:83 | with the empty separator, the plain concatenation of the parts; a single part is returned as is |
| Strings.OccursInConcat | analyzer.go:83 | a substring of any one part is a substring of the concatenation of all parts |
| Strings.TrimSpace | analyzer.go:201 | the result neither starts nor ends with white space, and it is the input with only white space removed on either side |
| Strings.TrimSpacePadding | analyzer.go:201 | trimming removes exactly the white-space padding around an already trimmed string |
| Strings.TrimSpaceShape | analyzer.go:201 | a suffix after leading white space, cut before trailing white space, has no white space at either end and differs from the input only by white space |
| Strings.TrimSpaceKeepsTrimmed | analyzer.go:201 | a string with no white space at either end is left unchanged |
| Strings.TrimSpaceIdempotent | analyzer.go:201 | trimming twice gives the same result as trimming once |
| Headers.Get | analyzer.go:17 | the first value of the key, or "" when the key is absent or has no values |
| Headers.HeaderContains | analyzer.go:16-18 | an empty pattern matches every header collection, including one without the key; a non-empty pattern matches exactly when the key's first value contains it |
| Headers.CheckCdn | analyzer.go:20-22 | detected exactly when the first Server value contains "cloudflare" or the first X-CDN value contains "akamai"; never when both headers are absent |
| Headers.CheckLoadBalancer | analyzer.go:24-26 | detected for every header collection |
| Headers.CheckFirewall | analyzer.go:28-30 | detected for every header collection |
| Headers.CheckRateLimiting | analyzer.go:32-34 | detected for every header collection |
| Headers.CheckAutoscaling | analyzer.go:36-38 | detected for every header collection |
| Headers.CheckWaf | analyzer.go:40-42 | detected for every header collection |
| Headers.OnlyCdnCanFail | analyzer.go:20-42 | a header check is negative exactly when it is the CDN check and neither fingerprint is present |
| Headers.PresenceChecksWithoutHeaders | analyzer.go:20-42 | with an empty header collection, the five presence checks are positive and the CDN check is negative |
| Headers.CdnMatchIsCaseSensitive | analyzer.go:21 | a Server value of "Cloudflare" (capital C) is not a CDN fingerprint |
| Headers.CdnMatchIsSubstring | analyzer.go:21 | "cloudflare" anywhere inside the Server value is enough |
| Headers.CdnReadsFirstValueOnly | analyzer.go:17-21 | "akamai" in the second X-CDN value is not seen |
| Latency.CheckLatency | analyzer.go:47-60 | a transport error gives no verdict; otherwise "likely CDN" exactly when the elapsed time is strictly below 100 ms, and "not detected" exactly when it is 100 ms or more |
| Latency.FasterIsNoLessLikely | analyzer.go:56 | the verdict is monotone in the elapsed time |
| Latency.ThresholdIsStrict | analyzer.go:56-60 | exactly 100 ms is "not detected"; 100 ms minus 1 ns and 50 ms are "likely CDN"; 150 ms is "not detected" |
| Ssl.DialAddress | analyzer.go:71-72 | the address ends in ":443"; before that comes the text after the leftmost "//", up to the next "//" or the end |
| Ssl.DialAddressIs | analyzer.go:71-72 | the leftmost "//" and the text it delimits determine the dial address uniquely |
| Ssl.SchemeSeparatorFirst | analyzer.go:71 | in a URL that starts with "https://", the leftmost "//" is the one after the scheme |
| Ssl.HostDelimited | analyzer.go:71 | a host without "//", followed by nothing, or by "//" when it does not end in "/", is the delimited piece |
| Ssl.DialAddressOf | analyzer.go:71-72 | for "https://" + host followed by nothing (a trailing "/" included), or by "//" after a host not ending in "/", the dial address is host + ":443", path included |
| Ssl.IssuerSuggestsCdn | analyzer.go:80-87 | true exactly when the issuer organisation strings, joined with no separator, contain "Cloudflare" or "Akamai"; false for an empty issuer |
| Ssl.IssuerNamedInAnyElement | analyzer.go:83 | a vendor name inside any one organisation string makes the verdict positive |
| Ssl.IssuerNameAcrossElements | analyzer.go:83 | a vendor name split across two organisation strings is still found, because the join has no separator |
| Ssl.SslProbe | analyzer.go:64-88 | "cannot inspect" exactly when the URL lacks the "https" prefix; a panic exactly when it has the prefix but no "//"; a dial failure exactly when the dial errs; otherwise the dialled address and the issuer verdict |
| Ssl.PlainHttpNeverDials | analyzer.go:66-69 | for a URL without the "https" prefix, the handshake outcome cannot influence the verdict |
| Fuzz.BurstFrom | analyzer.go:109-116 | the loop completes exactly when no request from the current one up to the tenth fails; it then has issued 10; otherwise it stops right after the first failing request |
| Fuzz.FuzzProbe | analyzer.go:91-123 | the target is the URL plus the traversal suffix; WAF is detected exactly on status 403 or 404; a transport error gives no verdict and no burst; a rate-limit verdict exists exactly when all 10 burst requests come back, and it is then "traversal status is 429"; otherwise the burst stops at its first failure |
| Fuzz.BurstSeesOnlyFailures | analyzer.go:109-116 | the burst loop's result depends only on which requests fail, not on any status |
| Fuzz.RateLimitIgnoresBurstStatuses | analyzer.go:109-122 | two bursts that fail at the same requests give the same report, whatever their statuses |
| Fuzz.ThrottledTraversalReportsRateLimit | analyzer.go:103-122 | a traversal answered 429, followed by a clean burst of 200s, reports rate limiting and no WAF |
| Fuzz.ThrottledBurstGoesUnnoticed | analyzer.go:118-122 | a traversal answered 200 with a burst answered only 429 reports no rate limiting |
| Fuzz.WafVerdictBeforeBurst | analyzer.go:103-114 | when the first burst request fails, the WAF verdict stands, one request was issued, and there is no rate-limit verdict |
| Analyzer.ValidateTarget | analyzer.go:200-206 | rejected exactly when the trimmed input does not start with "http"; an accepted target is the input stripped of surrounding white space only |
| Analyzer.ValidationIgnoresPadding | analyzer.go:201-203 | white space around the input never changes the verdict or the target |
| Analyzer.HeaderFindings | analyzer.go:139-173 | six findings in the source's order (CDN, load balancer, firewall, rate limiting, autoscaling, WAF), each carrying its classifier's verdict |
| Analyzer.StagesAppend | analyzer.go:139-178 | two logs in stage order, the second starting where the first ends, concatenate to a log in stage order |
| Analyzer.Findings | analyzer.go:139-178 | eight or nine findings, the i-th belonging to stage i+1: the six header findings in the source's order, then latency, certificate, and fuzzing when it ran |
| Analyzer.Analyze | analyzer.go:125-179 | a failed initial GET ends the analysis at once; otherwise the i-th finding belongs to stage i+1 (six header checks, latency, certificate, fuzzing); the fuzzing finding is missing exactly when the certificate probe panics; each finding carries its probe's verdict |
| Analyzer.Run | analyzer.go:198-208 | rejected input gives only the rejection; accepted input is analysed as the trimmed line, with the full `Analyze` log; a probe runs exactly when the trimmed input starts with "http" and the initial GET succeeds; stages never repeat or go backwards |
| Analyzer.HttpsTarget | analyzer.go:201-203 | "https://" + host (a trailing "/" included) followed by white space (the line ending) is accepted as "https://" + host, which passes the "https" test and is dialled at host:443 |
| Analyzer.HeaderlessAnalysis | analyzer.go:125-179 | for an HTTPS URL answering with no headers: nine findings, CDN negative, the other five header checks positive, the certificate probe dials, fuzzing runs |
| Analyzer.HeaderlessSiteScenario | analyzer.go:125-179 | for an HTTPS site answering with no headers: nine findings, CDN negative, the other five header checks positive, dial at host:443, fuzzing against the traversal path |
| Analyzer.RejectedInputRunsNothing | analyzer.go:203-206 | input rejected by validation gives the same one-line log whatever the network would answer |

## Left out

- Network I/O (`http.Get`, `client.Do`, `tls.Dial`): each call is replaced by its outcome, which is an input of the model (`Analyzer.Network`).
- Redirect following and the default timeouts of Go's HTTP and TLS clients: they are part of the network outcome.
- Certificate contents: the handshake outcome carries only the leaf certificate's issuer organisation. The `PeerCertificates[0]` index therefore cannot be out of range in the model.
- Wall-clock time (`time.Now`, `time.Since`): the latency probe takes the elapsed time in nanoseconds as an input. The 200 ms `time.Sleep` between burst requests has no effect on any verdict and is not modelled.
- Latency.CheckLatency: durations are unbounded integers; Go's 64-bit `time.Duration` cannot overflow in practice here.
- Console output, colours, the ASCII banner and the stdin prompt: the entered line is an input, and the printed verdicts become the `Event` log.
- Header key canonicalisation (`http.CanonicalHeaderKey`): keys are assumed to be stored in the form they are looked up with.
- Strings.TrimSpace: only ASCII white space (space, and tab through carriage return) is trimmed; Go also trims Unicode spaces such as U+0085 and U+00A0.
- The ignored error of `http.NewRequest` in the fuzzing probe: a request that failed to build would be nil, and `client.Do` would panic on it rather than return a transport error. It is not modelled: the URL is the one the initial GET already parsed, with a path suffix appended.
- Closing response bodies and TLS connections (`defer ... Close()`): resource handling with no effect on verdicts.
- Fuzz.FuzzProbe and Analyzer.Run require at least ten burst outcomes, one for every request the loop can issue; outcomes past the first failure are never read.
