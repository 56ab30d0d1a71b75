/**
 The certificate probe. A URL that does not begin with "https" is not inspected.
 Otherwise the dial address is the second piece of the URL split on "//" with
 ":443" appended, and the verdict is a substring test on the leaf certificate's
 issuer organisation strings joined with no separator. The TLS handshake itself
 is outside the model: the probe receives its outcome.
 */
module Ssl {
  import opened Strings

  const SchemePrefix: string := "https"
  const SchemeSeparator: string := "//"
  const TlsPort: string := ":443"

  /** The TLS handshake: an error, or the issuer organisation of the leaf certificate. */
  datatype DialOutcome = DialError | Handshake(issuerOrganization: seq<string>)

  datatype SslVerdict =
    | NotHttps
      /** "https" prefix but no "//": indexing the split result panics, ending the run. */
    | NoSchemeSeparator
    | DialFailed(address: string)
    | Inspected(address: string, issuer: seq<string>, cdnOrWaf: bool)

  /** The probe cannot compute a dial address and the process panics. */
  ghost predicate AbortsRun(url: string) {
    MatchAt(url, "https", 0) && !Occurs(url, "//")
  }

  /** The host part the probe dials: the text after the leftmost "//", up to the
      next "//" or the end; any path after the host is kept. */
  function DialAddress(url: string): (address: string)
    requires Contains(url, SchemeSeparator)
    ensures |address| >= 4 && address[|address| - 4..] == ":443"
    ensures exists i :: FirstAt(url, "//", i)
                        && Delimits(url[i + 2..], "//", |address| - 4)
                        && address[..|address| - 4] == url[i + 2..][..|address| - 4]
  {
    var parts := Split(url, SchemeSeparator);
    var i := Index(url, SchemeSeparator);
    assert parts[1] == Split(url[i + 2..], SchemeSeparator)[0];
    var address := parts[1] + TlsPort;
    assert address[..|address| - 4] == parts[1];
    address
  }

  /** In a URL beginning "https://", the leftmost "//" is the one after the scheme. */
  lemma SchemeSeparatorFirst(url: string)
    requires |url| >= 8 && url[..8] == "https://"
    ensures FirstAt(url, "//", 6)
  {
    assert url[6..8] == url[..8][6..8];
    forall j | 0 <= j < 6
      ensures !MatchAt(url, "//", j)
    {
      assert url[j..j + 2][0] == url[..8][j];
    }
  }

  /** A host with no "//", followed either by nothing or (when it does not end
      in "/") by "//", is exactly the delimited prefix. */
  lemma HostDelimited(host: string, tail: string)
    requires !Occurs(host, "//")
    requires tail == [] || (HasPrefix(tail, "//") && (host == [] || host[|host| - 1] != '/'))
    ensures Delimits(host + tail, "//", |host|)
  {
    var rest := host + tail;
    forall j | 0 <= j < |host|
      ensures !MatchAt(rest, "//", j)
    {
      if j + 2 <= |host| {
        assert rest[j..j + 2] == host[j..j + 2];
        assert !MatchAt(host, "//", j);
      } else if j + 2 <= |rest| {
        assert rest[j..j + 2][0] == rest[j] == host[j];
      }
    }
    if tail != [] {
      assert rest[|host|..|host| + 2] == tail[..2];
    }
  }

  /** The dial address is determined by the leftmost "//" and the text it delimits. */
  lemma DialAddressIs(url: string, i: int, n: int)
    requires FirstAt(url, "//", i) && Delimits(url[i + 2..], "//", n)
    ensures Contains(url, SchemeSeparator)
    ensures DialAddress(url) == url[i + 2..][..n] + ":443"
  {
    var address := DialAddress(url);
    var i' :| FirstAt(url, "//", i') && Delimits(url[i' + 2..], "//", |address| - 4)
              && address[..|address| - 4] == url[i' + 2..][..|address| - 4];
    FirstAtUnique(url, "//", i, i');
    DelimitsUnique(url[i + 2..], "//", |address| - 4, n);
    assert address == address[..|address| - 4] + address[|address| - 4..];
  }

  /** For "https://" followed by a host and then either nothing or another "//"
      (after a host not ending in "/"), the probe dials exactly that host (path
      included) on port 443. */
  lemma DialAddressOf(host: string, tail: string)
    requires !Occurs(host, "//")
    requires tail == [] || (HasPrefix(tail, "//") && (host == [] || host[|host| - 1] != '/'))
    ensures Contains("https://" + host + tail, SchemeSeparator)
    ensures DialAddress("https://" + host + tail) == host + ":443"
  {
    var url := "https://" + host + tail;
    assert url[..8] == "https://";
    assert url[6 + 2..] == host + tail;
    SchemeSeparatorFirst(url);
    HostDelimited(host, tail);
    DialAddressIs(url, 6, |host|);
    assert (host + tail)[..|host|] == host;
  }

  /** The issuer names a CDN/WAF vendor: "Cloudflare" or "Akamai", case-sensitive,
      in the organisation strings joined with no separator. An empty issuer never does. */
  function IssuerSuggestsCdn(organization: seq<string>): (r: bool)
    ensures r <==> Occurs(Concat(organization), "Cloudflare")
                   || Occurs(Concat(organization), "Akamai")
    ensures organization == [] ==> !r
  {
    NothingOccursInEmpty("Cloudflare");
    NothingOccursInEmpty("Akamai");
    var joined := Join(organization, "");
    Contains(joined, "Cloudflare") || Contains(joined, "Akamai")
  }

  /** A vendor name inside any one organisation string is enough. */
  lemma IssuerNamedInAnyElement(organization: seq<string>, k: nat)
    requires k < |organization|
    requires Occurs(organization[k], "Cloudflare") || Occurs(organization[k], "Akamai")
    ensures IssuerSuggestsCdn(organization)
  {
    if Occurs(organization[k], "Cloudflare") {
      OccursInConcat(organization, k, "Cloudflare");
    } else {
      OccursInConcat(organization, k, "Akamai");
    }
  }

  /** Because the join has no separator, a vendor name split across two
      organisation strings is still found. */
  lemma IssuerNameAcrossElements()
    ensures IssuerSuggestsCdn(["Cloud", "flare"])
  {
    assert Concat(["Cloud", "flare"]) == "Cloudflare" by {
      assert ["Cloud", "flare"][1..] == ["flare"];
      assert ["flare"][1..] == [];
    }
    assert MatchAt("Cloudflare", "Cloudflare", 0);
  }

  /** The certificate probe: only "https" URLs are inspected; a transport error
      yields no verdict; otherwise the issuer decides. */
  function SslProbe(url: string, dial: DialOutcome): (v: SslVerdict)
    ensures v == NotHttps <==> !MatchAt(url, "https", 0)
    ensures v == NoSchemeSeparator <==> AbortsRun(url)
    ensures v.DialFailed? <==> MatchAt(url, "https", 0) && Occurs(url, "//") && dial.DialError?
    ensures v.DialFailed? || v.Inspected? ==> Contains(url, "//") && v.address == DialAddress(url)
    ensures v.Inspected? ==> dial.Handshake? && v.issuer == dial.issuerOrganization
    ensures v.Inspected? ==> (v.cdnOrWaf <==> Occurs(Concat(v.issuer), "Cloudflare")
                                              || Occurs(Concat(v.issuer), "Akamai"))
  {
    if !HasPrefix(url, SchemePrefix) then NotHttps
    else if !Contains(url, SchemeSeparator) then NoSchemeSeparator
    else
      var address := DialAddress(url);
      match dial
      case DialError => DialFailed(address)
      case Handshake(organization) =>
        Inspected(address, organization, IssuerSuggestsCdn(organization))
  }

  /** A URL without the "https" prefix is never dialled: the outcome of the
      handshake cannot influence its verdict. */
  lemma PlainHttpNeverDials(url: string, d1: DialOutcome, d2: DialOutcome)
    requires !MatchAt(url, "https", 0)
    ensures SslProbe(url, d1) == SslProbe(url, d2) == NotHttps
  {
  }
}
