/** `Just::Http`: the URL overload of `Send`, which splits a URL into the
    host and the action and turns the extra headers into text, and
    `SendForm`, which builds a form body and its content-type header. What
    they hand to the host overload of `Send` (the part that talks to the
    network) is returned as a `Request`. */
module Http {
  import opened Join
  import Text
  import StringFrom

  /** `strlen("http://") + 1`: where the search for the end of the host
      starts in a URL that begins with "http:". */
  const HostSearchStart: nat := 8

  const FormContentType := "application/x-www-form-urlencoded"

  /** The arguments of the host overload of `Send`. */
  datatype Request = Request(host: string, verb: string, action: string,
                             content: string, headers: string, port: nat)

  /** A header name or value, which the stream writes as it is. */
  function Verbatim(s: string): string { s }

  /** `url.substr(0, 5).find("http:") == 0`: the URL begins with "http:". */
  predicate GotHttp(url: string) {
    |url| >= 5 && url[..5] == "http:"
  }

  /** The host and action of a URL: the action runs from the first '/'
      after the scheme (the whole URL has none: "/"), the host is what comes
      before it, cut to the text after its last '/'. */
  function SplitUrl(url: string): (r: (string, string))
    ensures forall i :: 0 <= i < |r.0| ==> r.0[i] != '/'
    ensures |r.1| > 0 && r.1[0] == '/'
    ensures r.1 == "/" || (|r.1| <= |url| && r.1 == url[|url| - |r.1|..])
  {
    var hostEnd := Text.Find(url, '/', if GotHttp(url) then HostSearchStart else 0);
    var host := if hostEnd == -1 then url else url[..hostEnd];
    var action := if hostEnd == -1 then "/" else url[hostEnd..];
    var hostStart := Text.RFind(host, '/');
    (if hostStart != -1 then host[hostStart + 1..] else host, action)
  }

  /** `Send(url, verb, content, additionalHeaders, port)` up to the call
      that opens the connection: the split URL, and the extra headers as
      "name:value" lines. */
  method Send(url: string, verb: string, content: string,
              additionalHeaders: seq<(string, string)>, port: nat) returns (req: Request)
    ensures (req.host, req.action) == SplitUrl(url)
    ensures req.verb == verb && req.content == content && req.port == port
    ensures req.headers == JoinBetween(RenderEntries(additionalHeaders, ":", Verbatim, Verbatim), "\n")
  {
    var hostAction := SplitUrl(url);
    var headers := StringFrom.Map(additionalHeaders, ":", "\n", Verbatim, Verbatim);
    OneCharDelimiterAgrees(RenderEntries(additionalHeaders, ":", Verbatim, Verbatim), "\n");
    req := Request(hostAction.0, verb, hostAction.1, content, headers, port);
  }

  /** `SendForm(url, verb, data, port)`: the form fields as "key=value"
      joined by '&', sent with the form content type. */
  method SendForm(url: string, verb: string, data: seq<(string, string)>, port: nat)
    returns (req: Request)
    ensures (req.host, req.action) == SplitUrl(url)
    ensures req.verb == verb && req.port == port
    ensures req.headers == "Content-Type" + ":" + FormContentType
    ensures req.content == JoinBetween(RenderEntries(data, "=", Verbatim, Verbatim), "&")
  {
    var headers := [("Content-Type", FormContentType)];
    var content := StringFrom.Map(data, "=", "&", Verbatim, Verbatim);
    OneCharDelimiterAgrees(RenderEntries(data, "=", Verbatim, Verbatim), "&");
    req := Send(url, verb, content, headers, port);
    OneHeaderLine("Content-Type", FormContentType);
  }

  /** A single header renders as one "name:value" line with no newline. */
  lemma OneHeaderLine(name: string, value: string)
    ensures JoinBetween(RenderEntries([(name, value)], ":", Verbatim, Verbatim), "\n") == name + ":" + value
  {
    var lines := RenderEntries([(name, value)], ":", Verbatim, Verbatim);
    assert lines == [name + ":" + value];
  }

  /** A URL without any '/' is all host, with the root action: "google.com"
      goes to host "google.com" and action "/". */
  lemma NoSlashIsAllHost(url: string)
    requires forall i :: 0 <= i < |url| ==> url[i] != '/'
    ensures SplitUrl(url) == (url, "/")
  {
  }

  lemma GoogleExample()
    ensures SplitUrl("google.com") == ("google.com", "/")
  {
    NoSlashIsAllHost("google.com");
  }

  /** "http://" + host + action splits back into that host and action (the
      root action when none is given). */
  lemma HttpUrlSplit(h: string, a: string)
    requires |h| > 0 && forall i :: 0 <= i < |h| ==> h[i] != '/'
    requires a == "" || a[0] == '/'
    ensures SplitUrl("http://" + h + a) == (h, if a == "" then "/" else a)
  {
    var url := "http://" + h + a;
    assert url[..5] == "http:";
    var hostEnd := Text.Find(url, '/', HostSearchStart);
    var host := "http://" + h;
    assert forall j :: 7 <= j < |host| ==> host[j] == h[j - 7];
    assert host[6] == '/';
    assert Text.RFind(host, '/') == 6;
    if a == "" {
      assert url == host;
      assert hostEnd == -1;
      assert url[7..] == h;
    } else {
      assert url[7 + |h|] == '/';
      assert forall j :: 7 <= j < 7 + |h| ==> url[j] == h[j - 7];
      assert hostEnd == 7 + |h|;
      assert url[..hostEnd] == "http://" + h;
      assert ("http://" + h)[7..] == h;
      assert url[hostEnd..] == a;
    }
  }

  /** A URL that does not begin with "http:" and holds a '/' is cut at its
      first '/': host and action put back together give the URL. */
  lemma PlainUrlSplitRejoins(url: string)
    requires !GotHttp(url)
    requires exists i :: 0 <= i < |url| && url[i] == '/'
    ensures SplitUrl(url).0 + SplitUrl(url).1 == url
  {
    var k := Text.Find(url, '/', 0);
    assert Text.RFind(url[..k], '/') == -1;
    assert url[..k] + url[k..] == url;
  }

  /** "https:" is not recognised as a scheme: the split stops at the first
      '/' of "https://", giving host "https:" and the rest as the action. */
  lemma HttpsNotRecognised()
    ensures SplitUrl("https://example.com/x") == ("https:", "//example.com/x")
  {
    var url := "https://example.com/x";
    assert url[..5][4] == 's';
    assert !GotHttp(url);
    assert Text.Find(url, '/', 0) == 6;
    assert url[..6] == "https:";
    assert Text.RFind("https:", '/') == -1;
  }
}
