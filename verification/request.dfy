/** How a request is put together before it is sent (index.js:706-779):
    the method name, the absolute URL built from the connection settings,
    the OAuth signature when enabled, the timeout and the static header. */
module Request {
  import opened Wrappers
  import opened Strings
  import opened Config
  import opened Percent
  import opened OAuth

  /** The options handed to the HTTP client. */
  datatype HttpRequest = HttpRequest(
    verb: string,
    url: string,
    timeoutMilliseconds: int,
    header: Option<(string, string)>)

  /* -------------------------------------------------------- the base URL */

  /** The scheme as the code writes it: an SSL connection is given the
      literal scheme `httpSsl`, not `https`. */
  function Scheme(ssl: bool): string {
    if ssl then "httpSsl" else "http"
  }

  predicate IsDefaultPort(ssl: bool, port: int) {
    (!ssl && port == 80) || (ssl && port == 443)
  }

  /** `:port`, or nothing for the default port of the scheme. */
  function PortSuffix(s: Settings): (r: string)
    ensures r == "" <==> IsDefaultPort(s.ssl, s.port)
  {
    if IsDefaultPort(s.ssl, s.port) then "" else ":" + IntToString(s.port)
  }

  /** The absolute URL of a configured path. */
  function BaseUrl(s: Settings, path: string): string {
    Scheme(s.ssl) + "://" + s.host + PortSuffix(s) + path
  }

  /** The URL is scheme, host, optional port and path, and the port is
      written exactly when it is not the default one. */
  lemma BaseUrlParts(s: Settings, path: string)
    ensures BaseUrl(s, path) == Scheme(s.ssl) + "://" + s.host + path <==> IsDefaultPort(s.ssl, s.port)
    ensures |BaseUrl(s, path)| >= |path|
    ensures BaseUrl(s, path)[|BaseUrl(s, path)| - |path|..] == path
  {
    var head := Scheme(s.ssl) + "://" + s.host;
    assert BaseUrl(s, path) == head + PortSuffix(s) + path;
    if !IsDefaultPort(s.ssl, s.port) {
      assert |BaseUrl(s, path)| > |head + path|;
    }
  }

  /** An SSL connection is addressed as `httpSsl://`, a plain one as
      `http://`; neither is ever `https://`. */
  lemma SchemeIsLiteral(s: Settings, path: string)
    ensures s.ssl ==> BaseUrl(s, path)[..10] == "httpSsl://"
    ensures !s.ssl ==> BaseUrl(s, path)[..7] == "http://"
  {
  }

  /* ------------------------------------------------------------ the query */

  /** A URL split at its first `?`. */
  datatype SplitUrl = SplitUrl(base: string, query: Option<string>)

  /** The base URL and, when there is a `?`, the query after it. */
  function SplitAtQuery(url: string): (r: SplitUrl)
    ensures '?' !in r.base
    ensures r.query.None? ==> r.base == url
    ensures r.query.Some? ==> url == r.base + "?" + r.query.value
  {
    var k := IndexOfChar(url, '?');
    if k == -1 then SplitUrl(url, None)
    else
      var query := url[k + 1..];
      assert url == url[..k] + "?" + query;
      SplitUrl(url[..|url| - |query| - 1], Some(query))
  }

  /** Splitting undoes joining: the first `?` is the one after a base
      without `?`. */
  lemma SplitAtQueryOfJoin(base: string, query: string)
    requires '?' !in base
    ensures SplitAtQuery(base + "?" + query) == SplitUrl(base, Some(query))
  {
    var url := base + "?" + query;
    assert url[|base|] == '?';
    assert url[..|base|] == base;
    var k := IndexOfChar(url, '?');
    assert k == |base|;
    assert url[k + 1..] == query;
  }

  /** The request's parameter object: those of the query, or none. */
  function QueryOf(split: SplitUrl): (r: Params)
    ensures UniqueKeys(r) && Clean(r)
  {
    match split.query
    case None => []
    case Some(q) => QueryParametersClean(q); QueryParameters(q)
  }

  /* -------------------------------------------------------- the request */

  /** `method.toUpperCase()`: the configured method names are already in
      upper case. */
  lemma MethodNameIsUpperCase(m: HttpMethod)
    ensures ToUpper(MethodName(m)) == MethodName(m)
  {
    var n := MethodName(m);
    assert forall i :: 0 <= i < |n| ==> 'A' <= n[i] <= 'Z';
  }

  /** The URL of the request: the base URL, or the signed URL when OAuth
      is enabled. */
  function TargetUrl(s: Settings, verb: string, path: string,
                     hmac: (Hash, string, string) -> string, nonce: string, timestamp: nat)
    : (r: Result<string, RequestFault>)
    ensures r.Failure? <==> s.oauth.Some? && s.oauth.value.signatureMethod == Plaintext
    ensures s.oauth.None? ==> r == Success(BaseUrl(s, path))
  {
    var url := BaseUrl(s, path);
    match s.oauth
    case None => Success(url)
    case Some(o) =>
      var split := SplitAtQuery(url);
      SignedUrl(verb, split.base, QueryOf(split), o, hmac, nonce, timestamp)
  }

  /** The request for `verb` and `path`. An undefined method makes the
      upper-casing throw before anything else happens; the PLAINTEXT
      signature method throws while signing. */
  function BuildRequest(s: Settings, verb: Option<HttpMethod>, path: string,
                        hmac: (Hash, string, string) -> string, nonce: string, timestamp: nat)
    : (r: Result<HttpRequest, RequestFault>)
    ensures verb.None? ==> r == Failure(MethodUndefined)
    ensures r.Failure? <==> verb.None? || (s.oauth.Some? && s.oauth.value.signatureMethod == Plaintext)
    ensures r.Success? ==>
              && r.value.verb == MethodName(verb.value)
              && r.value.timeoutMilliseconds == s.timeoutMilliseconds
              && r.value.header == s.header
    ensures r.Success? && s.oauth.None? ==> r.value.url == BaseUrl(s, path)
  {
    match verb
    case None => Failure(MethodUndefined)
    case Some(m) =>
      var name := ToUpper(MethodName(m));
      MethodNameIsUpperCase(m);
      var url :- TargetUrl(s, name, path, hmac, nonce, timestamp);
      Success(HttpRequest(name, url, s.timeoutMilliseconds, s.header))
  }

  /** With OAuth, the request goes to the same base URL as without it, and
      a server reading its query finds exactly the parameters that were
      signed, in sorted order, followed by `oauth_signature`, provided the
      configured path did not already carry that parameter. */
  lemma SignedTargetReadsBack(s: Settings, verb: string, path: string,
                              hmac: (Hash, string, string) -> string, nonce: string, timestamp: nat)
    requires s.oauth.Some? && s.oauth.value.signatureMethod != Plaintext
    requires "oauth_signature" !in Keys(QueryOf(SplitAtQuery(BaseUrl(s, path))))
    ensures var r := TargetUrl(s, verb, path, hmac, nonce, timestamp);
            var split := SplitAtQuery(BaseUrl(s, path));
            var o := s.oauth.value;
            var sorted := SortByKey(WithOAuthParameters(QueryOf(split), o, nonce, timestamp));
            var sig := Sign(o.signatureMethod, hmac, SigningKey(o),
                            SignatureBase(verb, split.base, ParameterString(sorted)));
            && r.Success? && sig.Success?
            && SplitAtQuery(r.value).base == split.base
            && SplitAtQuery(r.value).query.Some?
            && QueryParameters(SplitAtQuery(r.value).query.value)
               == sorted + [("oauth_signature", PercentEncode(sig.value))]
  {
    var split := SplitAtQuery(BaseUrl(s, path));
    SignedUrlSplits(verb, split.base, QueryOf(split), s.oauth.value, hmac, nonce, timestamp);
  }

  lemma SignedUrlSplits(verb: string, base: string, query: Params, o: OAuthSettings,
                        hmac: (Hash, string, string) -> string, nonce: string, timestamp: nat)
    requires '?' !in base
    requires UniqueKeys(query) && Clean(query) && "oauth_signature" !in Keys(query)
    requires o.signatureMethod != Plaintext
    ensures var r := SignedUrl(verb, base, query, o, hmac, nonce, timestamp);
            var sorted := SortByKey(WithOAuthParameters(query, o, nonce, timestamp));
            var sig := Sign(o.signatureMethod, hmac, SigningKey(o),
                            SignatureBase(verb, base, ParameterString(sorted)));
            && r.Success? && sig.Success?
            && SplitAtQuery(r.value).base == base
            && SplitAtQuery(r.value).query.Some?
            && QueryParameters(SplitAtQuery(r.value).query.value)
               == sorted + [("oauth_signature", PercentEncode(sig.value))]
  {
    SignedQueryReadsBack(verb, base, query, o, hmac, nonce, timestamp);
    SplitAfterPrefix(base, SignedUrl(verb, base, query, o, hmac, nonce, timestamp).value);
  }

  lemma SplitAfterPrefix(base: string, url: string)
    requires '?' !in base
    requires |url| > |base| && url[..|base| + 1] == base + "?"
    ensures SplitAtQuery(url) == SplitUrl(base, Some(url[|base| + 1..]))
  {
    var rest := url[|base| + 1..];
    assert url == base + "?" + rest by {
      assert url == url[..|base| + 1] + rest;
    }
    SplitAtQueryOfJoin(base, rest);
  }

  /** The request carries the target URL under the configured method. */
  lemma RequestUsesTarget(s: Settings, m: HttpMethod, path: string,
                          hmac: (Hash, string, string) -> string, nonce: string, timestamp: nat)
    ensures var r := BuildRequest(s, Some(m), path, hmac, nonce, timestamp);
            var t := TargetUrl(s, MethodName(m), path, hmac, nonce, timestamp);
            && (r.Success? <==> t.Success?)
            && (r.Success? ==> r.value.url == t.value)
  {
    MethodNameIsUpperCase(m);
  }
}
