/** `AHttpGetRequest`: builds and sends a GET, which never carries an entity.
    Like the POST request object it holds a one-way `authRequired` flag. */
module GetRequest {
  import opened Wrappers
  import opened Text
  import opened Http
  import opened Constants
  import opened ClientCallException
  import opened ClientResponse
  import opened Preflight
  import opened RequestBase

  /** The arguments of the full `executeGet` every overload delegates to. */
  datatype GetArgs = GetArgs(
    url: JString,
    encoding: JString,
    username: JString,
    password: JString,
    connectTimeout: int,
    headers: HeaderEntries,
    includeResponseHeaders: bool)

  datatype Prepared = Prepared(request: HttpRequest, encoding: string, includeResponseHeaders: bool)

  /** Everything the full `executeGet` does before sending. */
  function PrepareGet(authRequired: bool, a: GetArgs, basicAuth: (JString, JString) -> Option<string>)
    : (r: Result<Prepared, CallException>)
    ensures r.Ok? <==> Validate(a.url, a.username, a.password, authRequired).None?
    ensures r.Err? ==> r.error == Validate(a.url, a.username, a.password, authRequired).value
    ensures r.Ok? ==>
      var req := r.value.request;
      && req.verb == Get
      && a.url.Some? && req.url == a.url.value
      && r.value.encoding == ResolveEncoding(a.encoding)
      && r.value.includeResponseHeaders == a.includeResponseHeaders
      && req.config == Some(TimeoutConfig(ResolveTimeout(a.connectTimeout)))
      && req.entity.None?
      && (authRequired && basicAuth(a.username, a.password).Some? ==>
            req.headers == AddRequestHeaders([Header(AuthorizationHeader, basicAuth(a.username, a.password).value)], a.headers))
      && (!(authRequired && basicAuth(a.username, a.password).Some?) ==>
            req.headers == AddRequestHeaders([], a.headers))
  {
    match Validate(a.url, a.username, a.password, authRequired)
    case Some(e) => Err(e)
    case None =>
      var encoding := ResolveEncoding(a.encoding);
      var timeout := ResolveTimeout(a.connectTimeout);
      var auth := if authRequired then AddBasicAuthHeader([], a.username, a.password, basicAuth) else [];
      assert authRequired && basicAuth(a.username, a.password).Some? ==>
               auth == [Header(AuthorizationHeader, basicAuth(a.username, a.password).value)];
      assert !(authRequired && basicAuth(a.username, a.password).Some?) ==> auth == [];
      var headers := AddRequestHeaders(auth, a.headers);
      Ok(Prepared(HttpRequest(Get, a.url.value, headers, Some(TimeoutConfig(timeout)), None),
                  encoding, a.includeResponseHeaders))
  }

  /** The full `executeGet`: validate, build, send and classify. */
  function ExecuteGet(authRequired: bool, a: GetArgs, transport: Transport)
    : (r: Result<HttpClientResponse, CallException>)
    ensures Validate(a.url, a.username, a.password, authRequired).Some? ==>
              r == Err(Validate(a.url, a.username, a.password, authRequired).value)
    ensures Validate(a.url, a.username, a.password, authRequired).None? ==>
              var p := PrepareGet(authRequired, a, transport.basicAuth).value;
              r == ExecuteHttpRequest(p.request, p.encoding, p.includeResponseHeaders, transport)
  {
    var p :- PrepareGet(authRequired, a, transport.basicAuth);
    ExecuteHttpRequest(p.request, p.encoding, p.includeResponseHeaders, transport)
  }

  /** A call that fails validation never reaches the network. */
  lemma ValidationPrecedesTransport(authRequired: bool, a: GetArgs, t1: Transport, t2: Transport)
    requires Validate(a.url, a.username, a.password, authRequired).Some?
    ensures ExecuteGet(authRequired, a, t1) == ExecuteGet(authRequired, a, t2)
    ensures ExecuteGet(authRequired, a, t1).Err?
  {
  }

  /** The `Content-Type` default applies to a GET as well: the request always
      carries that header, the supplied value when one was given. */
  lemma GetCarriesContentType(authRequired: bool, a: GetArgs, basicAuth: (JString, JString) -> Option<string>)
    requires PrepareGet(authRequired, a, basicAuth).Ok?
    ensures var hs := PrepareGet(authRequired, a, basicAuth).value.request.headers;
      && ContentTypeHeader in Names(hs)
      && (Lookup(a.headers, ContentTypeHeader).Some? ==>
            FirstHeader(hs, ContentTypeHeader) == Some(Header(ContentTypeHeader, Lookup(a.headers, ContentTypeHeader).value)))
      && (Lookup(a.headers, ContentTypeHeader).None? ==>
            FirstHeader(hs, ContentTypeHeader) == Some(Header(ContentTypeHeader, DefaultContentType)))
  {
    var auth: seq<Header> := if authRequired && basicAuth(a.username, a.password).Some?
                             then [Header(AuthorizationHeader, basicAuth(a.username, a.password).value)] else [];
    assert Names(auth) <= {AuthorizationHeader};
    ContentTypeAfterAdding(auth, a.headers);
  }

  /** Without authentication the credentials make no difference to the call. */
  lemma CredentialsIrrelevantWithoutAuth(a: GetArgs, username: JString, password: JString, transport: Transport)
    ensures ExecuteGet(false, a, transport)
         == ExecuteGet(false, a.(username := username, password := password), transport)
  {
    CredentialsIgnoredWithoutAuth(a.url, a.username, a.password, username, password);
  }

  // ---------------------------------------------------------------------------
  // Overloads and the sticky flag

  /** One constructor per public `executeGet` overload, in declaration order.
      Two overloads take a request string, which a GET ignores. */
  datatype GetCall =
    | Credentialed(url: JString, username: JString, password: JString)
    | CredentialedHeaders(url: JString, username: JString, password: JString, headers: HeaderEntries)
    | CredentialedRequestHeadersInclude(url: JString, request: JString, username: JString, password: JString,
                                        headers: HeaderEntries, includeResponseHeaders: bool)
    | CredentialedEncoding(url: JString, encoding: JString, username: JString, password: JString)
    | CredentialedEncodingHeaders(url: JString, encoding: JString, username: JString, password: JString,
                                  headers: HeaderEntries)
    | CredentialedTimeout(url: JString, username: JString, password: JString, connectTimeout: int)
    | CredentialedEncodingTimeout(url: JString, encoding: JString, username: JString, password: JString,
                                  connectTimeout: int)
    | Anonymous(url: JString)
    | AnonymousHeaders(url: JString, headers: HeaderEntries)
    | AnonymousHeadersInclude(url: JString, headers: HeaderEntries, includeResponseHeaders: bool)
    | AnonymousEncodingTimeoutHeadersInclude(url: JString, encoding: JString, connectTimeout: int,
                                             headers: HeaderEntries, includeResponseHeaders: bool)
    | AnonymousEncoding(url: JString, encoding: JString)
    | AnonymousRequestHeadersEncoding(url: JString, request: JString, headers: HeaderEntries, encoding: JString)
    | AnonymousTimeout(url: JString, connectTimeout: int)
    | AnonymousEncodingTimeout(url: JString, encoding: JString, connectTimeout: int)
    | Full(args: GetArgs)
  {
    /** The overloads without credentials, which clear `authRequired`. */
    predicate IsAnonymous() {
      || Anonymous? || AnonymousHeaders? || AnonymousHeadersInclude?
      || AnonymousEncodingTimeoutHeadersInclude? || AnonymousEncoding?
      || AnonymousRequestHeadersEncoding? || AnonymousTimeout? || AnonymousEncodingTimeout?
    }

    predicate GivesEncoding() {
      || CredentialedEncoding? || CredentialedEncodingHeaders? || CredentialedEncodingTimeout?
      || AnonymousEncodingTimeoutHeadersInclude? || AnonymousEncoding? || AnonymousRequestHeadersEncoding?
      || AnonymousEncodingTimeout? || Full?
    }

    predicate GivesTimeout() {
      || CredentialedTimeout? || CredentialedEncodingTimeout? || AnonymousEncodingTimeoutHeadersInclude?
      || AnonymousTimeout? || AnonymousEncodingTimeout? || Full?
    }

    predicate GivesHeaders() {
      || CredentialedHeaders? || CredentialedRequestHeadersInclude? || CredentialedEncodingHeaders?
      || AnonymousHeaders? || AnonymousHeadersInclude? || AnonymousEncodingTimeoutHeadersInclude?
      || AnonymousRequestHeadersEncoding? || Full?
    }

    predicate GivesInclude() {
      || CredentialedRequestHeadersInclude? || AnonymousHeadersInclude?
      || AnonymousEncodingTimeoutHeadersInclude? || Full?
    }
  }

  /** The arguments each overload passes to the full `executeGet`: its url,
      its credentials or null ones, and each argument it takes, with the
      library default for each argument it omits. */
  function Expand(c: GetCall): (a: GetArgs)
    ensures c.Full? ==> a == c.args
    ensures !c.Full? ==> a.url == c.url
    ensures !c.Full? && !c.IsAnonymous() ==> a.username == c.username && a.password == c.password
    ensures c.IsAnonymous() ==> a.username.None? && a.password.None?
    ensures !c.Full? && c.GivesEncoding() ==> a.encoding == c.encoding
    ensures !c.GivesEncoding() ==> a.encoding == Some(DefaultContentEncoding)
    ensures !c.Full? && c.GivesTimeout() ==> a.connectTimeout == c.connectTimeout
    ensures !c.GivesTimeout() ==> a.connectTimeout == DefaultConnectTimeout
    ensures !c.Full? && c.GivesHeaders() ==> a.headers == c.headers
    ensures !c.GivesHeaders() ==> a.headers.None?
    ensures !c.Full? && c.GivesInclude() ==> a.includeResponseHeaders == c.includeResponseHeaders
    ensures !c.GivesInclude() ==> !a.includeResponseHeaders
  {
    var enc := Some(DefaultContentEncoding);
    var t := DefaultConnectTimeout;
    var inc := DefaultIncludeResponseHeaders;
    match c
    case Credentialed(url, u, p) => GetArgs(url, enc, u, p, t, None, inc)
    case CredentialedHeaders(url, u, p, hs) => GetArgs(url, enc, u, p, t, hs, inc)
    case CredentialedRequestHeadersInclude(url, _, u, p, hs, i) => GetArgs(url, enc, u, p, t, hs, i)
    case CredentialedEncoding(url, e, u, p) => GetArgs(url, e, u, p, t, None, inc)
    case CredentialedEncodingHeaders(url, e, u, p, hs) => GetArgs(url, e, u, p, t, hs, inc)
    case CredentialedTimeout(url, u, p, ct) => GetArgs(url, enc, u, p, ct, None, inc)
    case CredentialedEncodingTimeout(url, e, u, p, ct) => GetArgs(url, e, u, p, ct, None, inc)
    case Anonymous(url) => GetArgs(url, enc, None, None, t, None, inc)
    case AnonymousHeaders(url, hs) => GetArgs(url, enc, None, None, t, hs, inc)
    case AnonymousHeadersInclude(url, hs, i) => GetArgs(url, enc, None, None, t, hs, i)
    case AnonymousEncodingTimeoutHeadersInclude(url, e, ct, hs, i) => GetArgs(url, e, None, None, ct, hs, i)
    case AnonymousEncoding(url, e) => GetArgs(url, e, None, None, t, None, inc)
    case AnonymousRequestHeadersEncoding(url, _, hs, e) => GetArgs(url, e, None, None, t, hs, inc)
    case AnonymousTimeout(url, ct) => GetArgs(url, enc, None, None, ct, None, inc)
    case AnonymousEncodingTimeout(url, e, ct) => GetArgs(url, e, None, None, ct, None, inc)
    case Full(a) => a
  }

  /** The state of one `AHttpGetRequest` object. */
  datatype GetRequester = GetRequester(authRequired: bool)

  const NewGetRequester: GetRequester := GetRequester(true)

  function After(obj: GetRequester, c: GetCall): (obj': GetRequester)
    ensures obj'.authRequired <==> obj.authRequired && !c.IsAnonymous()
  {
    if c.IsAnonymous() then obj.(authRequired := false) else obj
  }

  function Call(obj: GetRequester, c: GetCall, transport: Transport)
    : (r: (GetRequester, Result<HttpClientResponse, CallException>))
    ensures r.0 == After(obj, c)
    ensures r.1 == ExecuteGet(r.0.authRequired, Expand(c), transport)
  {
    var obj' := After(obj, c);
    (obj', ExecuteGet(obj'.authRequired, Expand(c), transport))
  }

  /** The request string of the two overloads that accept one has no effect. */
  lemma RequestStringIgnored(obj: GetRequester, url: JString, r1: JString, r2: JString, username: JString,
                             password: JString, headers: HeaderEntries, withHeaders: bool, encoding: JString,
                             transport: Transport)
    ensures Call(obj, CredentialedRequestHeadersInclude(url, r1, username, password, headers, withHeaders), transport)
         == Call(obj, CredentialedRequestHeadersInclude(url, r2, username, password, headers, withHeaders), transport)
    ensures Call(obj, AnonymousRequestHeadersEncoding(url, r1, headers, encoding), transport)
         == Call(obj, AnonymousRequestHeadersEncoding(url, r2, headers, encoding), transport)
  {
    assert Expand(CredentialedRequestHeadersInclude(url, r1, username, password, headers, withHeaders))
        == Expand(CredentialedRequestHeadersInclude(url, r2, username, password, headers, withHeaders));
    assert Expand(AnonymousRequestHeadersEncoding(url, r1, headers, encoding))
        == Expand(AnonymousRequestHeadersEncoding(url, r2, headers, encoding));
  }

  function Run(obj: GetRequester, calls: seq<GetCall>): GetRequester
    decreases |calls|
  {
    if |calls| == 0 then obj else Run(After(obj, calls[0]), calls[1..])
  }

  /** After any sequence of calls the flag holds exactly when it held before and
      no call was anonymous: it is only ever cleared. */
  lemma {:induction false} RunAuthRequired(obj: GetRequester, calls: seq<GetCall>)
    ensures Run(obj, calls).authRequired <==>
              obj.authRequired && forall i :: 0 <= i < |calls| ==> !calls[i].IsAnonymous()
    decreases |calls|
  {
    if |calls| > 0 {
      RunAuthRequired(After(obj, calls[0]), calls[1..]);
      assert forall i :: 1 <= i < |calls| ==> calls[i] == calls[1..][i - 1];
    }
  }

  /** `executeGet(url, username, password)` on a fresh object is the full call
      with authentication, the default encoding and timeout, null headers and no
      response headers. */
  lemma ShortCredentialedGetIsFullCall(url: JString, username: JString, password: JString, transport: Transport)
    ensures Call(NewGetRequester, Credentialed(url, username, password), transport).0 == NewGetRequester
    ensures Call(NewGetRequester, Credentialed(url, username, password), transport).1
         == ExecuteGet(true, GetArgs(url, Some(DefaultContentEncoding), username, password,
                                     DefaultConnectTimeout, None, false), transport)
  {
    var c := Credentialed(url, username, password);
    assert Expand(c) == GetArgs(url, Some(DefaultContentEncoding), username, password,
                                DefaultConnectTimeout, None, false);
    assert After(NewGetRequester, c) == NewGetRequester;
  }
}
