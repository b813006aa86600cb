/** `AHttpPostRequest`: builds and sends a POST. Each request object carries an
    `authRequired` flag that starts true; every overload without credentials
    clears it before delegating, and nothing sets it again. */
module PostRequest {
  import opened Wrappers
  import opened Text
  import opened Http
  import opened Constants
  import opened ClientCallException
  import opened ClientResponse
  import opened Preflight
  import opened RequestBase

  /** The arguments of the full `executePost` every overload delegates to. */
  datatype PostArgs = PostArgs(
    url: JString,
    request: JString,
    encoding: JString,
    username: JString,
    password: JString,
    connectTimeout: int,
    headers: HeaderEntries,
    includeResponseHeaders: bool)

  /** A request ready to send, with the encoding used to read its response. */
  datatype Prepared = Prepared(request: HttpRequest, encoding: string, includeResponseHeaders: bool)

  /** The content type of the entity: the supplied `Content-Type` entry when
      there is one, the default otherwise. */
  function EntityContentType(headers: HeaderEntries): (ct: string)
    ensures Lookup(headers, ContentTypeHeader).Some? ==> ct == Lookup(headers, ContentTypeHeader).value
    ensures Lookup(headers, ContentTypeHeader).None? ==> ct == DefaultContentType
  {
    match Lookup(headers, ContentTypeHeader)
    case Some(v) => v
    case None => DefaultContentType
  }

  /** The headers a request starts with: the Basic authentication header while
      authentication is required, nothing otherwise. */
  function AuthHeaders(authRequired: bool, username: JString, password: JString,
                       basicAuth: (JString, JString) -> Option<string>): (hs: seq<Header>)
    ensures !authRequired ==> hs == []
    ensures authRequired ==> hs == AddBasicAuthHeader([], username, password, basicAuth)
    ensures forall h :: h in hs ==> h.name == AuthorizationHeader
  {
    if authRequired then AddBasicAuthHeader([], username, password, basicAuth) else []
  }

  /** Everything the full `executePost` does before sending. */
  function PreparePost(authRequired: bool, a: PostArgs, basicAuth: (JString, JString) -> Option<string>)
    : (r: Result<Prepared, CallException>)
    ensures r.Ok? <==> Validate(a.url, a.username, a.password, authRequired).None?
    ensures r.Err? ==> r.error == Validate(a.url, a.username, a.password, authRequired).value
    ensures r.Ok? ==>
      var req := r.value.request;
      && req.verb == Post
      && a.url.Some? && req.url == a.url.value
      && r.value.encoding == ResolveEncoding(a.encoding)
      && r.value.includeResponseHeaders == a.includeResponseHeaders
      && req.config == Some(TimeoutConfig(ResolveTimeout(a.connectTimeout)))
      && req.headers == AddRequestHeaders(AuthHeaders(authRequired, a.username, a.password, basicAuth), a.headers)
      && (req.entity.Some? <==> !IsEmpty(a.request))
      && (req.entity.Some? ==> req.entity.value == RequestEntity(a.request.value, EntityContentType(a.headers)))
  {
    match Validate(a.url, a.username, a.password, authRequired)
    case Some(e) => Err(e)
    case None =>
      var encoding := ResolveEncoding(a.encoding);
      var timeout := ResolveTimeout(a.connectTimeout);
      var headers := AddRequestHeaders(AuthHeaders(authRequired, a.username, a.password, basicAuth), a.headers);
      var entity := if IsEmpty(a.request) then None
                    else Some(RequestEntity(a.request.value, EntityContentType(a.headers)));
      Ok(Prepared(HttpRequest(Post, a.url.value, headers, Some(TimeoutConfig(timeout)), entity),
                  encoding, a.includeResponseHeaders))
  }

  /** The full `executePost`: validate, build, send and classify. */
  function ExecutePost(authRequired: bool, a: PostArgs, transport: Transport)
    : (r: Result<HttpClientResponse, CallException>)
    ensures Validate(a.url, a.username, a.password, authRequired).Some? ==>
              r == Err(Validate(a.url, a.username, a.password, authRequired).value)
    ensures Validate(a.url, a.username, a.password, authRequired).None? ==>
              var p := PreparePost(authRequired, a, transport.basicAuth).value;
              r == ExecuteHttpRequest(p.request, p.encoding, p.includeResponseHeaders, transport)
  {
    var p :- PreparePost(authRequired, a, transport.basicAuth);
    ExecuteHttpRequest(p.request, p.encoding, p.includeResponseHeaders, transport)
  }

  /** A call that fails validation never reaches the network: its result is the
      same whatever the transport does. */
  lemma ValidationPrecedesTransport(authRequired: bool, a: PostArgs, t1: Transport, t2: Transport)
    requires Validate(a.url, a.username, a.password, authRequired).Some?
    ensures ExecutePost(authRequired, a, t1) == ExecutePost(authRequired, a, t2)
    ensures ExecutePost(authRequired, a, t1).Err?
  {
  }

  /** The Basic authentication header leads the header list exactly when
      authentication is required and the scheme yields a value. */
  lemma AuthHeaderIffAuthRequired(authRequired: bool, a: PostArgs, basicAuth: (JString, JString) -> Option<string>)
    requires PreparePost(authRequired, a, basicAuth).Ok?
    ensures var hs := PreparePost(authRequired, a, basicAuth).value.request.headers;
      && (authRequired && basicAuth(a.username, a.password).Some? ==>
            hs[0] == Header(AuthorizationHeader, basicAuth(a.username, a.password).value))
      && (!(authRequired && basicAuth(a.username, a.password).Some?) ==>
            hs == AddRequestHeaders([], a.headers))
  {
  }

  /** When an entity is attached, its content type is the value of the first
      `Content-Type` header on the request. */
  lemma EntityTypeMatchesHeader(authRequired: bool, a: PostArgs, basicAuth: (JString, JString) -> Option<string>)
    requires PreparePost(authRequired, a, basicAuth).Ok?
    requires PreparePost(authRequired, a, basicAuth).value.request.entity.Some?
    ensures var req := PreparePost(authRequired, a, basicAuth).value.request;
            FirstHeader(req.headers, ContentTypeHeader) == Some(Header(ContentTypeHeader, req.entity.value.contentType))
  {
    var auth := AuthHeaders(authRequired, a.username, a.password, basicAuth);
    assert ContentTypeHeader !in Names(auth);
    ContentTypeAfterAdding(auth, a.headers);
  }

  /** Without authentication the credentials make no difference to the call. */
  lemma CredentialsIrrelevantWithoutAuth(a: PostArgs, username: JString, password: JString, transport: Transport)
    ensures ExecutePost(false, a, transport)
         == ExecutePost(false, a.(username := username, password := password), transport)
  {
    CredentialsIgnoredWithoutAuth(a.url, a.username, a.password, username, password);
  }

  // ---------------------------------------------------------------------------
  // Overloads and the sticky flag

  /** One constructor per public `executePost` overload, in declaration order. */
  datatype PostCall =
    | Credentialed(url: JString, request: JString, username: JString, password: JString)
    | CredentialedHeaders(url: JString, request: JString, username: JString, password: JString,
                          headers: HeaderEntries)
    | CredentialedHeadersInclude(url: JString, request: JString, username: JString, password: JString,
                                 headers: HeaderEntries, includeResponseHeaders: bool)
    | CredentialedEncoding(url: JString, request: JString, encoding: JString, username: JString,
                           password: JString)
    | CredentialedEncodingHeaders(url: JString, request: JString, encoding: JString, username: JString,
                                  password: JString, headers: HeaderEntries)
    | CredentialedTimeout(url: JString, request: JString, username: JString, password: JString,
                          connectTimeout: int)
    | CredentialedEncodingTimeout(url: JString, request: JString, encoding: JString, username: JString,
                                  password: JString, connectTimeout: int)
    | Anonymous(url: JString, request: JString)
    | AnonymousHeaders(url: JString, request: JString, headers: HeaderEntries)
    | AnonymousHeadersInclude(url: JString, request: JString, headers: HeaderEntries,
                              includeResponseHeaders: bool)
    | AnonymousEncodingTimeoutHeadersInclude(url: JString, request: JString, encoding: JString,
                                             connectTimeout: int, headers: HeaderEntries,
                                             includeResponseHeaders: bool)
    | AnonymousEncoding(url: JString, request: JString, encoding: JString)
    | AnonymousEncodingHeaders(url: JString, request: JString, encoding: JString, headers: HeaderEntries)
    | AnonymousTimeout(url: JString, request: JString, connectTimeout: int)
    | AnonymousEncodingTimeout(url: JString, request: JString, encoding: JString, connectTimeout: int)
    | Full(args: PostArgs)
  {
    /** The overloads without credentials, which clear `authRequired`. */
    predicate IsAnonymous() {
      || Anonymous? || AnonymousHeaders? || AnonymousHeadersInclude?
      || AnonymousEncodingTimeoutHeadersInclude? || AnonymousEncoding?
      || AnonymousEncodingHeaders? || AnonymousTimeout? || AnonymousEncodingTimeout?
    }

    predicate GivesEncoding() {
      || CredentialedEncoding? || CredentialedEncodingHeaders? || CredentialedEncodingTimeout?
      || AnonymousEncodingTimeoutHeadersInclude? || AnonymousEncoding? || AnonymousEncodingHeaders?
      || AnonymousEncodingTimeout? || Full?
    }

    predicate GivesTimeout() {
      || CredentialedTimeout? || CredentialedEncodingTimeout? || AnonymousEncodingTimeoutHeadersInclude?
      || AnonymousTimeout? || AnonymousEncodingTimeout? || Full?
    }

    predicate GivesHeaders() {
      || CredentialedHeaders? || CredentialedHeadersInclude? || CredentialedEncodingHeaders?
      || AnonymousHeaders? || AnonymousHeadersInclude? || AnonymousEncodingTimeoutHeadersInclude?
      || AnonymousEncodingHeaders? || Full?
    }

    predicate GivesInclude() {
      CredentialedHeadersInclude? || AnonymousHeadersInclude? || AnonymousEncodingTimeoutHeadersInclude? || Full?
    }
  }

  /** The arguments each overload passes to the full `executePost`: its url
      and body, its credentials or null ones, and each argument it takes, with
      the library default for each argument it omits. */
  function Expand(c: PostCall): (a: PostArgs)
    ensures c.Full? ==> a == c.args
    ensures !c.Full? ==> a.url == c.url && a.request == c.request
    ensures !c.Full? && !c.IsAnonymous() ==> a.username == c.username && a.password == c.password
    ensures c.IsAnonymous() ==> a.username.None? && a.password.None?
    ensures !c.Full? && c.GivesEncoding() ==> a.encoding == c.encoding
    ensures !c.GivesEncoding() ==> a.encoding == Some(DefaultContentEncoding)
    ensures !c.Full? && c.GivesTimeout() ==> a.connectTimeout == c.connectTimeout
    ensures !c.GivesTimeout() ==> a.connectTimeout == DefaultConnectTimeout
    ensures !c.Full? && c.GivesHeaders() ==> a.headers == c.headers
    ensures !c.GivesHeaders() ==> a.headers.None?
    ensures !c.Full? && c.GivesInclude() ==> a.includeResponseHeaders == c.includeResponseHeaders
    ensures !c.GivesInclude() ==> !a.includeResponseHeaders
  {
    var enc := Some(DefaultContentEncoding);
    var t := DefaultConnectTimeout;
    var inc := DefaultIncludeResponseHeaders;
    match c
    case Credentialed(url, req, u, p) => PostArgs(url, req, enc, u, p, t, None, inc)
    case CredentialedHeaders(url, req, u, p, hs) => PostArgs(url, req, enc, u, p, t, hs, inc)
    case CredentialedHeadersInclude(url, req, u, p, hs, i) => PostArgs(url, req, enc, u, p, t, hs, i)
    case CredentialedEncoding(url, req, e, u, p) => PostArgs(url, req, e, u, p, t, None, inc)
    case CredentialedEncodingHeaders(url, req, e, u, p, hs) => PostArgs(url, req, e, u, p, t, hs, inc)
    case CredentialedTimeout(url, req, u, p, ct) => PostArgs(url, req, enc, u, p, ct, None, inc)
    case CredentialedEncodingTimeout(url, req, e, u, p, ct) => PostArgs(url, req, e, u, p, ct, None, inc)
    case Anonymous(url, req) => PostArgs(url, req, enc, None, None, t, None, inc)
    case AnonymousHeaders(url, req, hs) => PostArgs(url, req, enc, None, None, t, hs, inc)
    case AnonymousHeadersInclude(url, req, hs, i) => PostArgs(url, req, enc, None, None, t, hs, i)
    case AnonymousEncodingTimeoutHeadersInclude(url, req, e, ct, hs, i) => PostArgs(url, req, e, None, None, ct, hs, i)
    case AnonymousEncoding(url, req, e) => PostArgs(url, req, e, None, None, t, None, inc)
    case AnonymousEncodingHeaders(url, req, e, hs) => PostArgs(url, req, e, None, None, t, hs, inc)
    case AnonymousTimeout(url, req, ct) => PostArgs(url, req, enc, None, None, ct, None, inc)
    case AnonymousEncodingTimeout(url, req, e, ct) => PostArgs(url, req, e, None, None, ct, None, inc)
    case Full(a) => a
  }

  /** The state of one `AHttpPostRequest` object. */
  datatype PostRequester = PostRequester(authRequired: bool)

  /** A newly constructed request object. */
  const NewPostRequester: PostRequester := PostRequester(true)

  /** The object after an overload has run: anonymous overloads clear the flag. */
  function After(obj: PostRequester, c: PostCall): (obj': PostRequester)
    ensures obj'.authRequired <==> obj.authRequired && !c.IsAnonymous()
  {
    if c.IsAnonymous() then obj.(authRequired := false) else obj
  }

  /** Calling an overload on an object: the flag is updated first, then the full
      call runs with the updated flag. */
  function Call(obj: PostRequester, c: PostCall, transport: Transport)
    : (r: (PostRequester, Result<HttpClientResponse, CallException>))
    ensures r.0 == After(obj, c)
    ensures r.1 == ExecutePost(r.0.authRequired, Expand(c), transport)
  {
    var obj' := After(obj, c);
    (obj', ExecutePost(obj'.authRequired, Expand(c), transport))
  }

  /** The object after a sequence of calls. */
  function Run(obj: PostRequester, calls: seq<PostCall>): PostRequester
    decreases |calls|
  {
    if |calls| == 0 then obj else Run(After(obj, calls[0]), calls[1..])
  }

  /** After any sequence of calls the flag holds exactly when it held before and
      no call was anonymous: it is only ever cleared. */
  lemma {:induction false} RunAuthRequired(obj: PostRequester, calls: seq<PostCall>)
    ensures Run(obj, calls).authRequired <==>
              obj.authRequired && forall i :: 0 <= i < |calls| ==> !calls[i].IsAnonymous()
    decreases |calls|
  {
    if |calls| > 0 {
      RunAuthRequired(After(obj, calls[0]), calls[1..]);
      assert forall i :: 1 <= i < |calls| ==> calls[i] == calls[1..][i - 1];
    }
  }

  /** Once cleared, the flag stays cleared, so every later credentialed call
      skips the credential checks and the authentication header: its outcome
      does not depend on the credentials passed. */
  lemma ClearedFlagIsSticky(obj: PostRequester, calls: seq<PostCall>, url: JString, request: JString,
                            username: JString, password: JString, transport: Transport)
    requires !obj.authRequired
    ensures !Run(obj, calls).authRequired
    ensures Call(Run(obj, calls), Credentialed(url, request, username, password), transport).1
         == Call(Run(obj, calls), Credentialed(url, request, None, None), transport).1
  {
    RunAuthRequired(obj, calls);
    CredentialsIrrelevantWithoutAuth(Expand(Credentialed(url, request, None, None)), username, password, transport);
  }

  /** `executePost(url, request)` is the full call with the default encoding,
      null credentials, the default timeout, null headers and no response headers,
      made without authentication. */
  lemma ShortAnonymousPostIsFullCall(obj: PostRequester, url: JString, request: JString, transport: Transport)
    ensures Call(obj, Anonymous(url, request), transport).0 == PostRequester(false)
    ensures Call(obj, Anonymous(url, request), transport).1
         == ExecutePost(false, PostArgs(url, request, Some(DefaultContentEncoding), None, None,
                                        DefaultConnectTimeout, None, false), transport)
  {
    var c := Anonymous(url, request);
    var args := PostArgs(url, request, Some(DefaultContentEncoding), None, None, DefaultConnectTimeout, None, false);
    assert Expand(c) == args;
    assert After(obj, c) == PostRequester(false);
  }
}
