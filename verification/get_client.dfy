/** `SGetClient<RES>`: a typed GET client. Its constructors decide once whether
    it authenticates; each call uses a fresh request object and parses the body
    with the message converter. */
module TypedGetClient {
  import opened Wrappers
  import opened Text
  import opened Http
  import opened ClientCallException
  import opened ClientResponse
  import opened RequestBase
  import opened TypedCall
  import GetRequest
  import Preflight

  /** A GET client. The request class of the source is implicit in `RES` and
      the converter. `connectTimeout` 0 and null encoding or headers are the
      Java field defaults when a constructor does not set them. */
  datatype GetClient<RES> = GetClient(
    url: JString,
    username: JString,
    password: JString,
    encoding: JString,
    headers: HeaderEntries,
    connectTimeout: int,
    includeResponseHeaders: bool,
    basicAuthRequired: bool,
    state: ClientState<(), RES>)

  /** The public constructors, in declaration order. */
  datatype Construction =
    | WithCredentials(url: JString, username: JString, password: JString)
    | WithCredentialsEncodingHeaders(url: JString, username: JString, password: JString,
                                     encoding: JString, headers: HeaderEntries)
    | WithCredentialsAll(url: JString, username: JString, password: JString, encoding: JString,
                         headers: HeaderEntries, connectTimeout: int, includeResponseHeaders: bool)
    | WithoutCredentials(url: JString)
    | WithoutCredentialsEncodingHeaders(url: JString, encoding: JString, headers: HeaderEntries)
    | WithoutCredentialsAll(url: JString, encoding: JString, headers: HeaderEntries,
                            connectTimeout: int, includeResponseHeaders: bool)
  {
    /** The constructors in the username/password chain. */
    predicate HasCredentials() {
      WithCredentials? || WithCredentialsEncodingHeaders? || WithCredentialsAll?
    }

    predicate HasOptions() {
      WithCredentialsEncodingHeaders? || WithCredentialsAll?
      || WithoutCredentialsEncodingHeaders? || WithoutCredentialsAll?
    }

    predicate HasTimeout() {
      WithCredentialsAll? || WithoutCredentialsAll?
    }
  }

  function Construct<RES>(c: Construction): (client: GetClient<RES>)
    ensures client.basicAuthRequired <==> c.HasCredentials()
    ensures client.url == c.url
    ensures c.HasCredentials() ==> client.username == c.username && client.password == c.password
    ensures !c.HasCredentials() ==> client.username.None? && client.password.None?
    ensures c.HasOptions() ==> client.encoding == c.encoding && client.headers == c.headers
    ensures !c.HasOptions() ==> client.encoding.None? && client.headers.None?
    ensures c.HasTimeout() ==> client.connectTimeout == c.connectTimeout
                               && client.includeResponseHeaders == c.includeResponseHeaders
    ensures !c.HasTimeout() ==> client.connectTimeout == 0 && !client.includeResponseHeaders
    ensures client.state == ClientState(None, None)
  {
    var s := ClientState(None, None);
    match c
    case WithCredentials(url, u, p) => GetClient(url, u, p, None, None, 0, false, true, s)
    case WithCredentialsEncodingHeaders(url, u, p, e, hs) => GetClient(url, u, p, e, hs, 0, false, true, s)
    case WithCredentialsAll(url, u, p, e, hs, t, i) => GetClient(url, u, p, e, hs, t, i, true, s)
    case WithoutCredentials(url) => GetClient(url, None, None, None, None, 0, false, false, s)
    case WithoutCredentialsEncodingHeaders(url, e, hs) => GetClient(url, None, None, e, hs, 0, false, false, s)
    case WithoutCredentialsAll(url, e, hs, t, i) => GetClient(url, None, None, e, hs, t, i, false, s)
  }

  /** The configuration-level call a client stands for. */
  function ArgsOf<RES>(client: GetClient<RES>): GetRequest.GetArgs {
    GetRequest.GetArgs(client.url, client.encoding, client.username, client.password,
                       client.connectTimeout, client.headers, client.includeResponseHeaders)
  }

  /** The low-level call: on a fresh request object, the credentialed full
      overload with authentication, the anonymous five-argument one without.
      Either way it is the full call with the client's settings and
      `authRequired` equal to `basicAuthRequired`. */
  function LowLevelGet<RES>(client: GetClient<RES>, transport: Transport)
    : (r: Result<HttpClientResponse, CallException>)
    ensures r == GetRequest.ExecuteGet(client.basicAuthRequired, ArgsOf(client), transport)
  {
    if client.basicAuthRequired then
      var call := GetRequest.Full(ArgsOf(client));
      assert GetRequest.Expand(call) == ArgsOf(client);
      assert GetRequest.After(GetRequest.NewGetRequester, call).authRequired;
      GetRequest.Call(GetRequest.NewGetRequester, call, transport).1
    else
      var call := GetRequest.AnonymousEncodingTimeoutHeadersInclude(
        client.url, client.encoding, client.connectTimeout, client.headers, client.includeResponseHeaders);
      assert GetRequest.Expand(call) == ArgsOf(client).(username := None, password := None);
      assert !GetRequest.After(GetRequest.NewGetRequester, call).authRequired;
      GetRequest.CredentialsIrrelevantWithoutAuth(ArgsOf(client), None, None, transport);
      GetRequest.Call(GetRequest.NewGetRequester, call, transport).1
  }

  /** `getRequest`. */
  function Get<RES>(client: GetClient<RES>, transport: Transport,
                    default: Result<MessageConverter<(), RES>, JString>)
    : (r: (GetClient<RES>, Result<TypedResponse<RES>, ClientError>))
    ensures LowLevelGet(client, transport).Err? ==>
              r.0 == client && r.1 == Err(CallFailed(LowLevelGet(client, transport).error))
    ensures r.1.Ok? ==> Copies(LowLevelGet(client, transport).value, r.1.value)
    ensures r.0 == client.(state := r.0.state)
    ensures LowLevelGet(client, transport).Ok? && !LowLevelGet(client, transport).value.bodyPresent ==>
              r.0 == client && r.1.Ok? && r.1.value.response == client.state.response
    ensures LowLevelGet(client, transport).Ok? && LowLevelGet(client, transport).value.bodyPresent
            && Obtain(client.state.converter, default).Ok? ==>
              var conv := Obtain(client.state.converter, default).value;
              && r.0.state.converter == Some(conv)
              && match conv.objectFromMessage(LowLevelGet(client, transport).value.responseBody)
                 case Err(m) => r.1 == Err(ConversionFailed(m)) && r.0.state.response == client.state.response
                 case Ok(parsed) => r.1.Ok? && r.1.value.response == parsed && r.0.state.response == parsed
    ensures LowLevelGet(client, transport).Ok? && LowLevelGet(client, transport).value.bodyPresent
            && Obtain(client.state.converter, default).Err? ==>
              r.0 == client && r.1 == Err(ConverterUnavailable(Obtain(client.state.converter, default).error))
    ensures client.state.converter.Some? ==> r.0.state.converter == client.state.converter
  {
    var (s, result) := Complete(client.state, LowLevelGet(client, transport), default);
    (client.(state := s), result)
  }

  /** A call changes only the stored object and converter, and each call builds
      its own request object, so the next call makes the same low-level request
      a first call would. */
  lemma CallsAreIndependent<RES>(client: GetClient<RES>, transport: Transport, next: Transport,
                                 default: Result<MessageConverter<(), RES>, JString>)
    ensures LowLevelGet(Get(client, transport, default).0, next) == LowLevelGet(client, next)
  {
    var client' := Get(client, transport, default).0;
    assert ArgsOf(client') == ArgsOf(client);
  }

  /** Every successful low-level call yields `bodyPresent`, so the converter
      is consulted on every successful typed GET, even for the "NoContent"
      sentinel. */
  lemma ConverterConsultedOnSuccess<RES>(client: GetClient<RES>, transport: Transport)
    requires LowLevelGet(client, transport).Ok?
    ensures LowLevelGet(client, transport).value.bodyPresent
  {
    var a := ArgsOf(client);
    var p := GetRequest.PrepareGet(client.basicAuthRequired, a, transport.basicAuth).value;
    var sent := transport.send(p.request);
    assert sent.Received?;
    ProcessedResponseHasBody(sent.response, p.encoding, p.includeResponseHeaders, transport.decode);
  }

  /** A client built without credentials passes validation whatever its
      (null) credentials; one built with an empty username fails with the
      username error before anything is sent. */
  lemma AuthFollowsConstruction<RES>(c: Construction, transport: Transport,
                                     default: Result<MessageConverter<(), RES>, JString>)
    requires !IsEmpty(c.url)
    ensures var client: GetClient<RES> := Construct(c);
      && (!c.HasCredentials() ==>
            Preflight.Validate(client.url, client.username, client.password, client.basicAuthRequired).None?)
      && (c.HasCredentials() && IsEmpty(c.username) ==>
            Get(client, transport, default).1
            == Err(CallFailed(Preflight.RequiredFieldError("username", c.username))))
  {
  }
}
