/** `SPostClient<REQ, RES>`: a typed POST client. The request object is
    serialised before any HTTP request exists; the rest matches the GET client. */
module TypedPostClient {
  import opened Wrappers
  import opened Text
  import opened Http
  import opened ClientCallException
  import opened ClientResponse
  import opened TypedCall
  import PostRequest
  import RequestBase

  datatype PostClient<!REQ, RES> = PostClient(
    url: JString,
    request: Option<REQ>,
    username: JString,
    password: JString,
    encoding: JString,
    headers: HeaderEntries,
    connectTimeout: int,
    includeResponseHeaders: bool,
    basicAuthRequired: bool,
    state: ClientState<REQ, RES>)

  /** The public constructors, in declaration order. */
  datatype Construction<!REQ> =
    | WithoutCredentials(url: JString, request: Option<REQ>)
    | WithoutCredentialsEncodingHeaders(url: JString, request: Option<REQ>, encoding: JString,
                                        headers: HeaderEntries)
    | WithoutCredentialsAll(url: JString, request: Option<REQ>, encoding: JString, headers: HeaderEntries,
                            connectTimeout: int, includeResponseHeaders: bool)
    | WithCredentials(url: JString, request: Option<REQ>, username: JString, password: JString)
    | WithCredentialsEncodingHeaders(url: JString, request: Option<REQ>, username: JString, password: JString,
                                     encoding: JString, headers: HeaderEntries)
    | WithCredentialsAll(url: JString, request: Option<REQ>, username: JString, password: JString,
                         encoding: JString, headers: HeaderEntries, connectTimeout: int,
                         includeResponseHeaders: bool)
  {
    predicate HasCredentials() {
      WithCredentials? || WithCredentialsEncodingHeaders? || WithCredentialsAll?
    }

    predicate HasOptions() {
      WithCredentialsEncodingHeaders? || WithCredentialsAll?
      || WithoutCredentialsEncodingHeaders? || WithoutCredentialsAll?
    }

    predicate HasTimeout() {
      WithCredentialsAll? || WithoutCredentialsAll?
    }
  }

  function Construct<REQ, RES>(c: Construction<REQ>): (client: PostClient<REQ, RES>)
    ensures client.basicAuthRequired <==> c.HasCredentials()
    ensures client.url == c.url && client.request == c.request
    ensures c.HasCredentials() ==> client.username == c.username && client.password == c.password
    ensures !c.HasCredentials() ==> client.username.None? && client.password.None?
    ensures c.HasOptions() ==> client.encoding == c.encoding && client.headers == c.headers
    ensures !c.HasOptions() ==> client.encoding.None? && client.headers.None?
    ensures c.HasTimeout() ==> client.connectTimeout == c.connectTimeout
                               && client.includeResponseHeaders == c.includeResponseHeaders
    ensures !c.HasTimeout() ==> client.connectTimeout == 0 && !client.includeResponseHeaders
    ensures client.state == ClientState(None, None)
  {
    var s := ClientState(None, None);
    match c
    case WithoutCredentials(url, rq) => PostClient(url, rq, None, None, None, None, 0, false, false, s)
    case WithoutCredentialsEncodingHeaders(url, rq, e, hs) => PostClient(url, rq, None, None, e, hs, 0, false, false, s)
    case WithoutCredentialsAll(url, rq, e, hs, t, i) => PostClient(url, rq, None, None, e, hs, t, i, false, s)
    case WithCredentials(url, rq, u, p) => PostClient(url, rq, u, p, None, None, 0, false, true, s)
    case WithCredentialsEncodingHeaders(url, rq, u, p, e, hs) => PostClient(url, rq, u, p, e, hs, 0, false, true, s)
    case WithCredentialsAll(url, rq, u, p, e, hs, t, i) => PostClient(url, rq, u, p, e, hs, t, i, true, s)
  }

  function ArgsOf<REQ, RES>(client: PostClient<REQ, RES>, requestString: JString): PostRequest.PostArgs {
    PostRequest.PostArgs(client.url, requestString, client.encoding, client.username, client.password,
                         client.connectTimeout, client.headers, client.includeResponseHeaders)
  }

  /** The low-level call with the serialised body: on a fresh request object,
      the credentialed full overload with authentication, the anonymous
      six-argument one without; either way the full call with `authRequired`
      equal to `basicAuthRequired`. */
  function LowLevelPost<REQ, RES>(client: PostClient<REQ, RES>, requestString: JString, transport: Transport)
    : (r: Result<HttpClientResponse, CallException>)
    ensures r == PostRequest.ExecutePost(client.basicAuthRequired, ArgsOf(client, requestString), transport)
  {
    if client.basicAuthRequired then
      var call := PostRequest.Full(ArgsOf(client, requestString));
      assert PostRequest.Expand(call) == ArgsOf(client, requestString);
      assert PostRequest.After(PostRequest.NewPostRequester, call).authRequired;
      PostRequest.Call(PostRequest.NewPostRequester, call, transport).1
    else
      var call := PostRequest.AnonymousEncodingTimeoutHeadersInclude(
        client.url, requestString, client.encoding, client.connectTimeout, client.headers,
        client.includeResponseHeaders);
      assert PostRequest.Expand(call) == ArgsOf(client, requestString).(username := None, password := None);
      assert !PostRequest.After(PostRequest.NewPostRequester, call).authRequired;
      PostRequest.CredentialsIrrelevantWithoutAuth(ArgsOf(client, requestString), None, None, transport);
      PostRequest.Call(PostRequest.NewPostRequester, call, transport).1
  }

  /** `postRequest`: obtain the converter and serialise the request object
      first; then send, and complete as the GET client does, with the same
      converter. */
  function Post<REQ, RES>(client: PostClient<REQ, RES>, transport: Transport,
                          default: Result<MessageConverter<REQ, RES>, JString>)
    : (r: (PostClient<REQ, RES>, Result<TypedResponse<RES>, ClientError>))
    ensures Obtain(client.state.converter, default).Err? ==>
              r.0 == client && r.1 == Err(ConverterUnavailable(Obtain(client.state.converter, default).error))
    ensures Obtain(client.state.converter, default).Ok? ==>
              var conv := Obtain(client.state.converter, default).value;
              && r.0.state.converter == Some(conv)
              && (conv.messageFrom(client.request).Err? ==>
                    r.1 == Err(ConversionFailed(conv.messageFrom(client.request).error))
                    && r.0.state.response == client.state.response)
              && (conv.messageFrom(client.request).Ok? ==>
                    var low := LowLevelPost(client, Some(conv.messageFrom(client.request).value), transport);
                    && (low.Err? ==> r.1 == Err(CallFailed(low.error)) && r.0.state.response == client.state.response)
                    && (r.1.Ok? ==> Copies(low.value, r.1.value))
                    && (low.Ok? && low.value.bodyPresent ==>
                          match conv.objectFromMessage(low.value.responseBody)
                          case Err(m) => r.1 == Err(ConversionFailed(m)) && r.0.state.response == client.state.response
                          case Ok(parsed) => r.1.Ok? && r.1.value.response == parsed && r.0.state.response == parsed)
                    && (low.Ok? && !low.value.bodyPresent ==>
                          r.1.Ok? && r.1.value.response == client.state.response
                          && r.0.state.response == client.state.response))
    ensures r.0 == client.(state := r.0.state)
    ensures client.state.converter.Some? ==> r.0.state.converter == client.state.converter
  {
    match Obtain(client.state.converter, default)
    case Err(m) => (client, Err(ConverterUnavailable(m)))
    case Ok(conv) =>
      var client1 := client.(state := client.state.(converter := Some(conv)));
      match conv.messageFrom(client.request)
      case Err(m) => (client1, Err(ConversionFailed(m)))
      case Ok(requestString) =>
        var (s, result) := Complete(client1.state, LowLevelPost(client, Some(requestString), transport), default);
        (client1.(state := s), result)
  }

  /** A serialisation failure aborts the call before any request is sent: the
      outcome is the same whatever the transport does. */
  lemma SerializationPrecedesTransport<REQ, RES>(client: PostClient<REQ, RES>, t1: Transport, t2: Transport,
                                                 default: Result<MessageConverter<REQ, RES>, JString>)
    requires Obtain(client.state.converter, default).Ok?
    requires Obtain(client.state.converter, default).value.messageFrom(client.request).Err?
    ensures Post(client, t1, default) == Post(client, t2, default)
  {
  }

  /** The client after a sequence of calls, each with its own transport and
      outcome of instantiating the default converter. */
  function Run<REQ, RES>(client: PostClient<REQ, RES>, steps: seq<(Transport, Result<MessageConverter<REQ, RES>, JString>)>)
    : PostClient<REQ, RES>
    decreases |steps|
  {
    if |steps| == 0 then client
    else Run(Post(client, steps[0].0, steps[0].1).0, steps[1..])
  }

  /** The converter is created at most once: once a client holds one, every
      later call keeps exactly that converter, and the configuration never
      changes. */
  lemma {:induction false} ConverterCreatedOnce<REQ, RES>(
    client: PostClient<REQ, RES>, steps: seq<(Transport, Result<MessageConverter<REQ, RES>, JString>)>)
    requires client.state.converter.Some?
    ensures Run(client, steps).state.converter == client.state.converter
    ensures Run(client, steps) == client.(state := Run(client, steps).state)
    decreases |steps|
  {
    if |steps| > 0 {
      ConverterCreatedOnce(Post(client, steps[0].0, steps[0].1).0, steps[1..]);
    }
  }

  /** Every successful low-level call yields `bodyPresent`, so the response is
      parsed on every successful typed POST, even for the "NoContent" sentinel. */
  lemma ConverterConsultedOnSuccess<REQ, RES>(client: PostClient<REQ, RES>, requestString: JString,
                                              transport: Transport)
    requires LowLevelPost(client, requestString, transport).Ok?
    ensures LowLevelPost(client, requestString, transport).value.bodyPresent
  {
    var a := ArgsOf(client, requestString);
    var p := PostRequest.PreparePost(client.basicAuthRequired, a, transport.basicAuth).value;
    var sent := transport.send(p.request);
    assert sent.Received?;
    RequestBase.ProcessedResponseHasBody(sent.response, p.encoding, p.includeResponseHeaders, transport.decode);
  }
}
