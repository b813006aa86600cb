/** What `SGetClient` and `SPostClient` share: the message converter, created
    lazily and then kept; the client error every low-level failure becomes; and
    the step that turns a low-level response into a typed one. */
module TypedCall {
  import opened Wrappers
  import opened Text
  import opened ClientCallException
  import opened ClientResponse

  /** A `MessageConverter`: serialising a (possibly null) request object and
      parsing a (possibly null) message into a (possibly null) object; either
      may fail with a message. No round-trip law is assumed. */
  datatype MessageConverter<!REQ, RES> = MessageConverter(
    messageFrom: Option<REQ> -> Result<string, JString>,
    objectFromMessage: JString -> Result<Option<RES>, JString>)

  /** `SClientException` as the typed clients raise it, by origin: a wrapped
      low-level failure (its cause), a converter failure, or a failure to
      instantiate the default converter. */
  datatype ClientError =
    | CallFailed(cause: CallException)
    | ConversionFailed(message: JString)
    | ConverterUnavailable(message: JString)

  /** The fields of a typed client that a call changes: the last parsed object
      and the converter once created. */
  datatype ClientState<!REQ, RES> = ClientState(
    response: Option<RES>,
    converter: Option<MessageConverter<REQ, RES>>)

  /** `getMessageConverter`: the held converter when there is one, otherwise
      the outcome of instantiating the default converter. */
  function Obtain<REQ, RES>(held: Option<MessageConverter<REQ, RES>>,
                            default: Result<MessageConverter<REQ, RES>, JString>)
    : (r: Result<MessageConverter<REQ, RES>, JString>)
    ensures held.Some? ==> r == Ok(held.value)
    ensures held.None? ==> r == default
  {
    match held
    case Some(c) => Ok(c)
    case None => default
  }

  /** The typed response repeats the low-level body, reason, status and headers. */
  ghost predicate Copies<RES>(low: HttpClientResponse, typed: TypedResponse<RES>) {
    && typed.base.responseBody == low.responseBody
    && typed.base.reasonPhrase == low.reasonPhrase
    && typed.base.statusCode == low.statusCode
    && typed.base.responseHeaders == low.responseHeaders
  }

  /** The shared tail of `getRequest` and `postRequest`: a low-level failure
      becomes a client error; with a body present the converter is obtained
      (and kept) and the body parsed into the stored object; without one the
      stored object is reused as it is. */
  function Complete<REQ, RES>(s: ClientState<REQ, RES>, low: Result<HttpClientResponse, CallException>,
                              default: Result<MessageConverter<REQ, RES>, JString>)
    : (r: (ClientState<REQ, RES>, Result<TypedResponse<RES>, ClientError>))
    ensures low.Err? ==> r.0 == s && r.1 == Err(CallFailed(low.error))
    ensures low.Ok? && !low.value.bodyPresent ==> r.0 == s && r.1.Ok? && r.1.value.response == s.response
    ensures low.Ok? && low.value.bodyPresent && Obtain(s.converter, default).Err? ==>
              r.0 == s && r.1 == Err(ConverterUnavailable(Obtain(s.converter, default).error))
    ensures low.Ok? && low.value.bodyPresent && Obtain(s.converter, default).Ok? ==>
              var conv := Obtain(s.converter, default).value;
              && r.0.converter == Some(conv)
              && match conv.objectFromMessage(low.value.responseBody)
                 case Err(m) => r.0.response == s.response && r.1 == Err(ConversionFailed(m))
                 case Ok(parsed) => r.0.response == parsed && r.1.Ok? && r.1.value.response == parsed
    ensures r.1.Ok? ==> Copies(low.value, r.1.value)
    ensures r.1.Ok? ==> (r.1.value.base.bodyPresent <==> low.value.responseBody.Some?)
    ensures s.converter.Some? ==> r.0.converter == s.converter
  {
    match low
    case Err(e) => (s, Err(CallFailed(e)))
    case Ok(resp) =>
      if resp.bodyPresent then
        match Obtain(s.converter, default)
        case Err(m) => (s, Err(ConverterUnavailable(m)))
        case Ok(conv) =>
          var s1 := s.(converter := Some(conv));
          match conv.objectFromMessage(resp.responseBody)
          case Err(m) => (s1, Err(ConversionFailed(m)))
          case Ok(parsed) =>
            (s1.(response := parsed),
             Ok(NewTypedResponseWithHeaders(resp.responseBody, resp.reasonPhrase, resp.statusCode,
                                            resp.responseHeaders, parsed)))
      else
        (s, Ok(NewTypedResponseWithHeaders(resp.responseBody, resp.reasonPhrase, resp.statusCode,
                                           resp.responseHeaders, s.response)))
  }

  /** Without a body the converter is neither created nor consulted: the
      outcome is the same whatever the default converter would be. */
  lemma NoBodyNoConversion<REQ, RES>(s: ClientState<REQ, RES>, low: Result<HttpClientResponse, CallException>,
                                     d1: Result<MessageConverter<REQ, RES>, JString>,
                                     d2: Result<MessageConverter<REQ, RES>, JString>)
    requires low.Ok? && !low.value.bodyPresent
    ensures Complete(s, low, d1) == Complete(s, low, d2)
  {
  }
}
