/** `AHttpClientResponse` and its typed extension `SClientResponse`: the
    response of a successful call, and the same with a parsed object. */
module ClientResponse {
  import opened Wrappers
  import opened Text

  type HeaderMap = map<string, string>

  /** `bodyPresent` is set once, by the constructor, from the body it was given. */
  datatype HttpClientResponse = HttpClientResponse(
    responseBody: JString,
    reasonPhrase: JString,
    statusCode: int,
    bodyPresent: bool,
    responseHeaders: Option<HeaderMap>)

  /** The three-argument constructor: no headers. */
  function NewResponse(body: JString, reason: JString, code: int): (r: HttpClientResponse)
    ensures r.responseBody == body && r.reasonPhrase == reason && r.statusCode == code
    ensures r.bodyPresent <==> body.Some?
    ensures r.responseHeaders.None?
  {
    HttpClientResponse(body, reason, code, body.Some?, None)
  }

  /** The four-argument constructor: the three-argument one, then the headers. */
  function NewResponseWithHeaders(body: JString, reason: JString, code: int,
                                  headers: Option<HeaderMap>): (r: HttpClientResponse)
    ensures r.responseBody == body && r.reasonPhrase == reason && r.statusCode == code
    ensures r.bodyPresent <==> body.Some?
    ensures r.responseHeaders == headers
  {
    NewResponse(body, reason, code).(responseHeaders := headers)
  }

  function SetResponseBody(r: HttpClientResponse, body: JString): (r': HttpClientResponse)
    ensures r'.responseBody == body
    ensures r'.bodyPresent == r.bodyPresent
    ensures r'.reasonPhrase == r.reasonPhrase && r'.statusCode == r.statusCode
    ensures r'.responseHeaders == r.responseHeaders
  {
    r.(responseBody := body)
  }

  function SetReasonPhrase(r: HttpClientResponse, reason: JString): (r': HttpClientResponse)
    ensures r'.reasonPhrase == reason
    ensures r'.responseBody == r.responseBody && r'.bodyPresent == r.bodyPresent
    ensures r'.statusCode == r.statusCode && r'.responseHeaders == r.responseHeaders
  {
    r.(reasonPhrase := reason)
  }

  function SetStatusCode(r: HttpClientResponse, code: int): (r': HttpClientResponse)
    ensures r'.statusCode == code
    ensures r'.responseBody == r.responseBody && r'.bodyPresent == r.bodyPresent
    ensures r'.reasonPhrase == r.reasonPhrase && r'.responseHeaders == r.responseHeaders
  {
    r.(statusCode := code)
  }

  function SetResponseHeaders(r: HttpClientResponse, headers: Option<HeaderMap>): (r': HttpClientResponse)
    ensures r'.responseHeaders == headers
    ensures r'.responseBody == r.responseBody && r'.bodyPresent == r.bodyPresent
    ensures r'.reasonPhrase == r.reasonPhrase && r'.statusCode == r.statusCode
  {
    r.(responseHeaders := headers)
  }

  /** `bodyPresent` follows the body only at construction: after the body
      setter it still reports the constructor's body, so it agrees with the
      current body exactly when both bodies are null or both are not. */
  lemma BodyPresentCanGoStale(body: JString, reason: JString, code: int, body': JString)
    ensures var r := SetResponseBody(NewResponse(body, reason, code), body');
      && (r.bodyPresent <==> body.Some?)
      && ((r.bodyPresent <==> r.responseBody.Some?) <==> (body.Some? <==> body'.Some?))
  {
  }

  /** `SClientResponse`: the base response plus the parsed object (`None` is null). */
  datatype TypedResponse<RES> = TypedResponse(base: HttpClientResponse, response: Option<RES>)

  /** The four-argument constructor: no headers. */
  function NewTypedResponse<RES>(body: JString, reason: JString, code: int,
                                 parsed: Option<RES>): (r: TypedResponse<RES>)
    ensures r.base.responseBody == body && r.base.reasonPhrase == reason && r.base.statusCode == code
    ensures r.base.bodyPresent <==> body.Some?
    ensures r.base.responseHeaders.None?
    ensures r.response == parsed
  {
    TypedResponse(NewResponse(body, reason, code), parsed)
  }

  /** The five-argument constructor: headers and the parsed object. */
  function NewTypedResponseWithHeaders<RES>(body: JString, reason: JString, code: int,
                                            headers: Option<HeaderMap>,
                                            parsed: Option<RES>): (r: TypedResponse<RES>)
    ensures r.base.responseBody == body && r.base.reasonPhrase == reason && r.base.statusCode == code
    ensures r.base.bodyPresent <==> body.Some?
    ensures r.base.responseHeaders == headers
    ensures r.response == parsed
  {
    TypedResponse(NewResponseWithHeaders(body, reason, code, headers), parsed)
  }

  predicate IsResponsePresent<RES>(r: TypedResponse<RES>)
    ensures IsResponsePresent(r) <==> r.response != None
  {
    r.response.Some?
  }

  function SetResponse<RES>(r: TypedResponse<RES>, parsed: Option<RES>): (r': TypedResponse<RES>)
    ensures r'.base == r.base
    ensures IsResponsePresent(r') <==> parsed.Some?
    ensures r'.response == parsed
  {
    r.(response := parsed)
  }

  /** Both typed constructors derive `bodyPresent` exactly as the base class does,
      and differ only in the headers. */
  lemma TypedConstructorsAgree<RES>(body: JString, reason: JString, code: int, parsed: Option<RES>)
    ensures NewTypedResponse(body, reason, code, parsed).base.bodyPresent <==> body.Some?
    ensures NewTypedResponseWithHeaders(body, reason, code, None, parsed)
         == NewTypedResponse(body, reason, code, parsed)
    ensures IsResponsePresent(NewTypedResponse(body, reason, code, parsed)) <==> parsed.Some?
  {
  }
}
