/** `ABasicAuthHttpRequestBase`: the steps every request shares: adding the
    Basic authentication header, the caller's headers and the timeouts, sending
    the request, reading the entity as text, collecting response headers, and
    classifying the status code into a response or a failure. */
module RequestBase {
  import opened Wrappers
  import opened Text
  import opened Http
  import opened Constants
  import opened ClientCallException
  import opened ClientResponse

  // ---------------------------------------------------------------------------
  // Status classification

  /** The status classes of section 15 of RFC 9110, plus codes outside them. */
  datatype StatusClass = Informational | Successful | Redirection | ClientError | ServerError | Unclassified

  function ClassOf(code: int): StatusClass {
    if 100 <= code < 200 then Informational
    else if 200 <= code < 300 then Successful
    else if 300 <= code < 400 then Redirection
    else if 400 <= code < 500 then ClientError
    else if 500 <= code < 600 then ServerError
    else Unclassified
  }

  /** The library's success test on a status code: a code succeeds exactly
      when it is informational, successful or a redirection. */
  predicate IsSuccessStatus(code: int)
    ensures IsSuccessStatus(code) <==> ClassOf(code) in {Informational, Successful, Redirection}
  {
    code >= 100 && code < 400
  }

  // ---------------------------------------------------------------------------
  // Reading the response

  /** `getStringFromEntity`: the sentinel when the content stream is null, the
      decoded content otherwise; a failure to obtain or decode the content is
      wrapped with its message. The entity itself is always present here. */
  function StringFromEntity(content: EntityContent, encoding: string,
                            decode: (Bytes, string) -> Result<string, JString>): (r: Result<string, CallException>)
    ensures content.NullStream? ==> r == Ok(NoContentMessage)
    ensures content.Stream? && decode(content.bytes, encoding).Ok? ==>
              r == Ok(decode(content.bytes, encoding).value)
    ensures content.Stream? && decode(content.bytes, encoding).Err? ==>
              r == Err(Wrapping(decode(content.bytes, encoding).error))
    ensures content.StreamFailure? ==> r == Err(Wrapping(content.message))
  {
    match content
    case NullStream => Ok(NoContentMessage)
    case StreamFailure(m) => Err(Wrapping(m))
    case Stream(bytes) =>
      match decode(bytes, encoding)
      case Ok(text) => Ok(text)
      case Err(m) => Err(Wrapping(m))
  }

  /** Puts each header into the map in turn, as the `getHeaders` loop does:
      the keys afterwards are the keys before plus every header name. */
  function PutAll(m: HeaderMap, hs: seq<Header>): (r: HeaderMap)
    ensures r.Keys == m.Keys + Names(hs)
    decreases |hs|
  {
    if |hs| == 0 then m
    else
      assert Names(hs) == {hs[0].name} + Names(hs[1..]);
      PutAll(m[hs[0].name := hs[0].value], hs[1..])
  }

  /** `v` is the value of the last header named `n` in `hs`. */
  ghost predicate IsLastValue(hs: seq<Header>, n: string, v: string) {
    exists i :: 0 <= i < |hs| && hs[i] == Header(n, v)
                && forall j :: i < j < |hs| ==> hs[j].name != n
  }

  lemma LastValueSkipsHead(h: Header, t: seq<Header>, n: string, v: string)
    requires IsLastValue(t, n, v)
    ensures IsLastValue([h] + t, n, v)
  {
    var hs := [h] + t;
    var i :| 0 <= i < |t| && t[i] == Header(n, v) && forall j :: i < j < |t| ==> t[j].name != n;
    assert hs[i + 1] == t[i];
    assert forall j :: i + 1 < j < |hs| ==> hs[j] == t[j - 1];
  }

  lemma LastValueAtHead(h: Header, t: seq<Header>)
    requires h.name !in Names(t)
    ensures IsLastValue([h] + t, h.name, h.value)
  {
    var hs := [h] + t;
    assert forall j :: 0 < j < |hs| ==> hs[j] == t[j - 1];
    assert hs[0] == h;
  }

  lemma {:induction false} PutAllLastWins(m: HeaderMap, hs: seq<Header>)
    ensures forall n :: n in Names(hs) ==> n in PutAll(m, hs) && IsLastValue(hs, n, PutAll(m, hs)[n])
    decreases |hs|
  {
    if |hs| > 0 {
      var h, t := hs[0], hs[1..];
      var m' := m[h.name := h.value];
      PutAllLastWins(m', t);
      PutAllKeeps(m', t);
      assert hs == [h] + t;
      assert Names(hs) == {h.name} + Names(t);
      forall n | n in Names(hs)
        ensures n in PutAll(m, hs) && IsLastValue(hs, n, PutAll(m, hs)[n])
      {
        if n in Names(t) {
          LastValueSkipsHead(h, t, n, PutAll(m', t)[n]);
        } else {
          LastValueAtHead(h, t);
        }
      }
    }
  }

  lemma {:induction false} PutAllKeeps(m: HeaderMap, hs: seq<Header>)
    ensures forall n :: n in m && n !in Names(hs) ==> n in PutAll(m, hs) && PutAll(m, hs)[n] == m[n]
    decreases |hs|
  {
    if |hs| > 0 {
      PutAllKeeps(m[hs[0].name := hs[0].value], hs[1..]);
      assert Names(hs) == {hs[0].name} + Names(hs[1..]);
    }
  }

  /** `getHeaders`: the response headers as a map, naming every header seen
      and keeping for each the value of its last occurrence. */
  function HeaderMapOf(hs: seq<Header>): (m: HeaderMap)
    ensures m.Keys == Names(hs)
    ensures forall n :: n in m ==> IsLastValue(hs, n, m[n])
  {
    PutAllLastWins(map[], hs);
    PutAll(map[], hs)
  }

  /** `processHttpResponse`: the body text is read first (so a read failure
      wins over the status); a status in [100, 400) gives a response, with the
      headers only when asked for; any other status gives a failure that always
      carries the headers. */
  function ProcessHttpResponse(w: WireResponse, encoding: string, includeResponseHeaders: bool,
                               decode: (Bytes, string) -> Result<string, JString>)
    : (r: Result<HttpClientResponse, CallException>)
    ensures StringFromEntity(w.content, encoding, decode).Err? ==>
              r == Err(StringFromEntity(w.content, encoding, decode).error)
    ensures r.Ok? <==> StringFromEntity(w.content, encoding, decode).Ok? && IsSuccessStatus(w.statusCode)
    ensures r.Ok? ==>
              && r.value.statusCode == w.statusCode
              && r.value.reasonPhrase == w.reasonPhrase
              && r.value.responseBody == Some(StringFromEntity(w.content, encoding, decode).value)
              && r.value.bodyPresent
              && r.value.responseHeaders == (if includeResponseHeaders then Some(HeaderMapOf(w.headers)) else None)
    ensures StringFromEntity(w.content, encoding, decode).Ok? && !IsSuccessStatus(w.statusCode) ==>
              r == Err(Construct(WithStatus(
                         Some(UnknownServerClientError + IntToString(w.statusCode)),
                         w.statusCode, w.reasonPhrase,
                         Some(StringFromEntity(w.content, encoding, decode).value),
                         Some(HeaderMapOf(w.headers)))))
  {
    var body :- StringFromEntity(w.content, encoding, decode);
    if IsSuccessStatus(w.statusCode) then
      if includeResponseHeaders then
        Ok(NewResponseWithHeaders(Some(body), w.reasonPhrase, w.statusCode, Some(HeaderMapOf(w.headers))))
      else
        Ok(NewResponse(Some(body), w.reasonPhrase, w.statusCode))
    else
      Err(CallException(Some(UnknownServerClientError + IntToString(w.statusCode)),
                        w.statusCode, w.reasonPhrase, Some(body), Some(HeaderMapOf(w.headers)), None))
  }

  /** The failure message names the status code: stripping the prefix and
      reading the rest as a number gives the code back. */
  lemma FailureMessageNamesStatus(w: WireResponse, encoding: string, includeResponseHeaders: bool,
                                  decode: (Bytes, string) -> Result<string, JString>)
    requires StringFromEntity(w.content, encoding, decode).Ok?
    requires !IsSuccessStatus(w.statusCode)
    ensures var r := ProcessHttpResponse(w, encoding, includeResponseHeaders, decode);
      && r.Err? && r.error.message.Some?
      && var msg := r.error.message.value;
      && |UnknownServerClientError| < |msg|
      && msg[..|UnknownServerClientError|] == UnknownServerClientError
      && var digits := msg[|UnknownServerClientError|..];
      && (digits[0] == '-' ==> AllDigits(digits[1..]))
      && (digits[0] != '-' ==> AllDigits(digits))
      && ParseInt(digits) == w.statusCode
  {
    var msg := UnknownServerClientError + IntToString(w.statusCode);
    assert msg[|UnknownServerClientError|..] == IntToString(w.statusCode);
    IntToStringRoundTrip(w.statusCode);
  }

  /** Every response produced by classification has `bodyPresent` set: the body
      text is never null, the "NoContent" sentinel included. */
  lemma ProcessedResponseHasBody(w: WireResponse, encoding: string, includeResponseHeaders: bool,
                                 decode: (Bytes, string) -> Result<string, JString>)
    requires ProcessHttpResponse(w, encoding, includeResponseHeaders, decode).Ok?
    ensures var resp := ProcessHttpResponse(w, encoding, includeResponseHeaders, decode).value;
            resp.bodyPresent && resp.responseBody.Some?
    ensures w.content.NullStream? ==>
              ProcessHttpResponse(w, encoding, includeResponseHeaders, decode).value.responseBody
              == Some(NoContentMessage)
  {
  }

  /** `executeHttpRequest`: an I/O failure while sending is wrapped with its
      message; a received response is classified. */
  function ExecuteHttpRequest(req: HttpRequest, encoding: string, includeResponseHeaders: bool,
                              transport: Transport): (r: Result<HttpClientResponse, CallException>)
    ensures transport.send(req).IoFailure? ==> r == Err(Wrapping(transport.send(req).message))
    ensures transport.send(req).Received? ==>
              r == ProcessHttpResponse(transport.send(req).response, encoding,
                                       includeResponseHeaders, transport.decode)
  {
    match transport.send(req)
    case IoFailure(m) => Err(Wrapping(m))
    case Received(w) => ProcessHttpResponse(w, encoding, includeResponseHeaders, transport.decode)
  }

  // ---------------------------------------------------------------------------
  // Building the request

  /** `addRequestHeaders`: every supplied entry is appended (existing headers are
      kept, duplicates included); then, if no `Content-Type` header is on the
      request, the default one is set. A found header always has a non-empty
      name, so the source's empty-name test adds nothing. */
  function AddRequestHeaders(hs: seq<Header>, supplied: HeaderEntries): (r: seq<Header>)
    ensures var appended := if supplied.Some? then hs + supplied.value else hs;
      && appended <= r
      && (ContentTypeHeader in Names(appended) ==> r == appended)
      && (ContentTypeHeader !in Names(appended) ==>
            r == appended + [Header(ContentTypeHeader, DefaultContentType)])
    ensures ContentTypeHeader in Names(r)
  {
    var appended := if supplied.Some? && |supplied.value| > 0 then hs + supplied.value else hs;
    assert supplied.Some? && |supplied.value| == 0 ==> hs + supplied.value == hs;
    if FirstHeader(appended, ContentTypeHeader).None? then
      SetHeader(appended, ContentTypeHeader, DefaultContentType)
    else
      appended
  }

  /** When the request had no `Content-Type` before, the first one it has
      afterwards carries the supplied value if there was one, else the default. */
  lemma ContentTypeAfterAdding(hs: seq<Header>, supplied: HeaderEntries)
    requires ContentTypeHeader !in Names(hs)
    ensures Lookup(supplied, ContentTypeHeader).Some? ==>
              FirstHeader(AddRequestHeaders(hs, supplied), ContentTypeHeader)
              == Some(Header(ContentTypeHeader, Lookup(supplied, ContentTypeHeader).value))
    ensures Lookup(supplied, ContentTypeHeader).None? ==>
              FirstHeader(AddRequestHeaders(hs, supplied), ContentTypeHeader)
              == Some(Header(ContentTypeHeader, DefaultContentType))
  {
    var appended := if supplied.Some? then hs + supplied.value else hs;
    if supplied.Some? {
      FirstHeaderAppend(hs, supplied.value, ContentTypeHeader);
    }
    if ContentTypeHeader !in Names(appended) {
      FirstHeaderAppend(appended, [Header(ContentTypeHeader, DefaultContentType)], ContentTypeHeader);
    }
  }

  /** `addRequestTimeoutConfig`: one value for all three timeouts. */
  function TimeoutConfig(timeout: int): (c: RequestConfig)
    ensures c.connectionRequestTimeout == timeout
    ensures c.connectTimeout == timeout
    ensures c.socketTimeout == timeout
  {
    RequestConfig(timeout, timeout, timeout)
  }

  /** `addBasicAuthHttpHeader`: appends the `Authorization` header the Basic
      scheme computes; when the scheme fails the header is silently omitted. */
  function AddBasicAuthHeader(hs: seq<Header>, username: JString, password: JString,
                              basicAuth: (JString, JString) -> Option<string>): (r: seq<Header>)
    ensures basicAuth(username, password).Some? ==>
              r == hs + [Header(AuthorizationHeader, basicAuth(username, password).value)]
    ensures basicAuth(username, password).None? ==> r == hs
  {
    match basicAuth(username, password)
    case None => hs
    case Some(v) => hs + [Header(AuthorizationHeader, v)]
  }
}
