/** The HTTP messages the library builds and receives, as plain values. The
    underlying HTTP library's request and response objects are reduced to the
    parts the library reads or writes. */
module Http {
  import opened Wrappers
  import opened Text

  datatype Header = Header(name: string, value: string)

  /** A `Map<String, String>` of headers supplied by a caller, given as its
      entries in iteration order; `None` is a null map. */
  type HeaderEntries = Option<seq<Header>>

  datatype Method = Get | Post

  /** The per-request timeouts, in milliseconds. */
  datatype RequestConfig = RequestConfig(
    connectionRequestTimeout: int,
    connectTimeout: int,
    socketTimeout: int)

  /** A request body built from text with a content type. */
  datatype RequestEntity = RequestEntity(text: string, contentType: string)

  /** An outgoing request: its header list keeps every added header in order. */
  datatype HttpRequest = HttpRequest(
    verb: Method,
    url: string,
    headers: seq<Header>,
    config: Option<RequestConfig>,
    entity: Option<RequestEntity>)

  type Bytes = seq<bv8>

  /** What asking a response entity for its content stream yields: `null`, a
      stream of bytes, or an I/O failure with its message. */
  datatype EntityContent = NullStream | Stream(bytes: Bytes) | StreamFailure(message: JString)

  /** A response as received: status line, entity and the header list in wire order. */
  datatype WireResponse = WireResponse(
    statusCode: int,
    reasonPhrase: JString,
    content: EntityContent,
    headers: seq<Header>)

  /** The outcome of sending one request: a response, or an I/O failure. */
  datatype Exchange = Received(response: WireResponse) | IoFailure(message: JString)

  /** The collaborators the library calls but does not implement: sending a
      request over the network, decoding entity bytes with a charset, and
      computing the value of a Basic `Authorization` header from a username and
      password (`None` when the scheme fails, which the library swallows). */
  datatype Transport = Transport(
    send: HttpRequest -> Exchange,
    decode: (Bytes, string) -> Result<string, JString>,
    basicAuth: (JString, JString) -> Option<string>)

  /** The names occurring in a header list. */
  function Names(hs: seq<Header>): (names: set<string>)
    ensures forall i :: 0 <= i < |hs| ==> hs[i].name in names
    ensures forall n :: n in names ==> exists i :: 0 <= i < |hs| && hs[i].name == n
  {
    set i | 0 <= i < |hs| :: hs[i].name
  }

  /** The position of the first header with exactly this name. */
  function FirstIndex(hs: seq<Header>, name: string): (i: nat)
    requires name in Names(hs)
    ensures i < |hs| && hs[i].name == name
    ensures forall j :: 0 <= j < i ==> hs[j].name != name
  {
    if hs[0].name == name then 0
    else
      assert Names(hs) == {hs[0].name} + Names(hs[1..]);
      var k := FirstIndex(hs[1..], name);
      assert forall j :: 1 <= j < k + 1 ==> hs[j] == hs[1..][j - 1];
      k + 1
  }

  /** The first header with exactly this name. */
  function FirstHeader(hs: seq<Header>, name: string): (r: Option<Header>)
    ensures r.None? <==> name !in Names(hs)
    ensures r.Some? ==> r.value == hs[FirstIndex(hs, name)]
  {
    if |hs| == 0 then None
    else if hs[0].name == name then Some(hs[0])
    else
      assert Names(hs) == {hs[0].name} + Names(hs[1..]);
      FirstHeader(hs[1..], name)
  }

  /** `Map.get` on supplied headers: the value of the entry with this name. */
  function Lookup(entries: HeaderEntries, name: string): (r: Option<string>)
    ensures r.Some? <==> entries.Some? && name in Names(entries.value)
    ensures r.Some? ==> Header(name, r.value) in entries.value
    ensures r.Some? ==> Header(name, r.value) == entries.value[FirstIndex(entries.value, name)]
  {
    match entries
    case None => None
    case Some(es) =>
      match FirstHeader(es, name)
      case None => None
      case Some(h) => Some(h.value)
  }

  /** `setHeader`: replaces the first header with this name, or appends one when
      there is none; either way the header is then the first one found. */
  function SetHeader(hs: seq<Header>, name: string, value: string): (r: seq<Header>)
    ensures name !in Names(hs) ==> r == hs + [Header(name, value)]
    ensures name in Names(hs) ==> r == hs[FirstIndex(hs, name) := Header(name, value)]
    ensures FirstHeader(r, name) == Some(Header(name, value))
  {
    if name in Names(hs) then
      var i := FirstIndex(hs, name);
      FirstHeaderAt(hs[i := Header(name, value)], name, i);
      hs[i := Header(name, value)]
    else
      FirstHeaderAppend(hs, [Header(name, value)], name);
      hs + [Header(name, value)]
  }

  /** A header that no earlier header shares a name with is the one found. */
  lemma {:induction false} FirstHeaderAt(hs: seq<Header>, name: string, i: int)
    requires 0 <= i < |hs| && hs[i].name == name
    requires forall j :: 0 <= j < i ==> hs[j].name != name
    ensures FirstHeader(hs, name) == Some(hs[i])
    decreases i
  {
    if i > 0 {
      assert hs[0].name != name;
      assert forall j :: 0 <= j < i - 1 ==> hs[1..][j] == hs[j + 1];
      FirstHeaderAt(hs[1..], name, i - 1);
    }
  }

  /** On a header list that holds a name at most once, as the entries of a
      Java `Map` do, the lookup yields the value of the one entry with that name. */
  lemma LookupIsMapGet(es: seq<Header>, i: int, name: string)
    requires 0 <= i < |es| && es[i].name == name
    requires forall j :: 0 <= j < |es| && es[j].name == name ==> j == i
    ensures Lookup(Some(es), name) == Some(es[i].value)
  {
  }

  /** Looking a name up in a concatenation: the first part wins when it has the name. */
  lemma {:induction false} FirstHeaderAppend(a: seq<Header>, b: seq<Header>, name: string)
    ensures name in Names(a) ==> FirstHeader(a + b, name) == FirstHeader(a, name)
    ensures name !in Names(a) ==> FirstHeader(a + b, name) == FirstHeader(b, name)
    decreases |a|
  {
    if |a| > 0 {
      assert (a + b)[0] == a[0];
      assert (a + b)[1..] == a[1..] + b;
      assert Names(a) == {a[0].name} + Names(a[1..]);
      FirstHeaderAppend(a[1..], b, name);
    } else {
      assert a + b == b;
    }
  }
}
