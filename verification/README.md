# SimpleHttpClient in Dafny

A model of the request/response core of SimpleHttpClient, a small Java library
over Apache HttpClient. It covers:

- the low-level requesters `AHttpGetRequest` and `AHttpPostRequest`;
- their shared base `ABasicAuthHttpRequestBase`;
- the response records `AHttpClientResponse` and `SClientResponse`;
- the failure record `AHttpClientCallException`;
- the typed clients `SGetClient` and `SPostClient`.

The typed clients serialise a request object, send it, and parse the response
body into an object with a message converter.

The modules follow the Java classes:

| module | models |
|---|---|
| `Wrappers` | `Option` (a Java null) and `Result` (a thrown exception) |
| `Text` | a possibly-null `String`, `StringUtils.isEmpty`, concatenation of null, the decimal text of an `int` |
| `Constants` | `AHttpClientConstants` |
| `Http` | headers, request objects, the wire response, and the transport |
| `ClientCallException` | `AHttpClientCallException` |
| `ClientResponse` | `AHttpClientResponse`, `SClientResponse` |
| `RequestBase` | `ABasicAuthHttpRequestBase` |
| `Preflight` | the validation and defaulting both full `execute*` methods begin with |
| `PostRequest`, `GetRequest` | `AHttpPostRequest`, `AHttpGetRequest`, with their overloads and their `authRequired` flag |
| `TypedCall` | what `SGetClient` and `SPostClient` share: the lazily created converter and the completion of a call |
| `TypedGetClient`, `TypedPostClient` | `SGetClient`, `SPostClient` |

The network is a `Transport` value with three parts, each a total function:

- `send` maps a request to a received response or an I/O failure.
- `decode` turns the body bytes into text under the encoding the caller passed, or fails with an I/O error while reading.
- `basicAuth` yields the `Authorization` value of the Basic scheme, or nothing when the scheme fails.

Everything the library computes around these three parts is modelled. A thrown
exception is an `Err`. A mutable object is a value that each call returns
updated:

- the `authRequired` flag of a requester;
- the stored `response` and `messageConverter` of a typed client.

A status code in [100, 400) counts as success. That covers the informational,
successful and redirection classes of section 15 of RFC 9110.

The code is followed where its prose description differs. In particular,
`getStringFromEntity` answers the text `"NoContent"` when the entity has no
content stream. So a successful response never has a null body and always has
`bodyPresent` set. As a result the typed clients consult the converter on every
successful call, even when the body is that sentinel.

## Model

| member | source | states |
|---|---|---|
| Text.Show | src/main/java/com/shc/ahttp/client/request/AHttpPostRequest.java:524-535 | a null reference concatenates as the text "null", any other as itself |
| Text.IntToString | src/main/java/com/shc/ahttp/client/request/ABasicAuthHttpRequestBase.java:145-148 | the text of an int is non-empty and starts with '-' exactly for negatives |
| Text.IntToStringRoundTrip | src/main/java/com/shc/ahttp/client/request/ABasicAuthHttpRequestBase.java:145-148 | reading the rendered status code back as a signed decimal gives the code, so the failure message loses nothing |
| Text.IntToStringInjective | src/main/java/com/shc/ahttp/client/request/ABasicAuthHttpRequestBase.java:145-148 | distinct status codes give distinct failure messages |
| Text.NatToStringRoundTrip | src/main/java/com/shc/ahttp/client/request/ABasicAuthHttpRequestBase.java:145-148 | the digits of a natural read back as that natural (induction on the number) |
| Http.FirstIndex | src/main/java/com/shc/ahttp/client/request/ABasicAuthHttpRequestBase.java:248-249 | the position found holds a header of the asked name and no earlier header has that name |
| Http.FirstHeader | src/main/java/com/shc/ahttp/client/request/ABasicAuthHttpRequestBase.java:248-249 | none is found exactly when no header has the asked name; otherwise the header found is the one at the first position with that name |
| Http.Lookup | src/main/java/com/shc/ahttp/client/request/AHttpPostRequest.java:556-558 | a supplied header map yields a value for a name exactly when it is non-null and contains that name, and the value is that of the first entry with the name |
| Http.LookupIsMapGet | src/main/java/com/shc/ahttp/client/request/AHttpPostRequest.java:556-558 | on entries holding each name at most once, as a Java map does, the lookup yields the value of the one entry with that name |
| Http.SetHeader | src/main/java/com/shc/ahttp/client/request/ABasicAuthHttpRequestBase.java:251-255 | setting a header appends it when its name is absent; when present it replaces the first header of that name and keeps every other header in place; either way the first header of that name is the new one |
| Http.FirstHeaderAppend | src/main/java/com/shc/ahttp/client/request/ABasicAuthHttpRequestBase.java:239-255 | in headers added after existing ones, an existing header of a name is found first; otherwise the added ones are searched |
| Http.FirstHeaderAt | src/main/java/com/shc/ahttp/client/request/ABasicAuthHttpRequestBase.java:248-249 | a header that no earlier header shares a name with is the one getFirstHeader finds (induction on its position) |
| ClientCallException.Construct | src/main/java/com/shc/ahttp/client/exception/AHttpClientCallException.java:46-137 | each of the six constructors stores exactly the fields it takes; the rest keep 0 and null; the cause is present exactly for the three constructors that take one |
| ClientCallException.GetMessage | src/main/java/com/shc/ahttp/client/exception/AHttpClientCallException.java:143-145 | getMessage returns the stored message field, which a cause never fills in |
| ClientCallException.GetMessageNullIff | src/main/java/com/shc/ahttp/client/exception/AHttpClientCallException.java:46-145 | getMessage is null exactly for the no-argument and cause-only constructors, or when null was passed as the message |
| ClientCallException.StatusConstructorsAgree | src/main/java/com/shc/ahttp/client/exception/AHttpClientCallException.java:103-137 | the two status-carrying constructors build the same object apart from the cause |
| ClientCallException.Wrapping | src/main/java/com/shc/ahttp/client/request/ABasicAuthHttpRequestBase.java:91-93 | a wrapped I/O failure is the message-and-cause constructor, with the cause's message as its own |
| ClientResponse.NewResponse | src/main/java/com/shc/ahttp/client/response/AHttpClientResponse.java:42-50 | the three-argument constructor stores body, reason and status, sets bodyPresent exactly when the body is non-null, and has no headers |
| ClientResponse.NewResponseWithHeaders | src/main/java/com/shc/ahttp/client/response/AHttpClientResponse.java:64-68 | the four-argument constructor stores body, reason and status, sets bodyPresent exactly when the body is non-null, and stores the headers |
| ClientResponse.SetResponseBody | src/main/java/com/shc/ahttp/client/response/AHttpClientResponse.java:85-87 | replaces the body and nothing else; bodyPresent keeps its value |
| ClientResponse.SetReasonPhrase | src/main/java/com/shc/ahttp/client/response/AHttpClientResponse.java:104-106 | replaces the reason phrase and nothing else |
| ClientResponse.SetStatusCode | src/main/java/com/shc/ahttp/client/response/AHttpClientResponse.java:123-125 | replaces the status code and nothing else |
| ClientResponse.SetResponseHeaders | src/main/java/com/shc/ahttp/client/response/AHttpClientResponse.java:142-144 | replaces the headers and nothing else |
| ClientResponse.BodyPresentCanGoStale | src/main/java/com/shc/ahttp/client/response/AHttpClientResponse.java:42-87 | for every response built by the constructor and every body set afterwards, bodyPresent still reports the constructor's body, so it matches the current body exactly when both are null or both are non-null |
| ClientResponse.NewTypedResponse | src/main/java/com/shc/ahttp/client/response/SClientResponse.java:29-33 | the typed constructor stores body, reason, status and the parsed object, derives bodyPresent from the body, and has no headers |
| ClientResponse.NewTypedResponseWithHeaders | src/main/java/com/shc/ahttp/client/response/SClientResponse.java:49-53 | the typed constructor with headers stores body, reason, status, headers and the parsed object, and derives bodyPresent from the body |
| ClientResponse.IsResponsePresent | src/main/java/com/shc/ahttp/client/response/SClientResponse.java:79-81 | isResponsePresent holds exactly when the parsed object is non-null |
| ClientResponse.SetResponse | src/main/java/com/shc/ahttp/client/response/SClientResponse.java:70-81 | replaces the parsed object and keeps the base; isResponsePresent holds exactly when the object is non-null |
| ClientResponse.TypedConstructorsAgree | src/main/java/com/shc/ahttp/client/response/SClientResponse.java:29-53 | both typed constructors derive bodyPresent as the base class does, and the one with null headers equals the one without |
| RequestBase.IsSuccessStatus | src/main/java/com/shc/ahttp/client/request/ABasicAuthHttpRequestBase.java:135 | a status counts as success exactly when it is informational, successful or a redirection in the classes of RFC 9110 |
| RequestBase.StringFromEntity | src/main/java/com/shc/ahttp/client/request/ABasicAuthHttpRequestBase.java:170-183 | a missing content stream gives "NoContent"; a stream is decoded with the encoding; a read or decode failure is wrapped with its message |
| RequestBase.PutAll | src/main/java/com/shc/ahttp/client/request/ABasicAuthHttpRequestBase.java:197-200 | putting every header into a map leaves as keys the earlier keys plus exactly the header names |
| RequestBase.PutAllKeeps | src/main/java/com/shc/ahttp/client/request/ABasicAuthHttpRequestBase.java:194-202 | a key no header names keeps its earlier value |
| RequestBase.PutAllLastWins | src/main/java/com/shc/ahttp/client/request/ABasicAuthHttpRequestBase.java:194-202 | for every name, the map holds the value of the last header with that name |
| RequestBase.HeaderMapOf | src/main/java/com/shc/ahttp/client/request/ABasicAuthHttpRequestBase.java:194-202 | the header map has exactly the header names as keys, each mapped to the value of its last occurrence |
| RequestBase.ProcessHttpResponse | src/main/java/com/shc/ahttp/client/request/ABasicAuthHttpRequestBase.java:127-151 | a body read failure wins; otherwise success exactly for [100, 400), copying status, reason and body, with bodyPresent, and with headers only when asked; any other status fails with the status constructor, the prefixed message and always the headers |
| RequestBase.FailureMessageNamesStatus | src/main/java/com/shc/ahttp/client/request/ABasicAuthHttpRequestBase.java:143-149 | the failure message is the fixed prefix followed by a decimal text that reads back as the status code |
| RequestBase.ProcessedResponseHasBody | src/main/java/com/shc/ahttp/client/request/ABasicAuthHttpRequestBase.java:130-142 | every successful response has a non-null body and bodyPresent set; with no content stream the body is "NoContent" |
| RequestBase.ExecuteHttpRequest | src/main/java/com/shc/ahttp/client/request/ABasicAuthHttpRequestBase.java:84-102 | an I/O failure while sending is wrapped with its message; a received response is classified by processHttpResponse |
| RequestBase.AddRequestHeaders | src/main/java/com/shc/ahttp/client/request/ABasicAuthHttpRequestBase.java:237-257 | the supplied headers are appended after the existing ones, and the default Content-Type is added exactly when no header has that name; afterwards one always does |
| RequestBase.ContentTypeAfterAdding | src/main/java/com/shc/ahttp/client/request/ABasicAuthHttpRequestBase.java:237-257 | under exact name matching, on a request without Content-Type, the first Content-Type afterwards is the supplied one if given, else the default |
| RequestBase.TimeoutConfig | src/main/java/com/shc/ahttp/client/request/ABasicAuthHttpRequestBase.java:271-278 | one timeout value is used for the connection-request, connect and socket timeouts |
| RequestBase.AddBasicAuthHeader | src/main/java/com/shc/ahttp/client/request/ABasicAuthHttpRequestBase.java:294-332 | the Basic scheme's Authorization header is appended; when the scheme fails nothing is added |
| Preflight.RequiredFieldError | src/main/java/com/shc/ahttp/client/request/AHttpPostRequest.java:524-535 | the failure message is "Required Field: ", the field label, the value as concatenated ("null" for null) and " cannot be null or empty"; no status, cause or response context |
| Preflight.Validate | src/main/java/com/shc/ahttp/client/request/AHttpPostRequest.java:524-535 | the url is checked first, then the username, then the password, the last two only while authentication is required; the call passes exactly when none is empty, and each failure names its field and value |
| Preflight.CredentialsIgnoredWithoutAuth | src/main/java/com/shc/ahttp/client/request/AHttpGetRequest.java:455-465 | without authentication the credentials do not affect validation |
| Preflight.ResolveEncoding | src/main/java/com/shc/ahttp/client/request/AHttpPostRequest.java:537-539 | an empty or null encoding becomes UTF-8; any other is kept |
| Preflight.ResolveTimeout | src/main/java/com/shc/ahttp/client/request/AHttpPostRequest.java:540-542 | a timeout below 1 becomes 30000; any other is kept, so the result is always positive |
| Preflight.ResolveIdempotent | src/main/java/com/shc/ahttp/client/request/AHttpPostRequest.java:537-542 | resolving an already resolved encoding or timeout changes nothing |
| PostRequest.EntityContentType | src/main/java/com/shc/ahttp/client/request/AHttpPostRequest.java:555-561 | the entity's content type is the supplied Content-Type entry when present, otherwise the default |
| PostRequest.AuthHeaders | src/main/java/com/shc/ahttp/client/request/AHttpPostRequest.java:546-548 | a POST starts with the Basic header only while authentication is required, and only with Authorization headers |
| PostRequest.PreparePost | src/main/java/com/shc/ahttp/client/request/AHttpPostRequest.java:519-565 | a POST is built exactly when validation passes, to the given url, with the resolved encoding and timeout and the assembled headers, and with an entity exactly when the body is non-empty |
| PostRequest.ExecutePost | src/main/java/com/shc/ahttp/client/request/AHttpPostRequest.java:519-571 | a validation failure is returned as is; otherwise the prepared request is executed |
| PostRequest.ValidationPrecedesTransport | src/main/java/com/shc/ahttp/client/request/AHttpPostRequest.java:524-535 | a call that fails validation fails, and its outcome is the same whatever the network does |
| PostRequest.AuthHeaderIffAuthRequired | src/main/java/com/shc/ahttp/client/request/AHttpPostRequest.java:546-550 | the Authorization header leads the request exactly when authentication is required and the scheme yields a value; otherwise the headers are only the supplied ones and the default |
| PostRequest.EntityTypeMatchesHeader | src/main/java/com/shc/ahttp/client/request/AHttpPostRequest.java:550-565 | under exact name matching, an attached entity's content type equals the value of the request's first Content-Type header |
| PostRequest.CredentialsIrrelevantWithoutAuth | src/main/java/com/shc/ahttp/client/request/AHttpPostRequest.java:519-571 | without authentication the credentials passed make no difference to the call |
| PostRequest.Expand | src/main/java/com/shc/ahttp/client/request/AHttpPostRequest.java:69-488 | every overload forwards its url and body, its credentials or null ones when it takes none, and each argument it takes; each omitted argument gets the library default |
| PostRequest.After | src/main/java/com/shc/ahttp/client/request/AHttpPostRequest.java:278-488 | after an overload the flag holds exactly when it held before and the overload takes credentials |
| PostRequest.Call | src/main/java/com/shc/ahttp/client/request/AHttpPostRequest.java:69-571 | an overload updates the flag first, then runs the full call with its expanded arguments under the updated flag |
| PostRequest.RunAuthRequired | src/main/java/com/shc/ahttp/client/request/AHttpPostRequest.java:49-488 | after any sequence of calls the flag holds exactly when it held at the start and no call was anonymous (induction on the calls) |
| PostRequest.ClearedFlagIsSticky | src/main/java/com/shc/ahttp/client/request/AHttpPostRequest.java:49-571 | once cleared the flag stays cleared, and a later credentialed call no longer depends on the credentials it passes |
| PostRequest.ShortAnonymousPostIsFullCall | src/main/java/com/shc/ahttp/client/request/AHttpPostRequest.java:280-287 | the two-argument overload clears the flag and runs the full call with UTF-8, null credentials, 30000, null headers and no response headers |
| GetRequest.PrepareGet | src/main/java/com/shc/ahttp/client/request/AHttpGetRequest.java:450-478 | a GET is built exactly when validation passes, with the resolved encoding and timeout, the Basic header only while authentication is required, and no entity |
| GetRequest.ExecuteGet | src/main/java/com/shc/ahttp/client/request/AHttpGetRequest.java:450-484 | a validation failure is returned as is; otherwise the prepared request is executed |
| GetRequest.ValidationPrecedesTransport | src/main/java/com/shc/ahttp/client/request/AHttpGetRequest.java:455-465 | a call that fails validation fails, and its outcome is the same whatever the network does |
| GetRequest.GetCarriesContentType | src/main/java/com/shc/ahttp/client/request/AHttpGetRequest.java:473-476 | under exact name matching, a GET always carries Content-Type: the supplied value when given, else the default |
| GetRequest.CredentialsIrrelevantWithoutAuth | src/main/java/com/shc/ahttp/client/request/AHttpGetRequest.java:450-484 | without authentication the credentials passed make no difference to the call |
| GetRequest.Expand | src/main/java/com/shc/ahttp/client/request/AHttpGetRequest.java:60-423 | every overload forwards its url, its credentials or null ones when it takes none, and each argument it takes; each omitted argument gets the library default |
| GetRequest.After | src/main/java/com/shc/ahttp/client/request/AHttpGetRequest.java:243-423 | after an overload the flag holds exactly when it held before and the overload takes credentials |
| GetRequest.Call | src/main/java/com/shc/ahttp/client/request/AHttpGetRequest.java:60-484 | an overload updates the flag first, then runs the full call with its expanded arguments under the updated flag |
| GetRequest.RequestStringIgnored | src/main/java/com/shc/ahttp/client/request/AHttpGetRequest.java:117-127 | the two overloads that accept a request string behave the same whatever it is |
| GetRequest.RunAuthRequired | src/main/java/com/shc/ahttp/client/request/AHttpGetRequest.java:44-423 | after any sequence of calls the flag holds exactly when it held at the start and no call was anonymous (induction on the calls) |
| GetRequest.ShortCredentialedGetIsFullCall | src/main/java/com/shc/ahttp/client/request/AHttpGetRequest.java:60-65 | on a new object the three-argument overload keeps authentication and runs the full call with UTF-8, 30000, null headers and no response headers |
| TypedCall.Obtain | src/main/java/com/shc/ahttp/client/SGetClient.java:315-320 | a held converter is returned as it is; only when none is held is the default instantiated |
| TypedCall.Complete | src/main/java/com/shc/ahttp/client/SGetClient.java:267-284 | a low-level failure becomes a client error and changes nothing. With a body present the converter is obtained and kept, and the parsed object is stored and returned. Without a body the stored object is reused. Every result copies body, reason, status and headers |
| TypedCall.NoBodyNoConversion | src/main/java/com/shc/ahttp/client/SGetClient.java:273-276 | without a body the outcome does not depend on the default converter |
| TypedGetClient.Construct | src/main/java/com/shc/ahttp/client/SGetClient.java:109-243 | each constructor stores the fields it takes and leaves the rest null, 0 or false; authentication is required exactly for the constructors that take credentials |
| TypedGetClient.LowLevelGet | src/main/java/com/shc/ahttp/client/SGetClient.java:259-269 | a typed GET makes the full low-level call, with authentication exactly when the client requires it |
| TypedGetClient.Get | src/main/java/com/shc/ahttp/client/SGetClient.java:254-285 | on a low-level failure a client error with the state unchanged; with a body present but no converter obtainable a client error with the state unchanged; otherwise conversion as described for Complete; the configuration never changes and a held converter is kept |
| TypedGetClient.CallsAreIndependent | src/main/java/com/shc/ahttp/client/SGetClient.java:254-285 | a call's configuration, and so its low-level outcome, is unaffected by earlier calls |
| TypedGetClient.ConverterConsultedOnSuccess | src/main/java/com/shc/ahttp/client/SGetClient.java:273-276 | every successful low-level call has bodyPresent set, so the converter runs on every successful GET |
| TypedGetClient.AuthFollowsConstruction | src/main/java/com/shc/ahttp/client/SGetClient.java:109-269 | a client built without credentials passes validation whatever its credentials; one built with an empty username fails with the username error before anything is sent |
| TypedPostClient.Construct | src/main/java/com/shc/ahttp/client/SPostClient.java:109-247 | each constructor stores the url, the request object and the fields it takes, and leaves the rest null, 0 or false; authentication is required exactly for the constructors that take credentials |
| TypedPostClient.LowLevelPost | src/main/java/com/shc/ahttp/client/SPostClient.java:264-275 | a typed POST makes the full low-level call with the serialised body, with authentication exactly when the client requires it |
| TypedPostClient.Post | src/main/java/com/shc/ahttp/client/SPostClient.java:257-291 | the converter is obtained and the request object serialised before any request is built; each failure gives its client error; the stored object changes only when a body is parsed; the configuration never changes |
| TypedPostClient.SerializationPrecedesTransport | src/main/java/com/shc/ahttp/client/SPostClient.java:260-262 | when serialisation fails the outcome is the same whatever the network does |
| TypedPostClient.ConverterCreatedOnce | src/main/java/com/shc/ahttp/client/SPostClient.java:330-335 | once a client holds a converter, every later sequence of calls keeps exactly that converter and the configuration (induction on the calls) |
| TypedPostClient.ConverterConsultedOnSuccess | src/main/java/com/shc/ahttp/client/SPostClient.java:278-281 | every successful low-level call has bodyPresent set, so the converter parses the body on every successful POST |

## Left out

- Opening connections, sending bytes and closing the response and the client are left out. The network is the `send` part of `Transport`, and closing has no observable effect.
- Charset decoding in `EntityUtils.toString` is the `decode` part of `Transport`. Its failures are the I/O errors that `getStringFromEntity` wraps.
- RequestBase.StringFromEntity: does not model two charset behaviours of `EntityUtils.toString`. First, a charset declared in the entity's own content type takes precedence over the encoding passed in, but `decode` only sees the passed encoding. Second, an unknown or illegal charset name raises an unchecked exception that escapes both `getStringFromEntity` and the typed clients unwrapped. In the model a decode failure is always a wrapped `CallException`.
- Base64 encoding in `BasicScheme.authenticate` is the `basicAuth` part of `Transport`. When that call throws, the library swallows the exception and adds a null header, which the request ignores. The model adds no header.
- `getFirstHeader` in HttpCore compares names case-insensitively. `Http.FirstHeader` compares them exactly, so a supplied `content-type` in another spelling gets the default added as well.
- RequestBase.ContentTypeAfterAdding, PostRequest.EntityTypeMatchesHeader and GetRequest.GetCarriesContentType hold only for supplied keys spelled exactly `Content-Type`. In the library a key spelled otherwise, such as `content-type`, behaves differently. The case-insensitive `getFirstHeader` finds it, so no default header is added. The exact-key `headers.get("Content-Type")` misses it, so the POST entity gets the default JSON content type. The header sent and the entity's type then disagree, which these members do not capture.
- Header maps are lists of entries in iteration order. A Java map cannot repeat a key, so duplicates do not arise from callers. `HashMap` iteration order is unspecified and taken as given.
- Null keys and null values inside header maps are left out. Header names and values are plain strings.
- An entity that is itself null makes `getStringFromEntity` throw a NullPointerException that the library does not catch. The model always receives an entity and has no such case.
- `ContentType.parse` is not modelled: a malformed content type makes the library throw at runtime. The entity records the content type text.
- `new HttpPost(url)` and `new HttpGet(url)` throw on a malformed URI. Only the empty-url check is modelled.
- Jackson, and the reflection that instantiates the default converter class, are left out. The converter is a pair of functions that may fail. Instantiation is an outcome passed to each call.
- `SClientException` is reduced to its origin in `TypedCall.ClientError`. Its message, the `toString` of the wrapped exception, is not modelled.
- `toString` methods, `getStatusCode`/`getStatusText`/`getResponseBody` of the exception, the client getters and setters, and `serialVersionUID` are not modelled. They are plain field accesses or text for logging.
- Java `int` width: nothing here does arithmetic on status codes or timeouts, so unbounded integers behave the same.
- `getHttpClient` is not modelled: it creates a client per call, and the transport stands in for it.
- `responseClass` is not modelled: the converter's result type carries it.
