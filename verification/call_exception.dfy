/** `AHttpClientCallException`: the failure record of a low-level HTTP call. It
    carries the response context (status, status text, body, headers) when the
    failure comes from a status code, and the underlying cause when it wraps
    another exception. */
module ClientCallException {
  import opened Wrappers
  import opened Text

  /** An underlying exception, reduced to its message. */
  datatype Cause = Cause(message: JString)

  datatype CallException = CallException(
    message: JString,
    statusCode: int,
    statusText: JString,
    responseBody: JString,
    responseHeaders: Option<map<string, string>>,
    cause: Option<Cause>)

  /** The arguments of each constructor the class declares. */
  datatype Construction =
    | NoArgs
    | WithMessage(message: JString)
    | WithMessageAndCause(message: JString, cause: Cause)
    | WithCause(cause: Cause)
    | WithStatusAndCause(message: JString, statusCode: int, statusText: JString,
                         responseBody: JString, responseHeaders: Option<map<string, string>>,
                         cause: Cause)
    | WithStatus(message: JString, statusCode: int, statusText: JString,
                 responseBody: JString, responseHeaders: Option<map<string, string>>)
  {
    /** Whether the constructor takes a status code and the response context. */
    predicate CarriesStatus() {
      WithStatusAndCause? || WithStatus?
    }

    /** Whether the constructor takes a message. */
    predicate CarriesMessage() {
      !NoArgs? && !WithCause?
    }
  }

  /** The object each constructor builds; fields a constructor does not set keep
      their Java defaults (0 and null). */
  function Construct(c: Construction): (e: CallException)
    ensures c.CarriesStatus() ==>
      && e.statusCode == c.statusCode && e.statusText == c.statusText
      && e.responseBody == c.responseBody && e.responseHeaders == c.responseHeaders
    ensures !c.CarriesStatus() ==>
      e.statusCode == 0 && e.statusText.None? && e.responseBody.None? && e.responseHeaders.None?
    ensures c.CarriesMessage() ==> e.message == c.message
    ensures !c.CarriesMessage() ==> e.message.None?
    ensures e.cause.Some? <==> (c.WithMessageAndCause? || c.WithCause? || c.WithStatusAndCause?)
    ensures e.cause.Some? ==> e.cause.value == c.cause
  {
    match c
    case NoArgs => CallException(None, 0, None, None, None, None)
    case WithMessage(m) => CallException(m, 0, None, None, None, None)
    case WithMessageAndCause(m, cause) => CallException(m, 0, None, None, None, Some(cause))
    case WithCause(cause) => CallException(None, 0, None, None, None, Some(cause))
    case WithStatusAndCause(m, code, text, body, headers, cause) =>
      CallException(m, code, text, body, headers, Some(cause))
    case WithStatus(m, code, text, body, headers) =>
      CallException(m, code, text, body, headers, None)
  }

  /** `getMessage` returns the stored field, not the message Java's
      `Throwable` derives from a cause. */
  function GetMessage(e: CallException): (m: JString)
    ensures m == e.message
  {
    e.message
  }

  /** The message is null exactly for the no-argument and cause-only
      constructors, or when a null message was passed. */
  lemma GetMessageNullIff(c: Construction)
    ensures GetMessage(Construct(c)).None? <==> (c.NoArgs? || c.WithCause? || c.message.None?)
  {
  }

  /** The status-carrying constructors differ only in the cause. */
  lemma StatusConstructorsAgree(m: JString, code: int, text: JString, body: JString,
                                headers: Option<map<string, string>>, cause: Cause)
    ensures Construct(WithStatusAndCause(m, code, text, body, headers, cause))
         == Construct(WithStatus(m, code, text, body, headers)).(cause := Some(cause))
  {
  }

  /** A failure wrapping an underlying exception, with that exception's message
      as its own (the shape every wrapped I/O failure takes). */
  function Wrapping(message: JString): (e: CallException)
    ensures e == Construct(WithMessageAndCause(message, Cause(message)))
    ensures GetMessage(e) == message && e.cause == Some(Cause(message))
  {
    CallException(message, 0, None, None, None, Some(Cause(message)))
  }
}
