/** The checks and defaults that `executePost` and `executeGet` both perform
    before any request object exists. */
module Preflight {
  import opened Wrappers
  import opened Text
  import opened Constants
  import opened ClientCallException

  /** The failure for a missing required argument; the message concatenates the
      field name and the value as given (so a null value reads "null"). */
  function RequiredFieldError(field: string, value: JString): (e: CallException)
    ensures e.message.Some?
    ensures var prefix := "Required Field: " + field;
      && prefix <= e.message.value
      && e.message.value[|prefix|..] == Show(value) + " cannot be null or empty"
    ensures e.statusCode == 0 && e.statusText.None? && e.responseBody.None? && e.responseHeaders.None?
    ensures e.cause.None?
  {
    Construct(WithMessage(Some("Required Field: " + field + Show(value) + " cannot be null or empty")))
  }

  /** Checks the url, then the username, then the password; the credential
      checks apply only while authentication is required. */
  function Validate(url: JString, username: JString, password: JString, authRequired: bool)
    : (r: Option<CallException>)
    ensures r.None? <==> !IsEmpty(url) && (authRequired ==> !IsEmpty(username) && !IsEmpty(password))
    ensures IsEmpty(url) ==> r == Some(RequiredFieldError("url ", url))
    ensures !IsEmpty(url) && authRequired && IsEmpty(username) ==>
              r == Some(RequiredFieldError("username", username))
    ensures !IsEmpty(url) && authRequired && !IsEmpty(username) && IsEmpty(password) ==>
              r == Some(RequiredFieldError("password", password))
  {
    if IsEmpty(url) then Some(RequiredFieldError("url ", url))
    else if IsEmpty(username) && authRequired then Some(RequiredFieldError("username", username))
    else if IsEmpty(password) && authRequired then Some(RequiredFieldError("password", password))
    else None
  }

  /** Without authentication the credentials play no part in validation. */
  lemma CredentialsIgnoredWithoutAuth(url: JString, u1: JString, p1: JString, u2: JString, p2: JString)
    ensures Validate(url, u1, p1, false) == Validate(url, u2, p2, false)
  {
  }

  /** An empty encoding becomes the default one. */
  function ResolveEncoding(encoding: JString): (r: string)
    ensures 0 < |r|
    ensures !IsEmpty(encoding) ==> r == encoding.value
    ensures IsEmpty(encoding) ==> r == DefaultContentEncoding
  {
    if IsEmpty(encoding) then DefaultContentEncoding else encoding.value
  }

  /** A timeout below 1 becomes the default one. */
  function ResolveTimeout(timeout: int): (r: int)
    ensures 1 <= r
    ensures 1 <= timeout ==> r == timeout
    ensures timeout < 1 ==> r == DefaultConnectTimeout
  {
    if timeout < 1 then DefaultConnectTimeout else timeout
  }

  /** Resolving an already resolved value changes nothing. */
  lemma ResolveIdempotent(encoding: JString, timeout: int)
    ensures ResolveEncoding(Some(ResolveEncoding(encoding))) == ResolveEncoding(encoding)
    ensures ResolveTimeout(ResolveTimeout(timeout)) == ResolveTimeout(timeout)
  {
  }
}
