/** The default values the client library uses everywhere. */
module Constants {

  /** Default connect, connection-request and socket timeout, in milliseconds. */
  const DefaultConnectTimeout: int := 30000

  /** Default character encoding of requests and responses. */
  const DefaultContentEncoding: string := "UTF-8"

  /** Default `Content-Type` of requests: the JSON media type with its UTF-8 charset. */
  const DefaultContentType: string := "application/json; charset=UTF-8"

  /** Body text used when a response entity has no content stream. */
  const NoContentMessage: string := "NoContent"

  /** Prefix of the message of a failure built from a non-success status code. */
  const UnknownServerClientError: string := "The http request returned "

  /** Whether response headers are captured when the caller does not say. */
  const DefaultIncludeResponseHeaders: bool := false

  /** Header names the library uses. */
  const ContentTypeHeader: string := "Content-Type"
  const AuthorizationHeader: string := "Authorization"
}
