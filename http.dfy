/**
 * The parts of an HTTP response message that the client reads: its status
 * code, the media type of its `Content-Type` header (absent when the
 * response has none) and its body as a string.
 */
module Http {
  import opened Wrappers

  const NoContent := 204

  datatype HttpResponseMessage = HttpResponseMessage(statusCode: int, mediaType: Option<string>, content: string)

  /** `IsSuccessStatusCode`: a status code in the 2xx range. */
  predicate IsSuccessStatusCode(statusCode: int) {
    200 <= statusCode <= 299
  }
}
