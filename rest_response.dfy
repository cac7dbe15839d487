/**
 * `RestResponse<T>`: an HTTP response message together with the content
 * deserialized from it. Both are fixed at construction.
 */
module Responses {
  import opened Wrappers
  import opened Exceptions
  import opened Http

  /** The content is `None` where the source holds a null reference. */
  datatype RestResponse<T> = RestResponse(httpResponseMessage: HttpResponseMessage, content: Option<T>)

  /**
   * The constructor: a null response message is refused, and otherwise
   * both getters return exactly what was passed in.
   */
  function NewRestResponse<T>(httpResponseMessage: Option<HttpResponseMessage>, content: Option<T>): (r: Result<RestResponse<T>, Exception>)
    ensures r.Err? <==> httpResponseMessage.None?
    ensures r.Err? ==> r.error == ArgumentNullException("httpResponseMessage")
    ensures r.Ok? ==> r.value.httpResponseMessage == httpResponseMessage.value && r.value.content == content
  {
    if httpResponseMessage.None? then Err(ArgumentNullException("httpResponseMessage"))
    else Ok(RestResponse(httpResponseMessage.value, content))
  }
}
