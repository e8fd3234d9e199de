/**
 * Requests to the backend as the pages see them: a response with data, or a
 * rejection carrying the server's `error` field and the error's `message`,
 * either of which may be missing. Which one happens is the environment's
 * choice and is passed to each page method.
 */
module Api {
  import opened Wrappers

  datatype ApiError = ApiError(responseError: Option<string>, message: Option<string>)

  datatype Response<+T> = Ok(data: T) | Err(error: ApiError)

  /**
   * `err.response?.data?.error ?? err.message ?? fallback`: the server's
   * error if it sent one, otherwise the error's message, otherwise the page's
   * own text. Present but empty texts are kept.
   */
  function ErrorText(e: ApiError, fallback: string): (r: string)
    ensures e.responseError.Some? ==> r == e.responseError.value
    ensures e.responseError.None? && e.message.Some? ==> r == e.message.value
    ensures e.responseError.None? && e.message.None? ==> r == fallback
  {
    Coalesce(e.responseError, Coalesce(e.message, Some(fallback))).value
  }
}
