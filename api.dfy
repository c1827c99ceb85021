/**
 * What a frontend form gets back from an API call: the response body, or the
 * `detail` of the error response when there is one.
 */
module Api {
  import opened Outcomes

  datatype Reply<T> = Ok(body: T) | Failed(detail: Option<string>)

  /** `err.response?.data?.detail || fallback`: an absent or empty detail gives the fallback text. */
  function ErrorMessage(detail: Option<string>, fallback: string): (m: string)
    ensures detail.Some? && detail.value != "" ==> m == detail.value
    ensures detail.None? || detail.value == "" ==> m == fallback
  {
    match detail
    case Some(d) => if d != "" then d else fallback
    case None => fallback
  }
}
