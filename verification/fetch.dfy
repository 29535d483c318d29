/**
 * The result of a `got` call, and `urlToHtml`'s lenient classification of
 * it. The HTTP exchange itself is outside the model: a call either settles
 * with a response or rejects with an error whose message is kept.
 */
module Fetch {
  import opened Wrappers

  /** How a `got` promise settles: a response (status, body, final URL after redirects) or a thrown error. */
  datatype GotResult = Resolved(statusCode: int, body: string, url: string) | Rejected(message: string)

  /**
   * `urlToHtml` (called with `throwHttpErrors: false`): the body of a
   * response whose status is exactly 200, and null for any other status or
   * when the call throws.
   */
  function UrlToHtml(r: GotResult): (html: Option<string>)
    ensures html.Some? <==> r.Resolved? && r.statusCode == 200
    ensures html.Some? ==> html.value == r.body
  {
    match r
    case Resolved(status, body, _) => if status == 200 then Some(body) else None
    case Rejected(_) => None
  }
}
