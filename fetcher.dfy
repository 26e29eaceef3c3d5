/**
 * The resource fetcher `fetch_character`: one GET, whose outcome is supplied
 * by the caller as an `Exchange`, turned into the decoded body or `None`.
 */
module Fetcher {

  import opened Wrappers
  import opened Json

  /** What the server answered: a status code and the body, `None` when `json()` cannot decode it. */
  datatype Response = Response(status: int, body: Option<Json>)

  /** The outcome of one GET: the request raised, or a response arrived. */
  datatype Exchange = TransportError | Answered(response: Response)

  /** The remote API and network: the outcome of a GET for each URL. */
  type Web = string -> Exchange

  /**
   * `fetch_character`: the decoded body on status 200, `None` (JNull) on any
   * other status, on a transport error and on an undecodable body.
   */
  function FetchCharacter(e: Exchange): (r: Json)
    ensures (e.Answered? && e.response.status == 200 && e.response.body.Some?) ==> r == e.response.body.value
    ensures !(e.Answered? && e.response.status == 200) ==> r == JNull
    ensures e.Answered? && e.response.body.None? ==> r == JNull
  {
    match e
    case TransportError => JNull
    case Answered(resp) =>
      if resp.status != 200 then JNull
      else match resp.body
        case None => JNull
        case Some(body) => body
  }

  /**
   * `fetch_character(session, url)` for any Python value passed as `url`:
   * only a string can be requested; `session.get` raises on anything else.
   */
  function FetchUrl(web: Web, url: Json): (r: Json)
    ensures url.JStr? ==> r == FetchCharacter(web(url.s))
    ensures !url.JStr? ==> r == JNull
  {
    if url.JStr? then FetchCharacter(web(url.s)) else JNull
  }
}
