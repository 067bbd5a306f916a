/**
 * The request handlers of app/main.py, each a transition of the shared store
 * that also produces a response. Flask routing and JSON encoding are not
 * modelled: a response carries its status and the fields of its body.
 */
module Handlers {
  import opened Options
  import opened ShortCode
  import opened UrlStore

  const InvalidUrlMessage: string := "Invalid URL"
  const NotFoundMessage: string := "Short code not found"

  datatype Response =
    | Shortened(shortCode: string)                           // 200 {"short_code", "short_url"}
    | Redirect(location: string)                             // 302 to the original url
    | StatsReport(url: string, clicks: nat, createdAt: string) // 200 {"url", "clicks", "created_at"}
    | Error(status: nat, message: string)                    // 400 / 404 {"error"}

  /** The HTTP status of a response. */
  function Status(r: Response): nat {
    match r
    case Shortened(_) => 200
    case Redirect(_) => 302
    case StatsReport(_, _, _) => 200
    case Error(status, _) => status
  }

  /** A handler's response and the store it leaves behind. */
  datatype Reply = Reply(response: Response, store: Store)

  /**
   * The guard of `shorten_url`: the `url` field is present, non-empty, and
   * passes the url validator (app/utils.py, kept abstract as `isValidUrl`).
   */
  predicate Accepts(url: Option<string>, isValidUrl: string -> bool) {
    url.Some? && url.value != "" && isValidUrl(url.value)
  }

  /** What `shorten_url` needs of the generator to finish. */
  predicate CanShorten(s: Store, url: Option<string>, isValidUrl: string -> bool, draws: seq<Draw>) {
    ValidDraws(draws) && (Accepts(url, isValidUrl) ==> CanCreate(s, url.value, draws))
  }

  /** `POST /api/shorten`: 400 on a missing or invalid url, else the code `create_short_url` gives. */
  function HandleShorten(s: Store, url: Option<string>, isValidUrl: string -> bool,
                         draws: seq<Draw>, now: string): (r: Reply)
    requires CanShorten(s, url, isValidUrl, draws)
    ensures !Accepts(url, isValidUrl) ==> r == Reply(Error(400, InvalidUrlMessage), s)
    ensures Accepts(url, isValidUrl) ==>
              && r.response.Shortened?
              && Created(r.response.shortCode, r.store) == Create(s, url.value, draws, now)
  {
    if !Accepts(url, isValidUrl) then Reply(Error(400, InvalidUrlMessage), s)
    else
      var c := Create(s, url.value, draws, now);
      Reply(Shortened(c.code), c.store)
  }

  /**
   * `GET /<code>`: a redirect to the stored url, counting one click, when the
   * lookup gives a non-empty url (Python's `if url:`); else 404 and no change.
   */
  function HandleRedirect(s: Store, code: string): (r: Reply)
    ensures Status(r.response) == (if code in s.data && s.data[code].url != "" then 302 else 404)
    ensures r.response.Redirect? <==> code in s.data && s.data[code].url != ""
    ensures r.response.Redirect? ==>
              && r.response.location == s.data[code].url
              && r.store == IncrementClicks(s, code)
    ensures !r.response.Redirect? ==> r == Reply(Error(404, NotFoundMessage), s)
  {
    var url := GetOriginalUrl(s, code);
    if url.Some? && url.value != "" then
      Reply(Redirect(url.value), IncrementClicks(s, code))
    else
      Reply(Error(404, NotFoundMessage), s)
  }

  /** `GET /api/stats/<code>`: the record's fields, or 404; the store never changes. */
  function HandleStats(s: Store, code: string): (r: Reply)
    ensures r.store == s
    ensures Status(r.response) == (if code in s.data then 200 else 404)
    ensures code in s.data ==> r.response == StatsReport(s.data[code].url, s.data[code].clicks, s.data[code].createdAt)
    ensures code !in s.data ==> r.response == Error(404, NotFoundMessage)
  {
    match GetStats(s, code)
    case None => Reply(Error(404, NotFoundMessage), s)
    case Some(e) => Reply(StatsReport(e.url, e.clicks, e.createdAt), s)
  }
}
