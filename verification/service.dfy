/**
 * The service as a whole: one store shared by all requests, each request
 * handled as one indivisible step (the store's lock serialises them), and
 * the properties that hold along every sequence of requests.
 */
module Service {
  import opened Options
  import opened ShortCode
  import opened UrlStore
  import opened StoreProperties
  import opened Handlers

  /**
   * What every store reachable through the handlers satisfies: the store
   * invariant, and no stored url is empty (`shorten_url` rejects "").
   */
  ghost predicate ServiceInv(s: Store) {
    Inv(s) && forall k :: k in s.data ==> s.data[k].url != ""
  }

  /** One request to the application. A shorten request carries the generator's draws and the clock reading it will see. */
  datatype Request =
    | Shorten(url: Option<string>, draws: seq<Draw>, now: string)
    | Visit(code: string)
    | ViewStats(code: string)

  predicate Ready(s: Store, req: Request, isValidUrl: string -> bool) {
    req.Shorten? ==> CanShorten(s, req.url, isValidUrl, req.draws)
  }

  /** Routing: the handler each request reaches. */
  function Handle(s: Store, req: Request, isValidUrl: string -> bool): (r: Reply)
    requires Ready(s, req, isValidUrl)
    ensures req.ViewStats? ==> r.store == s
  {
    match req
    case Shorten(url, draws, now) => HandleShorten(s, url, isValidUrl, draws, now)
    case Visit(code) => HandleRedirect(s, code)
    case ViewStats(code) => HandleStats(s, code)
  }

  /** Every request of `reqs`, in turn, finds the generator able to finish. */
  predicate Servable(s: Store, reqs: seq<Request>, isValidUrl: string -> bool)
    decreases |reqs|
  {
    |reqs| == 0 ||
    (Ready(s, reqs[0], isValidUrl) && Servable(Handle(s, reqs[0], isValidUrl).store, reqs[1..], isValidUrl))
  }

  /** The responses to a sequence of requests and the store afterwards. */
  datatype Served = Served(responses: seq<Response>, store: Store)

  /** Visits of `code` in `reqs`: the clicks a redirect should record. */
  function Visits(reqs: seq<Request>, code: string): nat
    decreases |reqs|
  {
    if |reqs| == 0 then 0
    else (if reqs[0] == Visit(code) then 1 else 0) + Visits(reqs[1..], code)
  }

  lemma EmptyServiceInv()
    ensures ServiceInv(Empty())
  {
  }

  /** Every handler keeps the service invariant and only ever extends the store. */
  lemma HandlePreservesInv(s: Store, req: Request, isValidUrl: string -> bool)
    requires ServiceInv(s) && Ready(s, req, isValidUrl)
    ensures ServiceInv(Handle(s, req, isValidUrl).store)
    ensures Extends(s, Handle(s, req, isValidUrl).store)
  {
    match req
    case Shorten(url, draws, now) =>
      if Accepts(url, isValidUrl) {
        CreatePreservesInv(s, url.value, draws, now);
      }
    case Visit(code) =>
      IncrementPreservesInv(s, code);
    case ViewStats(code) =>
  }

  /**
   * Only a redirect moves a counter: a request adds one click to `k` if it
   * is a visit of `k`, and leaves the clicks of every other record alone.
   */
  lemma HandleCountsVisit(s: Store, req: Request, isValidUrl: string -> bool, k: string)
    requires ServiceInv(s) && Ready(s, req, isValidUrl)
    requires k in s.data
    ensures var t := Handle(s, req, isValidUrl).store;
      k in t.data && t.data[k].clicks == s.data[k].clicks + (if req == Visit(k) then 1 else 0)
  {
  }

  /** `Serve`: the application handling `reqs` one after another. */
  function Serve(s: Store, reqs: seq<Request>, isValidUrl: string -> bool): (r: Served)
    requires Servable(s, reqs, isValidUrl)
    ensures |r.responses| == |reqs|
    ensures forall i :: 0 <= i < |reqs| && reqs[i].Shorten? ==>
              (r.responses[i].Shortened? <==> Accepts(reqs[i].url, isValidUrl))
    ensures forall i :: 0 <= i < |reqs| && reqs[i].Shorten? && !Accepts(reqs[i].url, isValidUrl) ==>
              r.responses[i] == Error(400, InvalidUrlMessage)
    decreases |reqs|
  {
    if |reqs| == 0 then Served([], s)
    else
      var first := Handle(s, reqs[0], isValidUrl);
      var rest := Serve(first.store, reqs[1..], isValidUrl);
      Served([first.response] + rest.responses, rest.store)
  }

  /** Every store reachable through the handlers satisfies the invariant, and records persist. */
  lemma {:induction false} ServePreservesInv(s: Store, reqs: seq<Request>, isValidUrl: string -> bool)
    requires ServiceInv(s) && Servable(s, reqs, isValidUrl)
    ensures ServiceInv(Serve(s, reqs, isValidUrl).store)
    ensures Extends(s, Serve(s, reqs, isValidUrl).store)
    decreases |reqs|
  {
    if |reqs| > 0 {
      var first := Handle(s, reqs[0], isValidUrl);
      HandlePreservesInv(s, reqs[0], isValidUrl);
      ServePreservesInv(first.store, reqs[1..], isValidUrl);
      ExtendsTransitive(s, first.store, Serve(first.store, reqs[1..], isValidUrl).store);
    }
  }

  /**
   * The click counter of a record counts exactly the visits it receives:
   * after any sequence of requests, a record that existed before has as many
   * more clicks as there were visits of its code.
   */
  lemma {:induction false} ServeCountsVisits(s: Store, reqs: seq<Request>, isValidUrl: string -> bool, k: string)
    requires ServiceInv(s) && Servable(s, reqs, isValidUrl)
    requires k in s.data
    ensures k in Serve(s, reqs, isValidUrl).store.data
    ensures Serve(s, reqs, isValidUrl).store.data[k].clicks == s.data[k].clicks + Visits(reqs, k)
    decreases |reqs|
  {
    if |reqs| > 0 {
      var first := Handle(s, reqs[0], isValidUrl);
      HandleCountsVisit(s, reqs[0], isValidUrl, k);
      HandlePreservesInv(s, reqs[0], isValidUrl);
      ServeCountsVisits(first.store, reqs[1..], isValidUrl, k);
    }
  }

  /** In a reachable store a redirect succeeds exactly for known codes, and goes to the stored url. */
  lemma RedirectKnownCode(s: Store, code: string)
    requires ServiceInv(s)
    ensures HandleRedirect(s, code).response.Redirect? <==> code in s.data
    ensures code in s.data ==>
              HandleRedirect(s, code) == Reply(Redirect(s.data[code].url), IncrementClicks(s, code))
  {
  }

  /**
   * A code that is not six alphanumeric characters (such as "unknown123")
   * is never a key, so both lookups answer 404 and change nothing.
   */
  lemma MalformedCodeNotFound(s: Store, code: string)
    requires ServiceInv(s) && !ValidCode(code)
    ensures HandleRedirect(s, code) == Reply(Error(404, NotFoundMessage), s)
    ensures HandleStats(s, code) == Reply(Error(404, NotFoundMessage), s)
  {
  }

  /**
   * Submitting the same url twice yields the same short code, and the
   * second submission leaves the store as the first left it.
   */
  lemma ShortenTwiceSameCode(s: Store, url: string, isValidUrl: string -> bool,
                             draws1: seq<Draw>, now1: string, draws2: seq<Draw>, now2: string)
    requires ServiceInv(s) && CanShorten(s, Some(url), isValidUrl, draws1)
    requires Accepts(Some(url), isValidUrl) && ValidDraws(draws2)
    ensures var r1 := HandleShorten(s, Some(url), isValidUrl, draws1, now1);
      && CanShorten(r1.store, Some(url), isValidUrl, draws2)
      && HandleShorten(r1.store, Some(url), isValidUrl, draws2, now2) == r1
  {
    CreateIdempotent(s, url, draws1, now1, draws2, now2);
  }

  /** The store after `n` visits of `code`. */
  function RedirectTimes(s: Store, code: string, n: nat): Store
    decreases n
  {
    if n == 0 then s else HandleRedirect(RedirectTimes(s, code, n - 1), code).store
  }

  /**
   * Each of `n` visits of a known code redirects to its url and records one
   * click, so the store afterwards is the store after `n` increments.
   */
  lemma {:induction false} RedirectTimesIncrements(s: Store, code: string, n: nat)
    requires ServiceInv(s) && code in s.data
    ensures RedirectTimes(s, code, n) == IncrementTimes(s, code, n)
    ensures forall i :: 0 <= i < n ==>
              HandleRedirect(RedirectTimes(s, code, i), code).response == Redirect(s.data[code].url)
    decreases n
  {
    if n > 0 {
      RedirectTimesIncrements(s, code, n - 1);
      IncrementTimesCounts(s, code, n - 1);
      assert RedirectTimes(s, code, n - 1).data[code].url == s.data[code].url;
    }
  }

  /**
   * Shorten a valid url in a fresh service, visit its code `n` times, and
   * the stats report that url, `n` clicks and the creation time. This is
   * the outcome tests/test_basic.py:27-38 asserts for `n` = 3, which holds
   * only when that test starts from an empty store.
   */
  lemma ShortenVisitStats(url: string, isValidUrl: string -> bool, draws: seq<Draw>, now: string, n: nat)
    requires Accepts(Some(url), isValidUrl)
    requires ValidDraws(draws) && |draws| > 0
    ensures CanShorten(Empty(), Some(url), isValidUrl, draws)
    ensures var r := HandleShorten(Empty(), Some(url), isValidUrl, draws, now);
      && r.response.Shortened?
      && ValidCode(r.response.shortCode)
      && HandleStats(RedirectTimes(r.store, r.response.shortCode, n), r.response.shortCode).response
           == StatsReport(url, n, now)
  {
    var s := Empty();
    assert Generate(draws[0]) !in s.data;
    var r := HandleShorten(s, Some(url), isValidUrl, draws, now);
    var code := r.response.shortCode;
    CreateNew(s, url, draws, now);
    EmptyServiceInv();
    HandlePreservesInv(s, Shorten(Some(url), draws, now), isValidUrl);
    RedirectTimesIncrements(r.store, code, n);
    IncrementTimesCounts(r.store, code, n);
  }

  /**
   * The tests of tests/test_basic.py share the one module-level store of
   * app/main.py:6, and run in file order. `test_shorten_and_redirect`
   * shortens the url and visits it once; `test_invalid_url` is rejected
   * and changes nothing; `test_stats` then shortens the same url, gets the
   * same code back, and after its three visits the stats report 4 clicks,
   * not the 3 it asserts.
   */
  lemma SharedStoreTestOrder(url: string, badUrl: string, isValidUrl: string -> bool,
                             draws1: seq<Draw>, now1: string, draws2: seq<Draw>, now2: string)
    requires Accepts(Some(url), isValidUrl) && !Accepts(Some(badUrl), isValidUrl)
    requires ValidDraws(draws1) && |draws1| > 0 && ValidDraws(draws2)
    ensures CanShorten(Empty(), Some(url), isValidUrl, draws1)
    ensures var first := HandleShorten(Empty(), Some(url), isValidUrl, draws1, now1);
      && first.response.Shortened?
      && var visited := HandleRedirect(first.store, first.response.shortCode).store;
      && var rejected := HandleShorten(visited, Some(badUrl), isValidUrl, draws2, now2);
      && rejected.response == Error(400, InvalidUrlMessage)
      && CanShorten(rejected.store, Some(url), isValidUrl, draws2)
      && var second := HandleShorten(rejected.store, Some(url), isValidUrl, draws2, now2);
      && second.response == first.response
      && HandleStats(RedirectTimes(second.store, first.response.shortCode, 3), first.response.shortCode).response
           == StatsReport(url, 4, now1)
  {
    var s := Empty();
    assert Generate(draws1[0]) !in s.data;
    var first := HandleShorten(s, Some(url), isValidUrl, draws1, now1);
    var code := first.response.shortCode;
    CreateNew(s, url, draws1, now1);
    EmptyServiceInv();
    HandlePreservesInv(s, Shorten(Some(url), draws1, now1), isValidUrl);
    var visited := HandleRedirect(first.store, code).store;
    HandlePreservesInv(first.store, Visit(code), isValidUrl);
    assert visited.data[code] == Entry(url, 1, now1);
    CreateIdempotent(visited, url, draws2, now2, draws2, now2);
    CreateExisting(visited, url, code, draws2, now2);
    var second := HandleShorten(visited, Some(url), isValidUrl, draws2, now2);
    assert second.store == visited;
    RedirectTimesIncrements(visited, code, 3);
    IncrementTimesCounts(visited, code, 3);
  }
}
