/**
 * Properties of the `URLStore` transitions that relate several calls, or
 * that hold of every store reachable from an empty one.
 */
module StoreProperties {
  import opened Options
  import opened ShortCode
  import opened UrlStore

  /**
   * `t` is a later state of `s`: no record disappears, a record's url and
   * creation time never change, and its clicks never decrease.
   */
  ghost predicate Extends(s: Store, t: Store) {
    forall k :: k in s.data ==>
      && k in t.data
      && t.data[k].url == s.data[k].url
      && t.data[k].createdAt == s.data[k].createdAt
      && t.data[k].clicks >= s.data[k].clicks
  }

  lemma ExtendsTransitive(s: Store, t: Store, u: Store)
    requires Extends(s, t) && Extends(t, u)
    ensures Extends(s, u)
  {
  }

  /** In a valid store the scan sees every key, so it misses only absent urls. */
  lemma ScanComplete(s: Store, url: string)
    requires Valid(s)
    ensures ScanForUrl(s.data, s.order, url).None? <==> forall k :: !HoldsUrl(s.data, k, url)
  {
  }

  /** Creating a url that is already stored returns its code and changes nothing. */
  lemma CreateExisting(s: Store, url: string, code: string, draws: seq<Draw>, now: string)
    requires Inv(s) && CanCreate(s, url, draws)
    requires HoldsUrl(s.data, code, url)
    ensures Create(s, url, draws, now) == Created(code, s)
  {
  }

  /**
   * Creating a new url mints a code that was not a key, of the generator's
   * format, mapped to a record with zero clicks; earlier records are kept.
   */
  lemma CreateNew(s: Store, url: string, draws: seq<Draw>, now: string)
    requires Inv(s) && CanCreate(s, url, draws)
    requires forall k :: !HoldsUrl(s.data, k, url)
    ensures var r := Create(s, url, draws, now);
      && r.code !in s.data
      && ValidCode(r.code)
      && r.store.data.Keys == s.data.Keys + {r.code}
      && r.store.data[r.code] == Entry(url, 0, now)
      && forall k :: k in s.data ==> r.store.data[k] == s.data[k]
  {
  }

  /** Create keeps the store valid, its urls unique and its codes well formed. */
  lemma CreatePreservesInv(s: Store, url: string, draws: seq<Draw>, now: string)
    requires Inv(s) && CanCreate(s, url, draws)
    ensures Inv(Create(s, url, draws, now).store)
    ensures Extends(s, Create(s, url, draws, now).store)
  {
  }

  /**
   * Creating the same url twice gives the same code, whatever the generator
   * draws the second time, and the second call changes nothing.
   */
  lemma CreateIdempotent(s: Store, url: string, draws1: seq<Draw>, now1: string,
                         draws2: seq<Draw>, now2: string)
    requires Inv(s) && CanCreate(s, url, draws1)
    requires ValidDraws(draws2)
    ensures var r := Create(s, url, draws1, now1);
      && CanCreate(r.store, url, draws2)
      && Create(r.store, url, draws2, now2) == r
  {
    var r := Create(s, url, draws1, now1);
    CreatePreservesInv(s, url, draws1, now1);
    ScanComplete(r.store, url);
    CreateExisting(r.store, url, r.code, draws2, now2);
  }

  /** Increment keeps the invariant, and only ever adds a click. */
  lemma IncrementPreservesInv(s: Store, code: string)
    requires Inv(s)
    ensures Inv(IncrementClicks(s, code))
    ensures Extends(s, IncrementClicks(s, code))
  {
  }

  /** Lookup by code undoes the scan by url: in a reachable store each determines the other. */
  lemma LookupInvertsScan(s: Store, code: string, url: string)
    requires Inv(s)
    ensures GetOriginalUrl(s, code) == Some(url) <==> ScanForUrl(s.data, s.order, url) == Some(code)
  {
  }

  /** The url lookup and the stats snapshot report the same record. */
  lemma StatsAgreeWithLookup(s: Store, code: string)
    ensures GetStats(s, code).None? <==> GetOriginalUrl(s, code).None?
    ensures GetStats(s, code).Some? ==> GetOriginalUrl(s, code) == Some(GetStats(s, code).value.url)
  {
  }

  /** The store after `n` increments of `code`. */
  function IncrementTimes(s: Store, code: string, n: nat): (r: Store)
    ensures Extends(s, r)
    decreases n
  {
    if n == 0 then s else IncrementClicks(IncrementTimes(s, code, n - 1), code)
  }

  /** After `n` increments of a known code its stats report `n` more clicks, and nothing else moved. */
  lemma {:induction false} IncrementTimesCounts(s: Store, code: string, n: nat)
    requires code in s.data
    ensures GetStats(IncrementTimes(s, code, n), code)
              == Some(s.data[code].(clicks := s.data[code].clicks + n))
    ensures forall k :: k in s.data && k != code ==> IncrementTimes(s, code, n).data[k] == s.data[k]
    decreases n
  {
    if n > 0 {
      IncrementTimesCounts(s, code, n - 1);
    }
  }
}
