/**
 * The in-memory `URLStore` of app/models.py as a functional state machine.
 *
 * Each operation runs under the store's lock in the source, so each is one
 * indivisible transition here: a function from the old store to its result
 * (and, for the mutating operations, the new store).
 */
module UrlStore {
  import opened Options
  import opened ShortCode

  /** One record: the dict `{'url', 'clicks', 'created_at'}`. */
  datatype Entry = Entry(url: string, clicks: nat, createdAt: string)

  /**
   * `URLStore.data`. A Python dict remembers insertion order, and the
   * deduplicating scan of `create_short_url` visits entries in that order,
   * so the store keeps the order of its keys next to the map.
   */
  datatype Store = Store(data: map<string, Entry>, order: seq<string>)

  /** `order` lists every key of `data` exactly once. */
  ghost predicate Valid(s: Store) {
    && (forall i, j :: 0 <= i < j < |s.order| ==> s.order[i] != s.order[j])
    && (forall k :: k in s.data <==> k in s.order)
  }

  /** No two codes map to the same url. */
  ghost predicate UniqueUrls(s: Store) {
    forall k1, k2 :: k1 in s.data && k2 in s.data && s.data[k1].url == s.data[k2].url ==> k1 == k2
  }

  /** Every key has the generator's format. */
  ghost predicate CodesWellFormed(s: Store) {
    forall k :: k in s.data ==> ValidCode(k)
  }

  /** What every store reachable from `Empty` satisfies. */
  ghost predicate Inv(s: Store) {
    Valid(s) && UniqueUrls(s) && CodesWellFormed(s)
  }

  /** `code` is a key whose record holds `url`. */
  predicate HoldsUrl(data: map<string, Entry>, code: string, url: string) {
    code in data && data[code].url == url
  }

  /** `URLStore()`: no records yet. */
  function Empty(): (s: Store)
    ensures Inv(s)
    ensures forall k :: k !in s.data
  {
    Store(map[], [])
  }

  /**
   * The deduplicating scan (`for code, entry in self.data.items()`): the
   * first key, in `keys` order, whose record holds `url`.
   */
  function ScanForUrl(data: map<string, Entry>, keys: seq<string>, url: string): (r: Option<string>)
    ensures r.None? <==> forall j :: 0 <= j < |keys| ==> !HoldsUrl(data, keys[j], url)
    ensures r.Some? ==> exists j :: 0 <= j < |keys| && keys[j] == r.value
                          && HoldsUrl(data, keys[j], url)
                          && forall i :: 0 <= i < j ==> !HoldsUrl(data, keys[i], url)
    decreases |keys|
  {
    if |keys| == 0 then None
    else if HoldsUrl(data, keys[0], url) then Some(keys[0])
    else ScanForUrl(data, keys[1..], url)
  }

  /** Every draw is one `random.choices` could return. */
  predicate ValidDraws(draws: seq<Draw>) {
    forall i :: 0 <= i < |draws| ==> ValidDraw(draws[i])
  }

  /** The retry loop ends: some draw gives a code that is not yet a key. */
  predicate HasFreshDraw(data: map<string, Entry>, draws: seq<Draw>)
    requires ValidDraws(draws)
  {
    exists i :: 0 <= i < |draws| && Generate(draws[i]) !in data
  }

  /**
   * The collision-retry loop: the index of the first draw whose code is not a
   * key; every earlier draw collided.
   */
  function FirstFresh(data: map<string, Entry>, draws: seq<Draw>): (n: nat)
    requires ValidDraws(draws)
    requires HasFreshDraw(data, draws)
    ensures n < |draws| && Generate(draws[n]) !in data
    ensures forall j :: 0 <= j < n ==> Generate(draws[j]) in data
    decreases |draws|
  {
    if Generate(draws[0]) !in data then 0
    else
      var i :| 0 <= i < |draws| && Generate(draws[i]) !in data;
      assert Generate(draws[1..][i - 1]) !in data;
      1 + FirstFresh(data, draws[1..])
  }

  /**
   * What `create_short_url` needs to terminate: the draws are generator
   * outputs, and when the url is new one of them is not yet a key.
   */
  predicate CanCreate(s: Store, url: string, draws: seq<Draw>) {
    && ValidDraws(draws)
    && (ScanForUrl(s.data, s.order, url).None? ==> HasFreshDraw(s.data, draws))
  }

  /** What `create_short_url` returns: the code, and the store afterwards. */
  datatype Created = Created(code: string, store: Store)

  /**
   * `create_short_url(url)`. `draws` are the generator's successive outputs
   * and `now` the `created_at` timestamp. If a record already holds `url`
   * its code is returned and nothing changes; otherwise the first draw that
   * is not a key becomes the code of a new record with zero clicks.
   */
  function Create(s: Store, url: string, draws: seq<Draw>, now: string): (r: Created)
    requires CanCreate(s, url, draws)
    ensures HoldsUrl(r.store.data, r.code, url)
    ensures r.code in s.data <==> ScanForUrl(s.data, s.order, url).Some?
    ensures r.code in s.data ==> r.store == s
    ensures r.code !in s.data ==>
              && ValidCode(r.code)
              && r.store.data == s.data[r.code := Entry(url, 0, now)]
              && r.store.order == s.order + [r.code]
  {
    match ScanForUrl(s.data, s.order, url)
    case Some(code) => Created(code, s)
    case None =>
      var code := Generate(draws[FirstFresh(s.data, draws)]);
      Created(code, Store(s.data[code := Entry(url, 0, now)], s.order + [code]))
  }

  /** `get_original_url(code)`: the stored url, or `None` for an unknown code. */
  function GetOriginalUrl(s: Store, code: string): (r: Option<string>)
    ensures r.Some? <==> code in s.data
    ensures r.Some? ==> HoldsUrl(s.data, code, r.value)
  {
    if code in s.data then Some(s.data[code].url) else None
  }

  /** `increment_clicks(code)`: one more click for a known code, a no-op otherwise. */
  function IncrementClicks(s: Store, code: string): (r: Store)
    ensures r.order == s.order && r.data.Keys == s.data.Keys
    ensures forall k :: k in s.data && k != code ==> r.data[k] == s.data[k]
    ensures code in s.data ==>
              && r.data[code].clicks == s.data[code].clicks + 1
              && r.data[code].url == s.data[code].url
              && r.data[code].createdAt == s.data[code].createdAt
    ensures code !in s.data ==> r == s
  {
    if code in s.data then
      var e := s.data[code];
      Store(s.data[code := e.(clicks := e.clicks + 1)], s.order)
    else s
  }

  /** `get_stats(code)`: a snapshot of the record's three fields, or `None`. */
  function GetStats(s: Store, code: string): (r: Option<Entry>)
    ensures r.Some? <==> code in s.data
    ensures r.Some? ==> r.value == s.data[code]
  {
    if code in s.data then
      var e := s.data[code];
      Some(Entry(e.url, e.clicks, e.createdAt))
    else None
  }

  /**
   * `create_short_url` written as the source writes it: a scan over the
   * entries in insertion order, then a draw-until-fresh loop. It computes
   * exactly what `Create` defines.
   */
  method CreateShortUrl(s: Store, url: string, draws: seq<Draw>, now: string)
    returns (code: string, after: Store)
    requires CanCreate(s, url, draws)
    ensures Created(code, after) == Create(s, url, draws, now)
  {
    var i := 0;
    while i < |s.order|
      invariant 0 <= i <= |s.order|
      invariant ScanForUrl(s.data, s.order[i..], url) == ScanForUrl(s.data, s.order, url)
    {
      var k := s.order[i];
      if k in s.data && s.data[k].url == url {
        return k, s;
      }
      assert s.order[i..][1..] == s.order[i + 1..];
      i := i + 1;
    }
    var n := 0;
    code := Generate(draws[0]);
    while code in s.data
      invariant n <= FirstFresh(s.data, draws)
      invariant code == Generate(draws[n])
      decreases FirstFresh(s.data, draws) - n
    {
      n := n + 1;
      code := Generate(draws[n]);
    }
    after := Store(s.data[code := Entry(url, 0, now)], s.order + [code]);
  }
}
