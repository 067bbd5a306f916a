# URL shortener store, modelled in Dafny

This project models the core of a small URL-shortening service: the in-memory
`URLStore` of `app/models.py` and the three request handlers of `app/main.py`
that drive it. The store maps six-character alphanumeric short codes to records
holding the original url, a click counter and a creation timestamp. Creating a
url that is already stored returns its existing code. Otherwise the generator is
drawn until it yields a code that is not yet a key, and a record with zero clicks
is inserted. A redirect counts one click. The stats endpoint never counts one.

Files:

- `options.dfy`: `Options.Option`, the model of Python's `None`.
- `short_code.dfy`: the alphabet (`string.ascii_letters + string.digits`), the code
  format, and the generator `_generate_short_code`. `Generate` turns the positions
  that `random.choices` picked into a code. `DrawOf` is its inverse.
- `url_store.dfy`: `UrlStore`, the records and store state, and the four store
  operations as pure transitions. It also holds `CreateShortUrl`, the loop form of
  `create_short_url`.
- `store_properties.dfy`: `StoreProperties`, lemmas relating several store calls.
  This covers dedup, freshness, the invariant, idempotence, lookup as the inverse
  of the scan, and repeated increments.
- `handlers.dfy`: `Handlers`, the `shorten_url`, `redirect_url` and `get_stats`
  handlers. Each returns a `Reply` holding a `Response` and the new store.
- `service.dfy`: `Service`, the application handling any sequence of requests one
  at a time, with the properties that hold along every such sequence.

Modelling decisions:

- Each store method runs entirely under the store's lock, so each store operation
  is one indivisible step. A run of the service (`Serve`) is a sequence of whole
  requests. `redirect_url` takes the lock twice: once to look up and once to
  increment. Treating it as one step is still sound. Records are never removed
  and urls never change, so a url that was found is still stored when the
  increment runs. Increments of a counter commute, so interleaving other requests
  between the two halves changes no response and no final count.
- The state is `Store(data, order)`. `data` is the dict. `order` is the dict's
  insertion order, which the deduplicating scan follows. `Valid` says that `order`
  lists every key exactly once.
- Randomness is an input. A `Draw` is the six alphabet positions that
  `random.choices` picked. `Create` receives the whole sequence of draws that the
  retry loop consumes. `CanCreate` states the generator's contract: every draw is in
  range. When the url is new, it also requires one draw to be fresh, which replaces
  the loop's probabilistic termination.
- The clock is an input: `now` is the `created_at` string.
- The url validator of `app/utils.py` is an input: a total predicate
  `isValidUrl: string -> bool`.
- The request body's `url` field is an `Option<string>`. `not original_url` is true
  for a missing field and for the empty string.
- `redirect_url` tests `if url:`, so a record whose url is the empty string would
  answer 404 and would not be counted. `HandleRedirect` keeps that branch.
  `ServiceInv` shows such a record never exists, because `shorten_url` rejects the
  empty url before it reaches the store.
- `create_short_url` itself accepts any string, including the empty one. Only the
  shorten handler rejects the empty url, and `Create` has no precondition on the url.

## Model

| member | source | states |
|---|---|---|
| ShortCode.AlphabetSize | app/models.py:12 | The generator's alphabet has 62 symbols. |
| ShortCode.PositionOfAlphabet | app/models.py:12 | Every alphabet symbol is in `[A-Za-z0-9]`, and each symbol occurs only once, at the position `PositionOf` computes. |
| ShortCode.PositionOf | app/models.py:12 | Every character of `[A-Za-z0-9]` occurs in the alphabet, at the returned position. |
| ShortCode.Generate | app/models.py:11-12 | The generated code is exactly 6 characters from `[A-Za-z0-9]`, and character i is the alphabet symbol at the i-th picked position. |
| ShortCode.GenerateDrawOf | app/models.py:12 | Every well-formed code is produced by some draw, so the generator's range is exactly the format `^[A-Za-z0-9]{6}$`. |
| ShortCode.DrawOfGenerate | app/models.py:12 | Distinct draws give distinct codes: a draw is recovered from its code. |
| UrlStore.Empty | app/models.py:7-9 | A new store has no records and satisfies the store invariant. |
| UrlStore.ScanForUrl | app/models.py:16-18 | The scan returns None exactly when no visited key holds the url. Otherwise it returns the first key, in insertion order, whose record holds the url. |
| UrlStore.FirstFresh | app/models.py:19-21 | The retry loop stops at the first draw whose code is not a key. Every earlier draw collided with an existing key. |
| UrlStore.Create | app/models.py:14-27 | The returned code always maps to the url afterwards. A code that was already a key means the store is unchanged. Otherwise the new code is well formed, maps to `{url, 0 clicks, now}`, and is appended to the order. The code is pre-existing exactly when the scan found the url. |
| UrlStore.CreateShortUrl | app/models.py:14-27 | The source's scan loop followed by its draw-until-fresh loop computes exactly the code and store that `Create` defines. |
| UrlStore.GetOriginalUrl | app/models.py:29-31 | Returns a url exactly when the code is a key, and that url is the one stored under the code. |
| UrlStore.IncrementClicks | app/models.py:33-36 | On a known code, clicks go up by exactly 1 and url and timestamp are kept. Every other record, the key set and the order are unchanged. An unknown code is a no-op. |
| UrlStore.GetStats | app/models.py:38-47 | Returns a snapshot exactly when the code is a key, and the snapshot equals the stored record's three fields. |
| StoreProperties.ScanComplete | app/models.py:16-18 | In a valid store the scan misses a url only if no record holds it. |
| StoreProperties.CreateExisting | app/models.py:16-18 | Creating a stored url returns that record's code and leaves the store, including click counts, unchanged. |
| StoreProperties.CreateNew | app/models.py:19-26 | Creating a new url returns a code that was not a key and is well formed. Afterwards the keys are the old keys plus that code, it maps to `{url, 0, now}`, and every earlier record is unchanged. |
| StoreProperties.CreatePreservesInv | app/models.py:14-27 | Create keeps the order consistent with the keys, the urls unique across codes and every key well formed. No record is lost or altered. |
| StoreProperties.CreateIdempotent | app/models.py:14-27 | Creating the same url a second time, with any draws and any clock, returns the same code and the same store. |
| StoreProperties.IncrementPreservesInv | app/models.py:33-36 | Increment keeps the invariant. It never removes a record, changes a url or timestamp, or lowers a click count. |
| StoreProperties.LookupInvertsScan | app/models.py:16-31 | In a reachable store, looking up code c gives url u exactly when the dedup scan for u finds c. |
| StoreProperties.StatsAgreeWithLookup | app/models.py:29-47 | Stats and url lookup agree on whether a code is known and on its url. |
| StoreProperties.IncrementTimes | app/models.py:33-36 | Any number of increments only extends the store: records persist and clicks never decrease. |
| StoreProperties.IncrementTimesCounts | app/models.py:33-47 | After n increments of a known code, its stats report n more clicks with the same url and timestamp. Every other record is untouched. |
| Handlers.HandleShorten | app/main.py:9-20 | A missing, empty or invalid url gives 400 `Invalid URL` with the store unchanged. An accepted url gives exactly the code and store that `create_short_url` produces. |
| Handlers.HandleRedirect | app/main.py:22-28 | The status is 302 or 404. It redirects exactly when the code is a key with a non-empty url. The redirect goes to the stored url and the store becomes the one-click increment. Otherwise the response is 404 `Short code not found` with the store unchanged. |
| Handlers.HandleStats | app/main.py:30-35 | Never changes the store. The status is 200 exactly for known codes, else 404. A known code gives its url, clicks and timestamp. An unknown code gives 404. |
| Service.Handle | app/main.py:8-35 | Routing a stats request never changes the store. |
| Service.Serve | app/main.py:8-35 | Over any request sequence, each shorten request is answered with a code exactly when its url is accepted, and with 400 otherwise. |
| Service.EmptyServiceInv | app/main.py:6 | The freshly constructed store satisfies the service invariant. |
| Service.HandlePreservesInv | app/main.py:8-35 | Every handler preserves the invariant: consistent order, unique urls, well-formed codes, non-empty urls. Every handler only extends the store. |
| Service.HandleCountsVisit | app/main.py:22-35 | One request adds one click to record k if it is a visit of k. Otherwise k's clicks are unchanged. |
| Service.ServePreservesInv | app/main.py:8-35 | After any sequence of requests the invariant still holds. Every earlier record is still present with the same url and timestamp, and no fewer clicks. |
| Service.ServeCountsVisits | app/main.py:22-35 | After any sequence of requests, a pre-existing record's clicks have grown by exactly the number of visits of its code. |
| Service.RedirectKnownCode | app/main.py:22-28 | In a reachable store, a redirect succeeds exactly for known codes, goes to the stored url and counts one click. |
| Service.MalformedCodeNotFound | tests/test_basic.py:40-42 | A code that is not 6 alphanumeric characters, such as `unknown123`, gets 404 from both lookups and changes nothing. |
| Service.ShortenTwiceSameCode | app/main.py:16-20 | Shortening the same valid url twice returns the same code. The second request changes nothing. |
| Service.RedirectTimesIncrements | app/main.py:22-28 | Each of n visits of a known code redirects to its url. The store after them equals the store after n increments. |
| Service.ShortenVisitStats | tests/test_basic.py:27-38 | In a fresh service, shortening a valid url gives a well-formed code. After n visits the stats report that url, n clicks and the creation timestamp. This is what the stats test asserts for n = 3 when it starts from an empty store. |
| Service.SharedStoreTestOrder | tests/test_basic.py:14-38 | With one store shared by the tests in file order, the stats test gets the code the earlier redirect test already visited once. Its stats then report 4 clicks. |

## Left out

- The `threading.Lock` (app/models.py:9): each operation is one atomic step, and concurrency is modelled only as the choice of request order.
- `random.choices` (app/models.py:12): the picked positions are an input (`Draw`), constrained only to be in range.
- Termination of the retry loop (app/models.py:20-21) is probabilistic. `CanCreate` requires that a fresh draw occurs among the supplied draws. The model does not describe the case where none does, in which the source keeps drawing forever.
- `time.strftime` (app/models.py:25): the timestamp is an opaque string parameter.
- `is_valid_url` (app/utils.py): it wraps `urllib.parse.urlparse`, which is not part of this model, so it is an uninterpreted predicate parameter.
- Flask routing, JSON encoding and the `short_url` string `http://localhost:5000/<code>` (app/main.py:17-20). `Shortened` carries only the code.
- The `/health` endpoint (app/main.py:37-39): it touches no state.
- A request body that is not a JSON object crashes the handler: a non-JSON body at `request.get_json()` (app/main.py:10), and a JSON `null`, list or number at `data.get` (app/main.py:11).
- JSON `url` values that are not strings are not represented: the field is an `Option<string>`. The source rejects all of them with 400. A falsy value fails `not original_url` (app/main.py:13). A truthy one reaches `is_valid_url`, whose bare `except` returns `False` (app/utils.py:4-8).
- Service.Serve: it states only the shorten responses of a run. The other responses are stated per handler, and the store facts are stated by ServePreservesInv and ServeCountsVisits.

## Findings

| source | as written | input that shows it | evidently intended | confidence | as-written member | corrected member |
|---|---|---|---|---|---|---|
| tests/test_basic.py:14-38 | All tests share the module-level store of app/main.py:6; the `client` fixture only makes a new test client. | Run the file in order. `test_shorten_and_redirect` shortens `https://example.com` and visits it once. `test_stats` gets the same code back, visits it three times, and the stats report 4 clicks. | Each test starts from an empty store, so the stats report 3 clicks as asserted. | not executed | Service.SharedStoreTestOrder | Service.ShortenVisitStats |
