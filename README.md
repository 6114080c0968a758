# Offline cache of quiz-general-seconde, modelled in Dafny

This project models the service worker `sw.js` of the quiz-general-seconde web
application. The worker keeps versioned caches ("generations") in the
browser's CacheStorage. It uses them so that the application keeps working
offline after its first load. It has three handlers:

- **install** opens the cache named `CACHE_NAME` (`quiz-cache-v27`), creating
  it if needed. It then tries to add the fixed manifest `urlsToCache` (seven
  paths under `/quiz-general-seconde`). A rejection of `addAll` is swallowed,
  so install always succeeds, possibly in degraded mode. Finally it calls
  `skipWaiting()`.
- **activate** lists every cache name and deletes each one that is not
  `CACHE_NAME`. Once all deletions have finished, it claims the clients.
- **fetch** is cache first. `caches.match(request)` searches every cache, not
  only the current one. A stored response is returned as it is. Otherwise the
  network's answer is returned unchanged, success or failure, and nothing is
  stored.

Layout:

- `wrappers.dfy` (module `Wrappers`): `Option` and `Distinct`.
- `network.dfy` (module `Network`): URLs, opaque responses (only the status
  is inspected), fetch outcomes, and the network as a function
  `Url -> FetchOutcome`. Also `Storable`, the condition `Cache.addAll` puts on
  each response (section 5.4.4 of the W3C Service Workers specification).
- `cache_storage.dfy` (module `CacheStore`): the CacheStorage as an ordered
  sequence of named caches. It has specification functions for
  open, delete, batch store, `match` and `addAll`, and a class
  `CacheStorage` whose methods `Keys`, `Open`, `Delete` and `AddAll` update
  its `entries` field in place. The fetching loop of `addAll`, which touches
  only the network, is the module-level method `FetchBatch`.
- `service_worker.dfy` (module `ServiceWorker`): the constants, the
  `WorkerScope` class (the `skipWaiting` and `claim` flags), the `Install`
  and `Activate` handlers as methods, the fetch handler as the function
  `Respond`, and the lemmas.

Two points of the browser semantics the model follows:

- The fetch handler answers from **any** cache that holds the URL. It takes
  the first such cache in creation order, as `CacheStorage.match` does
  (section 5.5.1 of the W3C Service Workers specification). So before
  activation, an older generation can still answer a request.
- Install population is **all or nothing**. `Cache.addAll` rejects the whole
  batch when any fetch fails, any status is not 2xx, a status is 206, or two
  requests coincide. After a failed install, the current cache therefore
  exists and holds nothing from this batch, only what it held before
  (nothing, when install created it). The entries that could be fetched are
  not stored either.

## Model

| member | source | states |
|---|---|---|
| `ServiceWorker.ManifestWellFormed` | sw.js:24-34 | The manifest has seven distinct URLs, each under `BASE_PATH + "/"`. |
| `CacheStore.OpenOrCreate` | sw.js:47 | `caches.open(name)` leaves the storage exactly as it was when a cache called `name` exists. Otherwise it appends a new empty cache called `name` after all the others. Every other cache name looks up exactly as before. Distinct names stay distinct. |
| `CacheStore.CacheStorage.Open` | sw.js:47 | Opening the current cache changes the storage exactly as `OpenOrCreate` says and keeps names distinct. |
| `CacheStore.BatchSpec` | sw.js:52 | `addAll` accepts exactly when the URLs are distinct and every fetch gives a storable response (not a network error, status 2xx, not 206). Its batch then has exactly the manifest URLs as keys, each mapped to the fetched response. |
| `CacheStore.FetchBatch` | sw.js:52 | The fetching half of `addAll`: its loop fetches the URLs in turn and yields exactly `Batch`, the all-or-nothing outcome. |
| `CacheStore.CacheStorage.AddAll` | sw.js:52 | `addAll` succeeds exactly when `Batch` accepts. On success, the whole batch is written into the named cache. On rejection, the storage is left exactly as it was. |
| `CacheStore.LookupStore` | sw.js:52 | Writing a batch into one cache gives that cache its old contents overridden by the batch. Every other cache is unchanged. |
| `CacheStore.CacheStorage.Keys` | sw.js:91 | `caches.keys()` gives every cache name, in storage order, each once. |
| `CacheStore.CacheStorage.Delete` | sw.js:99 | `caches.delete(name)` reports whether the cache existed and removes exactly that cache. The other caches keep their order. |
| `CacheStore.LookupWithout` | sw.js:99 | After deleting a set of names, those names are gone and every other cache looks up as before. |
| `CacheStore.MatchAll` | sw.js:73 | `caches.match(url)` finds nothing exactly when no cache holds `url`. Otherwise it gives the response of the first cache, in storage order, that holds it. |
| `CacheStore.MatchAllAppend` | sw.js:73 | A cache appended after the others answers a URL only when none of the earlier caches holds it. |
| `ServiceWorker.WorkerScope.SkipWaiting` | sw.js:62 | `skipWaiting()` sets the waiting-skipped flag and leaves the claim state alone. |
| `ServiceWorker.WorkerScope.ClaimClients` | sw.js:107 | `clients.claim()` sets the claimed flag and records which caches existed when it ran. |
| `ServiceWorker.Install` | sw.js:42-63 | Install always resolves: `Populated` when `addAll` accepted, `Degraded` otherwise. The storage becomes `Installed(old storage)`, waiting is skipped, and the clients are not claimed. |
| `ServiceWorker.InstallCurrentCache` | sw.js:46-57 | After install, the current cache exists. It holds its former contents (empty if new) plus the whole manifest batch if `addAll` accepted. If `addAll` rejected, it holds its former contents and nothing else. |
| `ServiceWorker.InstallPopulatesManifest` | sw.js:52 | If every manifest fetch is storable, every manifest URL is in the current cache, mapped to its fetched response. |
| `ServiceWorker.InstallIsolation` | sw.js:47-52 | Install leaves the contents of every cache not called `CACHE_NAME` unchanged. |
| `ServiceWorker.InstallKeepsOthers` | sw.js:47-52 | Set the current cache aside and the storage after install is exactly the storage before it, order included. Older generations stay intact until activate. |
| `ServiceWorker.Reaped` | sw.js:95-104 | The storage after activate keeps exactly the entries named `CACHE_NAME`. |
| `ServiceWorker.Obsolete` | sw.js:95-100 | The names activate deletes are exactly the listed names other than `CACHE_NAME`. |
| `ServiceWorker.ReapedByDeletions` | sw.js:94-105 | Deleting every obsolete name gives exactly the reaped storage. |
| `ServiceWorker.DeletionOrderIrrelevant` | sw.js:94-105 | Two deletions give the same storage in either order: deletions commute, so their order does not matter. |
| `ServiceWorker.Activate` | sw.js:85-111 | Activate deletes exactly the obsolete names, in listing order, and leaves the reaped storage. It claims the clients only afterwards: at claim time, the storage already holds only the reaped caches. |
| `ServiceWorker.ActivateLeavesOnlyCurrent` | sw.js:91-100 | After activate, the cache names are `[CACHE_NAME]` if that cache existed, and none otherwise. |
| `ServiceWorker.ActivateKeepsCurrent` | sw.js:97-103 | Activate keeps the current cache with its contents unchanged, and every other name looks up as absent. |
| `ServiceWorker.ActivateIdempotent` | sw.js:94-105 | A second activate with no install in between deletes nothing and leaves the storage unchanged. |
| `ServiceWorker.Respond` | sw.js:71-77 | A request is served from storage exactly when some cache holds its URL. The reply is then the first such cache's response, with no network call. Otherwise the reply is the network's outcome, success or failure, unchanged. The storage is not written. |
| `ServiceWorker.RespondAfterActivate` | sw.js:73-74 | After activate, a request is served from the current cache if it holds the URL. Otherwise it goes to the network. |
| `ServiceWorker.HitIgnoresNetwork` | sw.js:73-74 | On a hit, the reply is from storage and is the same whatever the network would do: the network plays no part. |
| `ServiceWorker.OlderGenerationAnswersFirst` | sw.js:73 | Installing a new generation does not change the answer to a URL that an older generation holds, even when the manifest stored the same URL in the new cache: until activate, the older generation keeps answering. |
| `ServiceWorker.StaleGenerationAnswers` | sw.js:73 | Before activation, a URL held only by an older generation is served from that older cache. |
| `ServiceWorker.OfflineUpgrade` | sw.js:46-109 | Upgrading from v26 while offline: install keeps v26 and adds an empty v27. v26 still answers until activate. Activate leaves only v27, and the same request then goes to the network. |

## Left out

- Logging (`console.log`, `console.warn`): observability only. The error message of a rejected `addAll` is not kept either.
- Concurrency: the promise chains, `waitUntil`, concurrent `Promise.all` deletions and fetch events that are in flight at the same time. Deletions are a sequential loop, and `DeletionOrderIrrelevant` shows that their order does not matter.
- `Install`: does not model that `skipWaiting()` is called synchronously, before the cache work settles. The two touch disjoint state, so the model calls it last.
- `Install`: does not model a rejection of `caches.open` (for example, quota or security errors). The model's open always succeeds.
- `Activate`: does not model a rejection of `caches.delete`. In the source, such a rejection would make `Promise.all` reject, and the clients would then not be claimed. The model's deletions always succeed.
- Request matching: `match` compares URLs by equality. It ignores methods, query-string options and `Vary`.
- `Batch`: does not model the HTTP-level checks of `addAll` other than the status: the `Vary: *` header, non-GET methods and non-HTTP schemes. The manifest's requests are same-origin GETs, but a server could still answer one of them with `Vary: *`, and `addAll` would then reject.
- `Batch`: does not model a rejection of the batch write itself, for example a QuotaExceededError when storage is full. The model treats storage as unbounded, so `Populated`, `FetchBatch`, `AddAll` and `InstallPopulatesManifest` hold only when the write succeeds. In the source, such a rejection is caught like any other (sw.js:52-57): install still resolves and the cache is left unchanged, which is the model's `Degraded` storage.
- `Respond`: does not model a rejection of `caches.match`. In the source it would make the promise given to `respondWith` reject, and the page would get a network error instead of a network fetch. The model's `match` always resolves.
- `Activate`: does not model a rejection of `caches.keys`. In the source, activate would then delete nothing and not claim the clients. The model's `keys` always resolves.
- Responses are opaque values; headers and bodies are not interpreted. The network is a deterministic function of the URL during one event.
- The runtime effect of `clients.claim()` and `skipWaiting()`. These are only flags, plus the ghost record of the caches that existed at claim time.
- Network-first handling for CDN or dynamic requests, and an offline fallback page. Comments mention them, but the code has no such branches.
