# Flutter web service worker: manifest caching policy

This project models `web/sw.js`, the service worker that a Flutter web app
registers to keep its asset manifests available. The model covers:

- **Install.** The worker opens the cache `flutter-assets-v2` and calls `addAll`
  on the seven critical assets. Each asset is requested with `cache: 'reload'`.
  The batch is all-or-nothing. A rejected batch is caught and only logged, so
  install still completes.
- **Fetch.** Only GET requests whose URL contains `AssetManifest` or
  `FontManifest` are handled.
  - On a cache hit, the cached response is served.
  - On a miss, the request goes to the network. An ok response (status
    200–299) is written through to the cache. Any response, ok or not, is
    returned.
  - When the network fails, a URL containing `AssetManifest.bin.json` gets an
    empty JSON manifest `{}`. Any other URL re-throws the error.
- **Activate.** The worker walks `caches.keys()` and deletes every cache whose
  name is not the current one.

## Modules

- `Wrappers`: `Option`, `Result` and `Outcome`.
- `Strings`: JavaScript's `String.prototype.includes` as `Includes`, with
  lemmas about substrings.
- `Fetch`: requests, responses (`Ok()` is status 200–299) and network outcomes
  (a response, or a rejection with a reason).
- `Caches`: the browser's cache storage, after sections 5.4 (`Cache`) and 5.5
  (`CacheStorage`) of the W3C Service Workers specification.
  - `CacheStorage` is a class. `names` holds the cache names in creation
    order, which is the order `keys()` returns. `caches` maps each name to a
    cache of URL → response.
  - `Batch` is the all-or-nothing fetch behind `addAll`.
- `ServiceWorker`: the constants and the three event handlers. `CACHE_NAME`
  and `CRITICAL_ASSETS` copy the cache version and the seven asset paths of
  web/sw.js:2-11. Each handler is
  a method on a `CacheStorage`; the network is a parameter.

`caches.open` creates the named cache when it is missing. So every intercepted
request, even one served from the network, leaves an (empty if new) current
cache in the store. The contracts of `HandleFetch` and `Install` state this
through `Caches.WithCache`, instead of claiming that a miss leaves the store
unchanged.

## Model

| member | source | states |
|---|---|---|
| ServiceWorker.HandleFetch | web/sw.js:31-70 | Non-GET or non-manifest requests pass through with no cache access and no fetch. An intercepted request opens the current cache. On a hit, the cached response is served with no fetch and no change. On a miss, the network is used. An ok response is stored under the URL and returned. A non-ok response is returned and not stored. A network error gives the empty JSON manifest exactly when the URL contains `AssetManifest.bin.json`; otherwise the error propagates. Either way the cache is unchanged apart from being opened. The body repeats the `includes` tests inline, as the source does; the contract states the outcome through `Intercepts` and `HasFallback`. |
| ServiceWorker.IsManifestUrl | web/sw.js:36-37 | Defines the manifest test: the URL includes `AssetManifest` or `FontManifest`. |
| ServiceWorker.Intercepts | web/sw.js:33-37 | Defines which requests the fetch handler takes over: GET requests whose URL passes `IsManifestUrl`. |
| ServiceWorker.HasFallback | web/sw.js:59 | Defines the fallback test: the URL includes `AssetManifest.bin.json`. |
| ServiceWorker.FallbackResponse | web/sw.js:60-62 | The empty JSON manifest `{}`. It is an ok response, since a `Response` built without a status gets 200, and its `Content-Type` is `application/json`. |
| ServiceWorker.ServeAfterInstall | web/sw.js:14-70 | Runs install, then fetches one of the three manifests. Once pre-caching succeeded, the fetch is answered from the cache with the response the network gave at install time, and the network is not used. |
| ServiceWorker.Install | web/sw.js:14-28 | Opens the current cache. Pre-caching succeeds iff every critical asset's reload request gets an ok response. On success each asset's URL maps to the response the network gave. On failure the store is the old store with the current cache opened and nothing added; the failure is swallowed. |
| ServiceWorker.Activate | web/sw.js:73-87 | The caches deleted are exactly the non-current names of `keys()`, in that order. Afterwards only the current cache remains, with its old contents, or no cache at all if there was no current one. |
| ServiceWorker.DeleteIfStale | web/sw.js:77-81 | A name other than `flutter-assets-v2` is deleted from the store and from the name list. The current name leaves the storage unchanged. |
| ServiceWorker.PrecacheRequests | web/sw.js:19-21 | One request per asset, in order. Each is a GET of the asset resolved against the worker's base URL, with cache mode `reload`. |
| ServiceWorker.FallbackImpliesIntercepted | web/sw.js:36-37 | Any URL that qualifies for the empty-manifest fallback (line 59) is one the handler intercepts, so the fallback branch is reachable for every such URL. |
| ServiceWorker.CriticalAssetRouting | web/sw.js:3-11 | Of the seven relative asset paths, exactly the first three pass the manifest test of lines 36-37. Only the first, `AssetManifest.bin.json`, passes the fallback test of line 59. |
| ServiceWorker.ResolvedAssetRouting | web/sw.js:19-21 | The same routing holds for the URLs the pre-cache requests resolve to, for any base URL without an `A` or `F`: exactly the first three are manifests and only the first has the fallback. A base with those letters could make any URL pass the test. |
| ServiceWorker.FallbackOnlyFromPath | web/sw.js:59 | A base URL without an `A` cannot make a resolved path pass the fallback test. |
| ServiceWorker.NotAManifest | web/sw.js:36-37 | A path with neither an `A` nor an `F` is not intercepted and has no fallback. |
| ServiceWorker.NoFallbackWithoutB | web/sw.js:59 | A URL without a `b` never gets the empty-manifest fallback. |
| ServiceWorker.ManifestPathsIncluded | web/sw.js:4-6 | Resolved against any base URL, the three manifest paths contain `AssetManifest.bin.json`, `AssetManifest` and `FontManifest` respectively. |
| ServiceWorker.PrecachedManifestsIntercepted | web/sw.js:19-21 | Whatever the base URL, the fetch handler intercepts the pre-cache requests for the three manifests. `ServeAfterInstall` uses this to show that it serves their cached copies. |
| ServiceWorker.PrecacheUrlsDistinct | web/sw.js:3-11 | The seven pre-cache URLs are pairwise different, so `addAll` stores one entry per asset. |
| Caches.Batch | web/sw.js:19 | The batch succeeds iff every request's outcome is an ok response. On success its keys are exactly the request URLs and every stored response is ok. Its rejection value is stated by `BatchRejectsWithTypeError`. |
| Caches.BatchRejectsWithTypeError | web/sw.js:19 | A rejected batch always rejects with a `TypeError`, whether a fetch failed or a response had a non-ok status. The network's own error is not passed on. |
| Caches.Admissible | web/sw.js:19 | Defines the outcomes `addAll` accepts: a received response with an ok status. |
| Caches.BatchStoresEach | web/sw.js:19 | For a successful batch with distinct URLs, each request's URL maps to the response the network gave for that request. |
| Caches.CacheStorage.Keys | web/sw.js:75 | Returns the cache names in creation order, without duplicates. A name is listed iff a cache with that name exists. |
| Caches.CacheStorage.Open | web/sw.js:16 | Creates an empty cache with the given name if none exists, appending the name to the key order. An existing cache is left as it is. |
| Caches.CacheStorage.Match | web/sw.js:41 | Returns an entry iff the URL is stored in the named cache. The entry returned is the stored response. |
| Caches.CacheStorage.Put | web/sw.js:52 | Stores the response under the URL in the named cache, replacing any previous entry. No other cache or entry changes. |
| Caches.CacheStorage.Delete | web/sw.js:80 | Removes the named cache from the store and its name from the key order. It reports whether the cache existed. |
| Caches.CacheStorage.AddAll | web/sw.js:19 | Passes iff the batch succeeds, and then merges the batch into the named cache. A failed batch leaves the storage unchanged. |
| Caches.WithCache | web/sw.js:16 | Opening a cache adds its name to the store's names. Existing caches keep their contents, and a new cache is empty. |
| Caches.Remove | web/sw.js:77-81 | Removing a name keeps exactly the other elements, and never lengthens the list. |
| Caches.RemoveKeepsDistinct | web/sw.js:80 | Deleting a cache name keeps the name list free of duplicates. |
| Caches.RemoveDistributes | web/sw.js:77 | Removing a name from a concatenation removes it from each part, so the activate loop can delete name by name. |
| Caches.RemoveAbsent | web/sw.js:80 | Removing a name that is not in the list changes nothing. |
| Strings.Includes | web/sw.js:36-37 | `String.prototype.includes`: `t` occurs at some position of `s`. The empty string is included in every string, and an included string is never longer than the string including it. |
| Strings.IncludesPastPrefix | web/sw.js:59 | If the first character of an included string does not occur in a prefix, the included string lies wholly after that prefix. |
| Strings.IncludesTransitive | web/sw.js:36-37 | If `s` includes `t` and `t` includes `u`, then `s` includes `u`. |
| Strings.IncludesInfix | web/sw.js:36-37 | A string includes any infix placed between a prefix and a suffix. |
| Strings.IncludesAfterPrefix | web/sw.js:36-37 | Prepending text, such as a base URL, keeps an included substring included. |
| Strings.IncludesOnlyOwnChars | web/sw.js:59 | A string that includes `t` contains every character of `t`. |

## Left out

- `web/asset_loader.js` and the rest of the repository are not part of this
  model.
- Event plumbing is left out: `waitUntil`, `respondWith`, `skipWaiting` and
  `clients.claim`. Each handler is one method call that runs to completion;
  promise scheduling and interleaving between events are not modelled.
- The write-through `cache.put` on line 52 is not awaited in the source. The
  model performs it before the reply, so a put that fails or races with
  another event is not represented.
- `put` rejects a response with status 206 or with a `Vary: *` header, so the
  source never stores those, although a 206 response is ok and line 52 calls
  `put` for it. The model stores every ok response, 206 and `Vary: *` included.
- Logging (`console.log`, `console.error`) has no effect on state and is left
  out.
- Response bodies are strings. `response.clone()` and body streams are not
  modelled, and neither is a body already consumed.
- `cache.match` and `cache.put` are keyed by the exact URL string. Method,
  `Vary` headers and query-string options of request matching are not
  modelled.
- `addAll`'s further rejections are not modelled: a 206 status, a `Vary: *`
  header and duplicate requests. Which fetch failed first in time is not
  modelled either. Every rejection is a `TypeError` and only reaches the log on
  line 24, so that order is not observable.
- `caches.open`, `caches.keys` and `caches.delete` are modelled as never
  rejecting. Storage quota errors are left out.
- URL resolution of the relative asset paths is modelled as the worker's base
  URL followed by the path. Dot segments and normalisation are left out.
- Header names are not case-folded. The fallback's `Content-Type` header is
  stored as written.
- The network is a parameter: a function from request to outcome for install,
  and one outcome for a fetch. Timing and retries are not modelled.
- Activate's `Promise.all` runs the deletions in parallel in the source. The
  model runs them in `keys()` order, which yields the same final store because
  the deletions touch distinct names.
