/**
 * The service worker's manifest-caching policy: the install pre-cache of the
 * critical assets, the routing and cache-or-network logic of the fetch
 * handler, and the removal of old cache versions on activation.
 * Each handler works on a `CacheStorage` given to it; the network is an input.
 */
module ServiceWorker {
  import opened Strings
  import opened Fetch
  import opened Caches

  /** The current cache version; every other cache name is stale. */
  const CACHE_NAME: string := "flutter-assets-v2"

  /** The assets fetched and stored when the worker is installed. */
  const CRITICAL_ASSETS: seq<string> := [
    "assets/AssetManifest.bin.json",
    "assets/AssetManifest.json",
    "assets/FontManifest.json",
    "assets/images/app_icon.png",
    "main.dart.js",
    "flutter.js",
    "flutter_bootstrap.js"
  ]

  /** What the fetch handler does with a request. */
  datatype Reply =
    | PassThrough                  // `respondWith` is not called: the browser handles the request
    | Respond(response: Response)  // the page receives this response
    | Propagate(error: string)     // the page's fetch is rejected with this network error

  /** The URL test of the fetch handler: a manifest of assets or of fonts. */
  predicate IsManifestUrl(url: string) {
    Includes(url, "AssetManifest") || Includes(url, "FontManifest")
  }

  /** Only GET requests for manifests are handled by the worker. */
  predicate Intercepts(request: Request) {
    request.httpMethod == "GET" && IsManifestUrl(request.url)
  }

  /** The URLs for which a failed network fetch is answered with an empty manifest. */
  predicate HasFallback(url: string) {
    Includes(url, "AssetManifest.bin.json")
  }

  /** `new Response('{}', {headers: {'Content-Type': 'application/json'}})`; its status defaults to 200. */
  function FallbackResponse(): (r: Response)
    ensures r.Ok() && "Content-Type" in r.headers && r.headers["Content-Type"] == "application/json"
  {
    Response(200, map["Content-Type" := "application/json"], "{}")
  }

  /** `assets.map(asset => new Request(asset, {cache: 'reload'}))`, each path resolved against the worker's base URL. */
  function PrecacheRequests(base: string, assets: seq<string>): (r: seq<Request>)
    ensures |r| == |assets|
    ensures forall i :: 0 <= i < |assets| ==>
              r[i].httpMethod == "GET" && r[i].url == base + assets[i] && r[i].cache == Reload
  {
    seq(|assets|, i requires 0 <= i < |assets| => Request("GET", base + assets[i], Reload))
  }

  /** The request's URL has an entry in the current cache of the store. */
  ghost predicate Cached(store: Store, url: string) {
    CACHE_NAME in store && url in store[CACHE_NAME]
  }

  /** A URL that can receive the fallback is always one the worker intercepts. */
  lemma FallbackImpliesIntercepted(url: string)
    ensures HasFallback(url) ==> IsManifestUrl(url)
  {
    if HasFallback(url) {
      IncludesInfix("", "AssetManifest", ".bin.json");
      assert "" + "AssetManifest" + ".bin.json" == "AssetManifest.bin.json";
      IncludesTransitive(url, "AssetManifest.bin.json", "AssetManifest");
    }
  }

  /**
   * Of the critical assets, exactly the first three are manifests the fetch handler
   * intercepts, and only the first of them has the empty-manifest fallback.
   */
  lemma CriticalAssetRouting()
    ensures forall i :: 0 <= i < |CRITICAL_ASSETS| ==> (IsManifestUrl(CRITICAL_ASSETS[i]) <==> i < 3)
    ensures forall i :: 0 <= i < |CRITICAL_ASSETS| ==> (HasFallback(CRITICAL_ASSETS[i]) <==> i == 0)
  {
    var a := CRITICAL_ASSETS;
    forall i | 0 <= i < |a|
      ensures IsManifestUrl(a[i]) <==> i < 3
      ensures HasFallback(a[i]) <==> i == 0
    {
      if i < 3 {
        ManifestsRouted();
      } else {
        OtherAssetsLackCapitals();
        NotAManifest(a[i]);
      }
    }
  }

  /**
   * The same routing holds for the URLs the pre-cache requests resolve to, wherever
   * the worker is served from, as long as the base URL has no 'A' or 'F' of its own
   * (otherwise the base alone could make a URL look like a manifest).
   */
  lemma ResolvedAssetRouting(base: string)
    requires 'A' !in base && 'F' !in base
    ensures forall i :: 0 <= i < |CRITICAL_ASSETS| ==> (IsManifestUrl(base + CRITICAL_ASSETS[i]) <==> i < 3)
    ensures forall i :: 0 <= i < |CRITICAL_ASSETS| ==> (HasFallback(base + CRITICAL_ASSETS[i]) <==> i == 0)
  {
    var a := CRITICAL_ASSETS;
    forall i | 0 <= i < |a|
      ensures IsManifestUrl(base + a[i]) <==> i < 3
      ensures HasFallback(base + a[i]) <==> i == 0
    {
      if i < 3 {
        ManifestsRouted();
        ManifestPathsIncluded(base);
        FallbackImpliesIntercepted(base + a[0]);
        FallbackOnlyFromPath(base, a[1]);
        FallbackOnlyFromPath(base, a[2]);
      } else {
        OtherAssetsLackCapitals();
        assert 'A' !in base + a[i] && 'F' !in base + a[i];
        NotAManifest(base + a[i]);
      }
    }
  }

  /** A base URL without an 'A' cannot contribute to the fallback test. */
  lemma FallbackOnlyFromPath(base: string, path: string)
    requires 'A' !in base
    ensures HasFallback(base + path) ==> HasFallback(path)
  {
    if HasFallback(base + path) {
      IncludesPastPrefix(base, path, "AssetManifest.bin.json");
    }
  }

  lemma ManifestsRouted()
    ensures IsManifestUrl(CRITICAL_ASSETS[0]) && HasFallback(CRITICAL_ASSETS[0])
    ensures IsManifestUrl(CRITICAL_ASSETS[1]) && !HasFallback(CRITICAL_ASSETS[1])
    ensures IsManifestUrl(CRITICAL_ASSETS[2]) && !HasFallback(CRITICAL_ASSETS[2])
  {
    RelativeManifestPathsIncluded();
    FallbackImpliesIntercepted(CRITICAL_ASSETS[0]);
    // Neither JSON manifest contains the 'b' of "bin".
    NoFallbackWithoutB(CRITICAL_ASSETS[1]);
    NoFallbackWithoutB(CRITICAL_ASSETS[2]);
  }

  lemma RelativeManifestPathsIncluded()
    ensures Includes(CRITICAL_ASSETS[0], "AssetManifest.bin.json")
    ensures Includes(CRITICAL_ASSETS[1], "AssetManifest")
    ensures Includes(CRITICAL_ASSETS[2], "FontManifest")
  {
    ManifestPathsIncluded("");
    var a := CRITICAL_ASSETS;
    assert "" + a[0] == a[0] && "" + a[1] == a[1] && "" + a[2] == a[2];
  }

  /** A URL without the 'b' of "bin" has no fallback. */
  lemma NoFallbackWithoutB(url: string)
    requires 'b' !in url
    ensures !HasFallback(url)
  {
    IncludesOnlyOwnChars(url, "AssetManifest.bin.json", 14);
  }

  /** The four non-manifest critical assets have neither an 'A' nor an 'F'. */
  lemma OtherAssetsLackCapitals()
    ensures forall i :: 3 <= i < |CRITICAL_ASSETS| ==> 'A' !in CRITICAL_ASSETS[i] && 'F' !in CRITICAL_ASSETS[i]
  {
  }

  /** A path without the capital letters 'A' and 'F' is neither intercepted nor given the fallback. */
  lemma NotAManifest(path: string)
    requires 'A' !in path && 'F' !in path
    ensures !IsManifestUrl(path) && !HasFallback(path)
  {
    IncludesOnlyOwnChars(path, "AssetManifest", 0);
    IncludesOnlyOwnChars(path, "FontManifest", 0);
    IncludesOnlyOwnChars(path, "AssetManifest.bin.json", 0);
  }

  /** Resolved against any base URL, the three manifest paths contain their manifest names. */
  lemma ManifestPathsIncluded(base: string)
    ensures Includes(base + CRITICAL_ASSETS[0], "AssetManifest.bin.json")
    ensures Includes(base + CRITICAL_ASSETS[1], "AssetManifest")
    ensures Includes(base + CRITICAL_ASSETS[2], "FontManifest")
  {
    assert CRITICAL_ASSETS[0] == "assets/" + "AssetManifest.bin.json" + "";
    assert CRITICAL_ASSETS[1] == "assets/" + "AssetManifest" + ".json";
    assert CRITICAL_ASSETS[2] == "assets/" + "FontManifest" + ".json";
    ResolvedIncludes(base, CRITICAL_ASSETS[0], "assets/", "AssetManifest.bin.json", "");
    ResolvedIncludes(base, CRITICAL_ASSETS[1], "assets/", "AssetManifest", ".json");
    ResolvedIncludes(base, CRITICAL_ASSETS[2], "assets/", "FontManifest", ".json");
  }

  lemma ResolvedIncludes(base: string, path: string, dir: string, name: string, ext: string)
    requires path == dir + name + ext
    ensures Includes(base + path, name)
  {
    assert base + path == (base + dir) + name + ext;
    IncludesInfix(base + dir, name, ext);
  }

  /** Wherever the worker is served from, the requests for the three pre-cached manifests are intercepted. */
  lemma PrecachedManifestsIntercepted(base: string)
    ensures forall i :: 0 <= i < 3 ==> Intercepts(PrecacheRequests(base, CRITICAL_ASSETS)[i])
  {
    ManifestPathsIncluded(base);
    FallbackImpliesIntercepted(base + CRITICAL_ASSETS[0]);
  }

  /** The pre-cache requests have pairwise different URLs, so `addAll` stores one entry per asset. */
  lemma PrecacheUrlsDistinct(base: string)
    ensures NoDuplicates(Urls(PrecacheRequests(base, CRITICAL_ASSETS)))
  {
    var us := Urls(PrecacheRequests(base, CRITICAL_ASSETS));
    forall i, j | 0 <= i < j < |us|
      ensures us[i] != us[j]
    {
      assert us[i][|base|..] == CRITICAL_ASSETS[i];
      assert us[j][|base|..] == CRITICAL_ASSETS[j];
    }
  }

  /**
   * The install handler: open the current cache and `addAll` the critical assets,
   * fetched with `reload`. A rejected batch is swallowed (only logged), so install
   * always completes; `precached` tells whether the batch was stored.
   */
  method Install(storage: CacheStorage, base: string, net: Request -> NetworkOutcome)
    returns (precached: bool)
    requires storage.Valid()
    modifies storage
    ensures storage.Valid()
    ensures storage.names == if CACHE_NAME in old(storage.caches) then old(storage.names)
                             else old(storage.names) + [CACHE_NAME]
    ensures precached <==> forall i :: 0 <= i < |CRITICAL_ASSETS| ==>
                             Admissible(net(PrecacheRequests(base, CRITICAL_ASSETS)[i]))
    ensures precached ==>
              (var withCurrent := WithCache(old(storage.caches), CACHE_NAME);
               var entries := Batch(PrecacheRequests(base, CRITICAL_ASSETS), net).value;
               storage.caches == withCurrent[CACHE_NAME := withCurrent[CACHE_NAME] + entries])
    ensures precached ==> forall i :: 0 <= i < |CRITICAL_ASSETS| ==>
              (var request := PrecacheRequests(base, CRITICAL_ASSETS)[i];
               request.url in storage.caches[CACHE_NAME] &&
               storage.caches[CACHE_NAME][request.url] == net(request).response)
    ensures !precached ==> storage.caches == WithCache(old(storage.caches), CACHE_NAME)
  {
    storage.Open(CACHE_NAME);
    var requests := PrecacheRequests(base, CRITICAL_ASSETS);
    var outcome := storage.AddAll(CACHE_NAME, requests, net);
    precached := outcome.Pass?;
    if precached {
      PrecacheUrlsDistinct(base);
      BatchStoresEach(requests, net);
    }
  }

  /**
   * Install followed by a fetch of one of the three manifests: once the critical
   * assets are pre-cached, the fetch handler serves the manifest from the cache,
   * with the response the network gave at install time, and never asks the network.
   */
  method ServeAfterInstall(storage: CacheStorage, base: string, net: Request -> NetworkOutcome, k: int)
    returns (precached: bool, reply: Reply, networkUsed: bool)
    requires storage.Valid() && 0 <= k < 3
    modifies storage
    ensures storage.Valid()
    ensures precached ==>
              (var request := PrecacheRequests(base, CRITICAL_ASSETS)[k];
               Admissible(net(request)) && reply == Respond(net(request).response) && !networkUsed)
  {
    precached := Install(storage, base, net);
    var request := Request("GET", base + CRITICAL_ASSETS[k], Default);
    PrecachedManifestsIntercepted(base);
    assert Intercepts(request) by {
      assert request.url == PrecacheRequests(base, CRITICAL_ASSETS)[k].url;
    }
    reply, networkUsed := HandleFetch(storage, request, net(request));
  }

  /**
   * The fetch handler for one request. Non-GET and non-manifest requests pass through.
   * A manifest request opens the current cache and is answered from it on a hit; on a
   * miss it goes to the network, writes an ok response through to the cache, returns
   * any response, and on a network error answers with the empty manifest only for
   * `AssetManifest.bin.json`, propagating the error otherwise.
   * `networkUsed` tells whether `fetch` was called.
   */
  method HandleFetch(storage: CacheStorage, request: Request, net: NetworkOutcome)
    returns (reply: Reply, networkUsed: bool)
    requires storage.Valid()
    modifies storage
    ensures storage.Valid()
    // Not intercepted: nothing is read, written or fetched.
    ensures !Intercepts(request) ==>
              reply == PassThrough && !networkUsed &&
              storage.caches == old(storage.caches) && storage.names == old(storage.names)
    // Intercepted: the current cache is opened, so it exists afterwards.
    ensures Intercepts(request) ==>
              reply != PassThrough &&
              storage.names == if CACHE_NAME in old(storage.caches) then old(storage.names)
                               else old(storage.names) + [CACHE_NAME]
    // Hit: the cached entry, no network, no change.
    ensures Intercepts(request) && Cached(old(storage.caches), request.url) ==>
              reply == Respond(old(storage.caches)[CACHE_NAME][request.url]) && !networkUsed &&
              storage.caches == old(storage.caches)
    // Miss: the network is asked.
    ensures Intercepts(request) && !Cached(old(storage.caches), request.url) ==>
              (var withCurrent := WithCache(old(storage.caches), CACHE_NAME);
              && networkUsed
              && (net.Received? ==> reply == Respond(net.response))
              && (net.Received? && net.response.Ok() ==>
                    storage.caches == withCurrent[CACHE_NAME := withCurrent[CACHE_NAME][request.url := net.response]])
              && (net.Received? && !net.response.Ok() ==> storage.caches == withCurrent)
              && (net.NetworkError? ==>
                    storage.caches == withCurrent &&
                    reply == if HasFallback(request.url) then Respond(FallbackResponse())
                             else Propagate(net.reason)))
  {
    reply, networkUsed := PassThrough, false;
    if request.httpMethod != "GET" {
      return;
    }
    if !(Includes(request.url, "AssetManifest") || Includes(request.url, "FontManifest")) {
      return;
    }
    storage.Open(CACHE_NAME);
    var cached := storage.Match(CACHE_NAME, request.url);
    if cached.Some? {
      reply := Respond(cached.value);
      return;
    }
    networkUsed := true;
    match net
    case Received(response) =>
      if response.Ok() {
        storage.Put(CACHE_NAME, request.url, response);
      }
      reply := Respond(response);
    case NetworkError(reason) =>
      if Includes(request.url, "AssetManifest.bin.json") {
        reply := Respond(FallbackResponse());
      } else {
        reply := Propagate(reason);
      }
  }

  /** The part of a list of cache names that survives activation. */
  function Current(names: seq<string>): seq<string> {
    if CACHE_NAME in names then [CACHE_NAME] else []
  }

  /**
   * The state of the activate loop after visiting the first i names of `keys()`:
   * the stale ones among them are deleted (from the names, from the store, and
   * listed in `deleted`), and everything else is as before.
   */
  ghost predicate Swept(before: Store, names: seq<string>, i: int,
                        remaining: seq<string>, after: Store, deleted: seq<string>)
  {
    && 0 <= i <= |names|
    && remaining == Current(names[..i]) + names[i..]
    && deleted == Remove(names[..i], CACHE_NAME)
    && (forall n :: n in after <==> n in before && (n == CACHE_NAME || n !in names[..i]))
    && (forall n :: n in after ==> after[n] == before[n])
  }

  /** One iteration of the activate loop: keep the current cache, delete any other. */
  lemma SweepStep(before: Store, names: seq<string>, i: int,
                  remaining: seq<string>, after: Store, deleted: seq<string>)
    requires NoDuplicates(names) && i < |names|
    requires Swept(before, names, i, remaining, after, deleted)
    ensures names[i] == CACHE_NAME ==> Swept(before, names, i + 1, remaining, after, deleted)
    ensures names[i] != CACHE_NAME ==>
              Swept(before, names, i + 1, Remove(remaining, names[i]), after - {names[i]}, deleted + [names[i]])
  {
    DeletedStep(names, i);
    RemainingStep(names, i);
    StoreStep(before, names, i, after);
  }

  lemma StoreStep(before: Store, names: seq<string>, i: int, after: Store)
    requires 0 <= i < |names|
    requires forall n :: n in after <==> n in before && (n == CACHE_NAME || n !in names[..i])
    ensures names[i] == CACHE_NAME ==>
              forall n :: n in after <==> n in before && (n == CACHE_NAME || n !in names[..i + 1])
    ensures names[i] != CACHE_NAME ==>
              forall n :: n in after - {names[i]} <==> n in before && (n == CACHE_NAME || n !in names[..i + 1])
  {
    assert names[..i + 1] == names[..i] + [names[i]];
  }

  lemma DeletedStep(names: seq<string>, i: int)
    requires 0 <= i < |names|
    ensures Remove(names[..i + 1], CACHE_NAME) ==
              Remove(names[..i], CACHE_NAME) + (if names[i] == CACHE_NAME then [] else [names[i]])
  {
    assert names[..i + 1] == names[..i] + [names[i]];
    RemoveDistributes(names[..i], [names[i]], CACHE_NAME);
  }

  lemma RemainingStep(names: seq<string>, i: int)
    requires NoDuplicates(names) && 0 <= i < |names|
    ensures names[i] != CACHE_NAME ==>
              Remove(Current(names[..i]) + names[i..], names[i]) == Current(names[..i + 1]) + names[i + 1..]
    ensures names[i] == CACHE_NAME ==>
              Current(names[..i]) + names[i..] == Current(names[..i + 1]) + names[i + 1..]
  {
    var name := names[i];
    var rest := names[i + 1..];
    assert names[..i + 1] == names[..i] + [name];
    assert names[i..] == [name] + rest;
    UniqueAt(names, i);
    if name != CACHE_NAME {
      var kept := Current(names[..i]);
      assert kept == Current(names[..i + 1]);
      RemoveDistributes(kept, [name] + rest, name);
      RemoveDistributes([name], rest, name);
      assert Remove([name], name) == [];
      RemoveAbsent(kept, name);
      RemoveAbsent(rest, name);
      assert Remove([name] + rest, name) == rest;
    }
  }

  /** In a list without duplicates, the i-th name occurs neither before nor after position i. */
  lemma UniqueAt(names: seq<string>, i: int)
    requires NoDuplicates(names) && 0 <= i < |names|
    ensures names[i] !in names[..i] && names[i] !in names[i + 1..]
  {
    forall k | 0 <= k < |names| && k != i
      ensures names[k] != names[i]
    {
    }
  }

  /** The callback mapped over the cache names: delete the cache unless it is the current one. */
  method DeleteIfStale(storage: CacheStorage, name: string) returns (stale: bool)
    requires storage.Valid()
    modifies storage
    ensures storage.Valid()
    ensures stale == (name != CACHE_NAME)
    ensures storage.caches == if stale then old(storage.caches) - {name} else old(storage.caches)
    ensures storage.names == if stale then Remove(old(storage.names), name) else old(storage.names)
  {
    stale := name != CACHE_NAME;
    if stale {
      var _ := storage.Delete(name);
    }
  }

  /**
   * The activate handler: walk `caches.keys()` and delete every cache whose name is not
   * the current one. `deleted` lists the names deleted, in the order `keys()` gave them.
   */
  method Activate(storage: CacheStorage) returns (deleted: seq<string>)
    requires storage.Valid()
    modifies storage
    ensures storage.Valid()
    ensures deleted == Remove(old(storage.names), CACHE_NAME)
    ensures storage.names == if CACHE_NAME in old(storage.caches) then [CACHE_NAME] else []
    ensures storage.caches == if CACHE_NAME in old(storage.caches)
                              then map[CACHE_NAME := old(storage.caches)[CACHE_NAME]]
                              else map[]
  {
    var names := storage.Keys();
    ghost var before := storage.caches;
    deleted := [];
    var i := 0;
    while i < |names|
      invariant storage.Valid() && NoDuplicates(names)
      invariant forall n :: n in before ==> n in names
      invariant Swept(before, names, i, storage.names, storage.caches, deleted)
    {
      SweepStep(before, names, i, storage.names, storage.caches, deleted);
      var stale := DeleteIfStale(storage, names[i]);
      if stale {
        deleted := deleted + [names[i]];
      }
      i := i + 1;
    }
    assert names[..i] == names;
    OnlyCurrentLeft(before, names, storage.caches);
  }

  lemma OnlyCurrentLeft(before: Store, names: seq<string>, after: Store)
    requires forall n :: n in before ==> n in names
    requires forall n :: n in after <==> n in before && (n == CACHE_NAME || n !in names)
    requires forall n :: n in after ==> after[n] == before[n]
    ensures after == if CACHE_NAME in before then map[CACHE_NAME := before[CACHE_NAME]] else map[]
  {
    if CACHE_NAME in before {
      assert after.Keys == {CACHE_NAME};
    } else {
      assert after.Keys == {};
    }
  }
}
