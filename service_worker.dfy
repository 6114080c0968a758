/**
 * The service worker of quiz-general-seconde (sw.js): three handlers over
 * the browser's CacheStorage.
 *  - install: open the current cache and pre-cache the manifest, tolerating
 *    failure (degraded mode), then skip the waiting phase;
 *  - activate: delete every cache whose name is not the current one, then
 *    claim the clients;
 *  - fetch: cache first, falling back to the network, storing nothing.
 */
module ServiceWorker {

  import opened Wrappers
  import opened Network
  import opened CacheStore

  /** The current generation; bumping it invalidates every older cache. */
  const CACHE_NAME: CacheName := "quiz-cache-v27"

  const BASE_PATH: string := "/quiz-general-seconde"

  /** The manifest pre-cached at install time. */
  const UrlsToCache: seq<Url> := [
    BASE_PATH + "/",
    BASE_PATH + "/index.html",
    BASE_PATH + "/style.css",
    BASE_PATH + "/app.js",
    BASE_PATH + "/manifest.json",
    BASE_PATH + "/images/icon-192.png",
    BASE_PATH + "/images/icon-512.png"
  ]

  lemma ManifestWellFormed()
    ensures |UrlsToCache| == 7
    ensures Distinct(UrlsToCache)
    ensures forall u :: u in UrlsToCache ==> |u| > |BASE_PATH| && u[..|BASE_PATH| + 1] == BASE_PATH + "/"
  {
    var lengths := [1, 11, 10, 7, 14, 20, 20];
    assert forall i :: 0 <= i < 7 ==> |UrlsToCache[i]| == |BASE_PATH| + lengths[i];
    assert UrlsToCache[5][|BASE_PATH| + 13] != UrlsToCache[6][|BASE_PATH| + 13];
  }

  /**
   * The worker's global scope, reduced to the two lifecycle primitives the
   * handlers call: `skipWaiting()` and `clients.claim()`.
   */
  class WorkerScope {

    var waitingSkipped: bool
    var clientsClaimed: bool
    /** The cache names present in storage at the moment the clients were claimed. */
    ghost var cachesAtClaim: seq<CacheName>

    constructor ()
      ensures !waitingSkipped && !clientsClaimed && cachesAtClaim == []
    {
      waitingSkipped, clientsClaimed, cachesAtClaim := false, false, [];
    }

    /** `self.skipWaiting()`. */
    method SkipWaiting()
      modifies this
      ensures waitingSkipped
      ensures clientsClaimed == old(clientsClaimed) && cachesAtClaim == old(cachesAtClaim)
    {
      waitingSkipped := true;
    }

    /** `self.clients.claim()`, remembering which caches existed at that point. */
    method ClaimClients(caches: CacheStorage)
      modifies this
      ensures clientsClaimed && cachesAtClaim == Names(caches.entries)
      ensures waitingSkipped == old(waitingSkipped)
    {
      clientsClaimed := true;
      cachesAtClaim := Names(caches.entries);
    }
  }

  // ---------------------------------------------------------------- install

  /** How the install event's `waitUntil` promise resolves: it always resolves. */
  datatype InstallOutcome = Populated | Degraded

  /** The storage after the install handler: the current cache created, then the manifest added all or nothing. */
  function Installed(s: seq<Entry>, network: Fetcher): seq<Entry>
  {
    var created := OpenOrCreate(s, CACHE_NAME);
    match Batch(UrlsToCache, network)
    case Some(m) => Store(created, CACHE_NAME, m)
    case None => created
  }

  /**
   * The install handler: opens (or creates) the current cache, adds the
   * manifest to it, swallows a rejection of `addAll`, and skips waiting.
   */
  method Install(caches: CacheStorage, scope: WorkerScope, network: Fetcher) returns (outcome: InstallOutcome)
    requires caches.Valid()
    modifies caches, scope
    ensures caches.Valid()
    ensures caches.entries == Installed(old(caches.entries), network)
    ensures outcome == if Batch(UrlsToCache, network).Some? then Populated else Degraded
    ensures scope.waitingSkipped
    ensures scope.clientsClaimed == old(scope.clientsClaimed) && scope.cachesAtClaim == old(scope.cachesAtClaim)
  {
    caches.Open(CACHE_NAME);
    var added := caches.AddAll(CACHE_NAME, UrlsToCache, network);
    outcome := if added then Populated else Degraded;
    scope.SkipWaiting();
  }

  /** The current cache as it was before install, or empty when install creates it. */
  function CurrentBefore(s: seq<Entry>): Cache
  {
    if Has(s, CACHE_NAME) then Lookup(s, CACHE_NAME).value else map[]
  }

  /**
   * After install the current cache exists; it holds its former contents
   * overridden by the whole manifest batch when `addAll` succeeds, and its
   * former contents alone (nothing of the manifest) when `addAll` rejects.
   */
  lemma {:induction false} InstallCurrentCache(s: seq<Entry>, network: Fetcher)
    ensures Lookup(Installed(s, network), CACHE_NAME) ==
      match Batch(UrlsToCache, network)
      case Some(m) => Some(CurrentBefore(s) + m)
      case None => Some(CurrentBefore(s))
  {
    var created := OpenOrCreate(s, CACHE_NAME);
    match Batch(UrlsToCache, network)
    case Some(m) => LookupStore(created, CACHE_NAME, m, CACHE_NAME);
    case None =>
  }

  lemma StoredBatchHolds(base: Cache, urls: seq<Url>, network: Fetcher)
    requires Distinct(urls) && forall i :: 0 <= i < |urls| ==> Storable(network(urls[i]))
    ensures Batch(urls, network).Some?
    ensures forall u :: u in urls ==>
      u in base + Batch(urls, network).value && Fetched((base + Batch(urls, network).value)[u]) == network(u)
  {
    BatchSpec(urls, network);
  }

  /** With every manifest URL reachable and storable, install stores all of them. */
  lemma InstallPopulatesManifest(s: seq<Entry>, network: Fetcher)
    requires forall u :: u in UrlsToCache ==> Storable(network(u))
    ensures Lookup(Installed(s, network), CACHE_NAME).Some?
    ensures forall u :: u in UrlsToCache ==>
      u in Lookup(Installed(s, network), CACHE_NAME).value &&
      Fetched(Lookup(Installed(s, network), CACHE_NAME).value[u]) == network(u)
  {
    ManifestWellFormed();
    StoredBatchHolds(CurrentBefore(s), UrlsToCache, network);
    InstallCurrentCache(s, network);
  }

  /** Install leaves every other generation as it was. */
  lemma {:induction false} InstallIsolation(s: seq<Entry>, network: Fetcher, name: CacheName)
    requires name != CACHE_NAME
    ensures Lookup(Installed(s, network), name) == Lookup(s, name)
  {
    var created := OpenOrCreate(s, CACHE_NAME);
    match Batch(UrlsToCache, network)
    case Some(m) => LookupStore(created, CACHE_NAME, m, name);
    case None =>
  }

  lemma {:induction false} WithoutAppend(s: seq<Entry>, e: Entry, gone: set<CacheName>)
    ensures Without(s + [e], gone) == Without(s, gone) + (if e.name in gone then [] else [e])
  {
    if s != [] {
      assert (s + [e])[1..] == s[1..] + [e];
      WithoutAppend(s[1..], e, gone);
    }
  }

  lemma {:induction false} WithoutStore(s: seq<Entry>, name: CacheName, m: Cache)
    ensures Without(Store(s, name, m), {name}) == Without(s, {name})
  {
    if s != [] && s[0].name != name {
      WithoutStore(s[1..], name, m);
    }
  }

  /**
   * Install touches no other generation, not even its position: with the
   * current cache set aside, the storage is exactly what it was.
   */
  lemma {:induction false} InstallKeepsOthers(s: seq<Entry>, network: Fetcher)
    ensures Without(Installed(s, network), {CACHE_NAME}) == Without(s, {CACHE_NAME})
  {
    var created := OpenOrCreate(s, CACHE_NAME);
    if !Has(s, CACHE_NAME) {
      WithoutAppend(s, Entry(CACHE_NAME, map[]), {CACHE_NAME});
    }
    match Batch(UrlsToCache, network)
    case Some(m) => WithoutStore(created, CACHE_NAME, m);
    case None =>
  }

  // --------------------------------------------------------------- activate

  /** The storage after the activate handler: only caches named CACHE_NAME remain, in order. */
  function Reaped(s: seq<Entry>): (r: seq<Entry>)
    ensures forall e :: e in r <==> e in s && e.name == CACHE_NAME
  {
    if s == [] then []
    else (if s[0].name == CACHE_NAME then [s[0]] else []) + Reaped(s[1..])
  }

  /** The names, in order, that the activate handler deletes. */
  function Obsolete(names: seq<CacheName>): (r: seq<CacheName>)
    ensures forall n :: n in r <==> n in names && n != CACHE_NAME
  {
    if names == [] then []
    else
      var init, last := names[..|names| - 1], names[|names| - 1];
      assert names == init + [last];
      Obsolete(init) + (if last != CACHE_NAME then [last] else [])
  }

  lemma ObsoleteExtend(names: seq<CacheName>, i: nat)
    requires i < |names|
    ensures Obsolete(names[..i + 1]) == Obsolete(names[..i]) + if names[i] != CACHE_NAME then [names[i]] else []
  {
    assert names[..i + 1][..i] == names[..i];
  }

  function Elems(names: seq<CacheName>): set<CacheName>
  {
    set n | n in names
  }

  lemma {:induction false} WithoutNothing(s: seq<Entry>)
    ensures Without(s, {}) == s
  {
    if s != [] {
      WithoutNothing(s[1..]);
    }
  }

  lemma {:induction false} WithoutTwice(s: seq<Entry>, a: set<CacheName>, b: set<CacheName>)
    ensures Without(Without(s, a), b) == Without(s, a + b)
  {
    if s != [] {
      WithoutTwice(s[1..], a, b);
    }
  }

  lemma DeleteOneMore(s: seq<Entry>, deleted: seq<CacheName>, name: CacheName)
    ensures Without(Without(s, Elems(deleted)), {name}) == Without(s, Elems(deleted + [name]))
  {
    WithoutTwice(s, Elems(deleted), {name});
    assert Elems(deleted + [name]) == Elems(deleted) + {name};
  }

  /** Deleting two caches gives the same storage in either order. */
  lemma DeletionOrderIrrelevant(s: seq<Entry>, a: CacheName, b: CacheName)
    ensures Without(Without(s, {a}), {b}) == Without(Without(s, {b}), {a})
  {
    WithoutTwice(s, {a}, {b});
    WithoutTwice(s, {b}, {a});
    assert {a} + {b} == {b} + {a};
  }

  lemma {:induction false} WithoutAllButCurrent(s: seq<Entry>, gone: set<CacheName>)
    requires forall i :: 0 <= i < |s| ==> (s[i].name in gone <==> s[i].name != CACHE_NAME)
    ensures Without(s, gone) == Reaped(s)
  {
    if s != [] {
      WithoutAllButCurrent(s[1..], gone);
    }
  }

  /** Deleting every obsolete name one by one leaves exactly the reaped storage. */
  lemma ReapedByDeletions(s: seq<Entry>)
    ensures Without(s, Elems(Obsolete(Names(s)))) == Reaped(s)
  {
    forall i | 0 <= i < |s|
      ensures s[i].name in Elems(Obsolete(Names(s))) <==> s[i].name != CACHE_NAME
    {
      assert Names(s)[i] == s[i].name;
    }
    WithoutAllButCurrent(s, Elems(Obsolete(Names(s))));
  }

  /**
   * The activate handler: lists the caches, deletes every one not named
   * CACHE_NAME, and only once all deletions are done claims the clients.
   * Returns the names it deleted.
   */
  method Activate(caches: CacheStorage, scope: WorkerScope) returns (deleted: seq<CacheName>)
    requires caches.Valid()
    modifies caches, scope
    ensures caches.Valid()
    ensures caches.entries == Reaped(old(caches.entries))
    ensures deleted == Obsolete(Names(old(caches.entries)))
    ensures scope.clientsClaimed && scope.cachesAtClaim == Names(caches.entries)
    ensures scope.waitingSkipped == old(scope.waitingSkipped)
  {
    ghost var before := caches.entries;
    var names := caches.Keys();
    deleted := [];
    WithoutNothing(before);
    assert Elems(deleted) == {};
    var i := 0;
    while i < |names|
      modifies caches
      invariant 0 <= i <= |names|
      invariant caches.Valid()
      invariant deleted == Obsolete(names[..i])
      invariant caches.entries == Without(before, Elems(deleted))
    {
      ObsoleteExtend(names, i);
      if names[i] != CACHE_NAME {
        var existed := caches.Delete(names[i]);
        DeleteOneMore(before, deleted, names[i]);
        deleted := deleted + [names[i]];
      }
      i := i + 1;
    }
    assert names[..i] == names;
    ReapedByDeletions(before);
    scope.ClaimClients(caches);
  }

  lemma {:induction false} ReapedWithoutCurrent(s: seq<Entry>)
    requires !Has(s, CACHE_NAME)
    ensures Reaped(s) == []
  {
    if s != [] {
      assert s[0].name != CACHE_NAME;
      ReapedWithoutCurrent(s[1..]);
    }
  }

  /** After activate, the current cache is the only one left, if it existed at all. */
  lemma {:induction false} ActivateLeavesOnlyCurrent(s: seq<Entry>)
    requires WellFormed(s)
    ensures Names(Reaped(s)) == if Has(s, CACHE_NAME) then [CACHE_NAME] else []
  {
    if s == [] {
    } else if s[0].name == CACHE_NAME {
      assert !Has(s[1..], CACHE_NAME);
      ReapedWithoutCurrent(s[1..]);
    } else {
      ActivateLeavesOnlyCurrent(s[1..]);
      assert Has(s, CACHE_NAME) == Has(s[1..], CACHE_NAME) by {
        if Has(s, CACHE_NAME) {
          var i :| 0 <= i < |s| && s[i].name == CACHE_NAME;
          assert s[1..][i - 1].name == CACHE_NAME;
        }
      }
    }
  }

  /** Activate keeps the current cache with its contents; every other name is gone. */
  lemma {:induction false} ActivateKeepsCurrent(s: seq<Entry>, name: CacheName)
    ensures Lookup(Reaped(s), name) == if name == CACHE_NAME then Lookup(s, name) else None
  {
    if s != [] {
      ActivateKeepsCurrent(s[1..], name);
    }
  }

  lemma {:induction false} ReapedAllCurrent(s: seq<Entry>)
    requires forall e :: e in s ==> e.name == CACHE_NAME
    ensures Reaped(s) == s
  {
    if s != [] {
      ReapedAllCurrent(s[1..]);
    }
  }

  lemma {:induction false} ObsoleteOfCurrent(names: seq<CacheName>)
    requires forall i :: 0 <= i < |names| ==> names[i] == CACHE_NAME
    ensures Obsolete(names) == []
  {
    if names != [] {
      ObsoleteOfCurrent(names[..|names| - 1]);
    }
  }

  /** A second activate with no install in between deletes nothing and changes nothing. */
  lemma {:induction false} ActivateIdempotent(s: seq<Entry>)
    ensures Reaped(Reaped(s)) == Reaped(s)
    ensures Obsolete(Names(Reaped(s))) == []
  {
    ReapedAllCurrent(Reaped(s));
    var ns := Names(Reaped(s));
    forall i | 0 <= i < |ns| ensures ns[i] == CACHE_NAME {
      assert Reaped(s)[i] in Reaped(s);
    }
    ObsoleteOfCurrent(ns);
  }

  // ------------------------------------------------------------------ fetch

  /** The answer given to `event.respondWith`. */
  datatype Reply = FromCache(response: Response) | FromNetwork(outcome: FetchOutcome)

  /**
   * The fetch handler, `caches.match(request)` then `response || fetch(request)`:
   * served from storage exactly when some cache (current or not) holds the
   * URL, with the response of the first such cache and no network call;
   * otherwise the network's outcome, success or failure, unchanged. It is a
   * function of the storage, so it writes nothing to any cache.
   */
  function Respond(s: seq<Entry>, url: Url, network: Fetcher): (r: Reply)
    ensures r.FromCache? <==> exists i :: 0 <= i < |s| && url in s[i].cache
    ensures r.FromCache? ==>
      exists i :: 0 <= i < |s| && url in s[i].cache && s[i].cache[url] == r.response &&
        forall j :: 0 <= j < i ==> url !in s[j].cache
    ensures r.FromNetwork? ==> r.outcome == network(url)
  {
    match MatchAll(s, url)
    case Some(response) => FromCache(response)
    case None => FromNetwork(network(url))
  }

  /** Once activated, requests are answered from the current cache or else from the network. */
  lemma {:induction false} RespondAfterActivate(s: seq<Entry>, url: Url, network: Fetcher)
    requires WellFormed(s)
    ensures Respond(Reaped(s), url, network) ==
      if Has(s, CACHE_NAME) && url in Lookup(s, CACHE_NAME).value
      then FromCache(Lookup(s, CACHE_NAME).value[url])
      else FromNetwork(network(url))
  {
    ActivateLeavesOnlyCurrent(s);
    ActivateKeepsCurrent(s, CACHE_NAME);
    var r := Reaped(s);
    if Has(s, CACHE_NAME) {
      assert |r| == 1 && r[0].name == CACHE_NAME;
      assert Lookup(r, CACHE_NAME) == Some(r[0].cache);
    } else {
      assert |Names(r)| == 0;
    }
  }

  /**
   * Before activation an older generation still answers: a URL held only by
   * a cache other than the current one is served from that cache.
   */
  lemma StaleGenerationAnswers(s: seq<Entry>, url: Url, network: Fetcher)
    requires exists i :: 0 <= i < |s| && url in s[i].cache
    requires forall i :: 0 <= i < |s| && s[i].name == CACHE_NAME ==> url !in s[i].cache
    ensures Respond(s, url, network).FromCache?
    ensures exists i :: 0 <= i < |s| && s[i].name != CACHE_NAME &&
                        url in s[i].cache && s[i].cache[url] == Respond(s, url, network).response
  {
  }

  /**
   * Installing a new generation does not change who answers a URL that an
   * older generation holds: the new cache is appended after the older ones,
   * so until activate the older generation keeps answering, even when the
   * manifest stored the same URL in the new cache.
   */
  lemma OlderGenerationAnswersFirst(s: seq<Entry>, url: Url, network: Fetcher, later: Fetcher)
    requires !Has(s, CACHE_NAME)
    requires exists i :: 0 <= i < |s| && url in s[i].cache
    ensures Respond(Installed(s, network), url, later) == Respond(s, url, later)
  {
    var e := Entry(CACHE_NAME, map[]);
    match Batch(UrlsToCache, network)
    case Some(m) =>
      StoreIntoLast(s, e, m);
      MatchAllAppend(s, Entry(CACHE_NAME, map[] + m), url);
    case None =>
      MatchAllAppend(s, e, url);
  }

  /** On a hit the network plays no part: any two networks give the same reply. */
  lemma HitIgnoresNetwork(s: seq<Entry>, url: Url, n1: Fetcher, n2: Fetcher)
    requires exists i :: 0 <= i < |s| && url in s[i].cache
    ensures Respond(s, url, n1) == Respond(s, url, n2)
    ensures Respond(s, url, n1).FromCache?
  {
  }

  /**
   * An upgrade from generation v26 while offline: install keeps v26 and adds
   * an empty v27; v26 still answers until activate, which leaves only v27,
   * after which the same request goes to the network.
   */
  lemma OfflineUpgrade(old26: Response)
    ensures
      var s := [Entry("quiz-cache-v26", map[BASE_PATH + "/index.html" := old26])];
      var offline := (u: Url) => NetworkError;
      var installed := Installed(s, offline);
      var url := BASE_PATH + "/index.html";
      Names(installed) == ["quiz-cache-v26", CACHE_NAME] &&
      Respond(installed, url, offline) == FromCache(old26) &&
      Names(Reaped(installed)) == [CACHE_NAME] &&
      Respond(Reaped(installed), url, offline) == FromNetwork(NetworkError)
  {
    var s := [Entry("quiz-cache-v26", map[BASE_PATH + "/index.html" := old26])];
    var offline := (u: Url) => NetworkError;
    var url := BASE_PATH + "/index.html";
    assert !Storable(offline(UrlsToCache[0]));
    assert !Has(s, CACHE_NAME);
    var installed := Installed(s, offline);
    assert installed == s + [Entry(CACHE_NAME, map[])];
    ActivateLeavesOnlyCurrent(installed);
    RespondAfterActivate(installed, url, offline);
  }
}
