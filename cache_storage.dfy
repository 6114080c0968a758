/**
 * The browser's CacheStorage (`self.caches`) as the service worker uses it:
 * an ordered map from cache name to a cache, each cache a map from request
 * URL to stored response. New caches are appended at the end, so the order
 * is creation order; `caches.match` searches the caches in that order.
 */
module CacheStore {

  import opened Wrappers
  import opened Network

  type CacheName = string

  /** One cache: request URL to stored response. */
  type Cache = map<Url, Response>

  /** One named cache in the storage. */
  datatype Entry = Entry(name: CacheName, cache: Cache)

  /** The cache names in storage order (what `caches.keys()` resolves to). */
  function Names(s: seq<Entry>): seq<CacheName>
  {
    seq(|s|, i requires 0 <= i < |s| => s[i].name)
  }

  /** Some cache in `s` is called `name`. */
  predicate Has(s: seq<Entry>, name: CacheName)
  {
    exists i :: 0 <= i < |s| && s[i].name == name
  }

  /** No two caches share a name: the storage is a map. */
  predicate WellFormed(s: seq<Entry>)
  {
    forall i, j :: 0 <= i < j < |s| ==> s[i].name != s[j].name
  }

  /** The cache called `name`, if there is one. */
  function Lookup(s: seq<Entry>, name: CacheName): (r: Option<Cache>)
    ensures r.Some? <==> Has(s, name)
    ensures r.Some? ==>
      exists i :: 0 <= i < |s| && s[i] == Entry(name, r.value) &&
        forall j :: 0 <= j < i ==> s[j].name != name
  {
    if s == [] then None
    else if s[0].name == name then Some(s[0].cache)
    else
      var r := Lookup(s[1..], name);
      if r.Some? then
        var i :| 0 < i + 1 <= |s[1..]| && s[1..][i] == Entry(name, r.value) &&
          forall j :: 0 <= j < i ==> s[1..][j].name != name;
        assert s[i + 1] == Entry(name, r.value);
        r
      else r
  }

  lemma {:induction false} LookupAppend(s: seq<Entry>, e: Entry, name: CacheName)
    ensures Lookup(s + [e], name) ==
      if Has(s, name) then Lookup(s, name)
      else if e.name == name then Some(e.cache)
      else None
  {
    if s != [] {
      assert (s + [e])[1..] == s[1..] + [e];
      LookupAppend(s[1..], e, name);
    }
  }

  /**
   * `caches.open(name)`: the storage after opening the cache `name`, which
   * is created empty, at the end, when it does not exist yet.
   */
  function OpenOrCreate(s: seq<Entry>, name: CacheName): (r: seq<Entry>)
    ensures Lookup(r, name) == if Has(s, name) then Lookup(s, name) else Some(map[])
    ensures forall n :: n != name ==> Lookup(r, n) == Lookup(s, n)
    ensures WellFormed(s) ==> WellFormed(r)
    ensures Has(s, name) ==> r == s
    ensures !Has(s, name) ==> r == s + [Entry(name, map[])]
  {
    if Has(s, name) then s
    else
      var r := s + [Entry(name, map[])];
      LookupAppend(s, Entry(name, map[]), name);
      forall n | n != name ensures Lookup(r, n) == Lookup(s, n) {
        LookupAppend(s, Entry(name, map[]), n);
      }
      r
  }

  /**
   * The storage without the caches whose names are in `gone`; the other
   * caches keep their contents and their order. `caches.delete(n)` is
   * `Without(s, {n})`.
   */
  function Without(s: seq<Entry>, gone: set<CacheName>): (r: seq<Entry>)
    ensures forall e :: e in r <==> e in s && e.name !in gone
  {
    if s == [] then []
    else if s[0].name in gone then Without(s[1..], gone)
    else [s[0]] + Without(s[1..], gone)
  }

  lemma {:induction false} LookupWithout(s: seq<Entry>, gone: set<CacheName>, name: CacheName)
    ensures Lookup(Without(s, gone), name) == if name in gone then None else Lookup(s, name)
  {
    if s != [] {
      LookupWithout(s[1..], gone, name);
    }
  }

  lemma {:induction false} WithoutWellFormed(s: seq<Entry>, gone: set<CacheName>)
    requires WellFormed(s)
    ensures WellFormed(Without(s, gone))
  {
    if s != [] {
      var rest := Without(s[1..], gone);
      WithoutWellFormed(s[1..], gone);
      if s[0].name !in gone {
        forall j | 0 <= j < |rest| ensures rest[j].name != s[0].name {
          assert rest[j] in s[1..];
          var k :| 0 <= k < |s[1..]| && s[1..][k] == rest[j];
          assert s[k + 1] == rest[j];
        }
      }
    }
  }

  /**
   * The storage after writing the batch `m` into the cache `name`: that
   * cache becomes its old contents overridden by `m`; nothing else changes.
   */
  function Store(s: seq<Entry>, name: CacheName, m: Cache): (r: seq<Entry>)
    ensures |r| == |s| && forall i :: 0 <= i < |s| ==> r[i].name == s[i].name
  {
    if s == [] then []
    else if s[0].name == name then [Entry(name, s[0].cache + m)] + s[1..]
    else [s[0]] + Store(s[1..], name, m)
  }

  lemma {:induction false} LookupStore(s: seq<Entry>, name: CacheName, m: Cache, n: CacheName)
    ensures Lookup(Store(s, name, m), n) ==
      if n != name then Lookup(s, n)
      else if Has(s, name) then Some(Lookup(s, name).value + m)
      else None
  {
    if s != [] && s[0].name != name {
      LookupStore(s[1..], name, m, n);
    }
  }

  /**
   * `caches.match(url)` (section 5.5.1 of the W3C Service Workers
   * specification): the response stored for `url` in the first cache, in
   * storage order, that holds one; every cache is searched, not only the
   * current one.
   */
  function MatchAll(s: seq<Entry>, url: Url): (r: Option<Response>)
    ensures r.None? <==> forall i :: 0 <= i < |s| ==> url !in s[i].cache
    ensures r.Some? ==>
      exists i :: 0 <= i < |s| && url in s[i].cache && s[i].cache[url] == r.value &&
        forall j :: 0 <= j < i ==> url !in s[j].cache
  {
    if s == [] then None
    else if url in s[0].cache then Some(s[0].cache[url])
    else
      var r := MatchAll(s[1..], url);
      if r.Some? then
        var i :| 0 <= i < |s[1..]| && url in s[1..][i].cache && s[1..][i].cache[url] == r.value &&
          forall j :: 0 <= j < i ==> url !in s[1..][j].cache;
        assert url in s[i + 1].cache;
        r
      else
        assert forall i :: 1 <= i < |s| ==> s[i] == s[1..][i - 1];
        r
  }

  /** A cache appended after the others answers only the URLs none of them holds. */
  lemma {:induction false} MatchAllAppend(s: seq<Entry>, e: Entry, url: Url)
    ensures MatchAll(s + [e], url) ==
      if MatchAll(s, url).Some? then MatchAll(s, url)
      else if url in e.cache then Some(e.cache[url])
      else None
  {
    if s != [] {
      assert (s + [e])[1..] == s[1..] + [e];
      MatchAllAppend(s[1..], e, url);
    }
  }

  /** Storing into a cache that was just appended changes only that last cache. */
  lemma {:induction false} StoreIntoLast(s: seq<Entry>, e: Entry, m: Cache)
    requires !Has(s, e.name)
    ensures Store(s + [e], e.name, m) == s + [Entry(e.name, e.cache + m)]
  {
    if s != [] {
      assert s[0].name != e.name;
      assert (s + [e])[1..] == s[1..] + [e];
      forall i | 0 <= i < |s[1..]| ensures s[1..][i].name != e.name {
        assert s[1..][i] == s[i + 1];
      }
      StoreIntoLast(s[1..], e, m);
    }
  }

  /**
   * The outcome of `cache.addAll(urls)` (section 5.4.4 of the W3C Service
   * Workers specification), which is all or nothing: the batch of
   * URL-to-response pairs to store, or None when the call rejects because
   * some fetch failed, some response may not be stored, or a URL occurs
   * twice (two requests of one batch matching each other).
   */
  function Batch(urls: seq<Url>, network: Fetcher): Option<Cache>
    decreases |urls|
  {
    if urls == [] then Some(map[])
    else AddToBatch(Batch(urls[..|urls| - 1], network), urls[|urls| - 1], network(urls[|urls| - 1]))
  }

  /**
   * `addAll` accepts exactly when the URLs are distinct and every outcome
   * may be stored; its batch then maps exactly those URLs to their fetched
   * responses.
   */
  lemma {:induction false} BatchSpec(urls: seq<Url>, network: Fetcher)
    ensures Batch(urls, network).Some? <==>
      Distinct(urls) && forall i :: 0 <= i < |urls| ==> Storable(network(urls[i]))
    ensures Batch(urls, network).Some? ==> Batch(urls, network).value.Keys == set u | u in urls
    ensures Batch(urls, network).Some? ==>
      forall u :: u in Batch(urls, network).value ==> Fetched(Batch(urls, network).value[u]) == network(u)
    decreases |urls|
  {
    if urls != [] {
      var init, last := urls[..|urls| - 1], urls[|urls| - 1];
      assert urls == init + [last];
      BatchSpec(init, network);
      match Batch(init, network)
      case None =>
        assert !Distinct(init) || exists i :: 0 <= i < |init| && !Storable(network(init[i]));
      case Some(m) =>
        if !Storable(network(last)) {
        } else if last in m {
          var k :| 0 <= k < |init| && init[k] == last;
        } else {
          assert Batch(urls, network).value.Keys == set u | u in urls;
        }
    }
  }

  /** One step of `addAll`'s collection: adds the outcome for `url` to the pending batch. */
  function AddToBatch(pending: Option<Cache>, url: Url, outcome: FetchOutcome): Option<Cache>
  {
    match pending
    case None => None
    case Some(m) =>
      if !Storable(outcome) || url in m then None
      else Some(m[url := outcome.response])
  }

  lemma BatchExtend(urls: seq<Url>, i: nat, network: Fetcher)
    requires i < |urls|
    ensures Batch(urls[..i + 1], network) == AddToBatch(Batch(urls[..i], network), urls[i], network(urls[i]))
  {
    assert urls[..i + 1][..i] == urls[..i];
  }

  /**
   * The fetching half of `cache.addAll(urls)`: fetches every URL in turn
   * and collects the batch, which is None as soon as one response cannot
   * be stored or one URL repeats. It touches only the network, not the
   * storage, so it is a module-level method rather than a `CacheStorage` one.
   */
  method FetchBatch(urls: seq<Url>, network: Fetcher) returns (pending: Option<Cache>)
    ensures pending == Batch(urls, network)
  {
    pending := Some(map[]);
    var i := 0;
    while i < |urls|
      invariant 0 <= i <= |urls|
      invariant pending == Batch(urls[..i], network)
    {
      var outcome := network(urls[i]);
      BatchExtend(urls, i, network);
      ghost var expected := AddToBatch(pending, urls[i], outcome);
      if pending.Some? {
        if !Storable(outcome) || urls[i] in pending.value {
          pending := None;
        } else {
          pending := Some(pending.value[urls[i] := outcome.response]);
        }
      }
      assert pending == expected;
      i := i + 1;
    }
    assert urls[..i] == urls;
  }

  /**
   * The CacheStorage object. Its contents are the ordered sequence of named
   * caches; the methods are the primitives the service worker calls.
   */
  class CacheStorage {

    var entries: seq<Entry>

    ghost predicate Valid()
      reads this
    {
      WellFormed(entries)
    }

    constructor (initial: seq<Entry>)
      requires WellFormed(initial)
      ensures Valid() && entries == initial
    {
      entries := initial;
    }

    /** `caches.keys()`: every cache name, in storage order, each once. */
    method Keys() returns (names: seq<CacheName>)
      requires Valid()
      ensures names == Names(entries)
      ensures Distinct(names)
    {
      names := Names(entries);
    }

    /** `caches.open(name)`: opens the cache `name`, creating it if absent. */
    method Open(name: CacheName)
      requires Valid()
      modifies this
      ensures Valid()
      ensures entries == OpenOrCreate(old(entries), name)
    {
      if !Has(entries, name) {
        entries := entries + [Entry(name, map[])];
      }
    }

    /** `caches.delete(name)`: removes the cache `name`; true when it existed. */
    method Delete(name: CacheName) returns (existed: bool)
      requires Valid()
      modifies this
      ensures Valid()
      ensures existed == Has(old(entries), name)
      ensures entries == Without(old(entries), {name})
    {
      existed := Has(entries, name);
      WithoutWellFormed(entries, {name});
      entries := Without(entries, {name});
    }

    /**
     * `cache.addAll(urls)` on the open cache `name`: fetches every URL and,
     * only when all of them can be stored, writes the whole batch at once.
     * On rejection the storage is left as it was.
     */
    method AddAll(name: CacheName, urls: seq<Url>, network: Fetcher) returns (ok: bool)
      requires Valid() && Has(entries, name)
      modifies this
      ensures Valid()
      ensures ok == Batch(urls, network).Some?
      ensures entries == if ok then Store(old(entries), name, Batch(urls, network).value) else old(entries)
    {
      var pending := FetchBatch(urls, network);
      ok := pending.Some?;
      if ok {
        var stored := Store(entries, name, pending.value);
        assert WellFormed(stored) by {
          assert forall i :: 0 <= i < |stored| ==> stored[i].name == entries[i].name;
        }
        entries := stored;
      }
    }
  }
}
