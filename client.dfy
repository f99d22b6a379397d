/** The caching proxy: `Client::callApi` and `Client::ttl`. A GET is answered
    from the cache when a non-null value is stored under its key, and otherwise
    fetched once from the underlying API client and stored. Every other method
    first deletes the cached GETs of its path and of the ancestors the loop
    reaches, then is passed through uncached. */
module CachingClient {
  import opened CacheKey
  import opened CacheBackend
  import opened Invalidation

  /** What the underlying client's `callApi` yields: a value, or the
      `ApiException` it throws on a non-2xx response. */
  datatype Reply = Response(value: Value) | ApiException(code: int, message: string)

  /** The remote API: its reply to a request may depend on every request it was
      sent before, so a cached value can go stale. */
  type Remote = (seq<Request>, Request) -> Reply

  const DefaultCacheTtl := 600

  /** The generated API client the proxy wraps; only its `callApi` is used. */
  class ApiClient {
    const remote: Remote
    var history: seq<Request>

    constructor (remote: Remote)
      ensures this.remote == remote && history == []
    {
      this.remote := remote;
      history := [];
    }

    method CallApi(req: Request) returns (reply: Reply)
      modifies this
      ensures history == old(history) + [req]
      ensures reply == remote(old(history), req)
    {
      reply := remote(history, req);
      history := history + [req];
    }
  }

  class Client {
    const cache: Cache
    const api: ApiClient
    const digest: Digest
    const defaultTtl: int
    var tmpTtl: int
    var tmpTtlFlag: bool

    /** The backend keeps a TTL per entry. */
    ghost predicate Valid()
      reads this, cache
    {
      cache.Valid()
    }

    /** Field initialisation only; choosing a default backend is not modelled.
        The temporary-TTL flag starts false. */
    constructor (cache: Cache, api: ApiClient, digest: Digest, defaultTtl: int)
      requires cache.Valid()
      ensures Valid() && !tmpTtlFlag && WriteTtl() == defaultTtl
      ensures this.cache == cache && this.api == api && this.digest == digest
      ensures this.defaultTtl == defaultTtl
    {
      this.cache := cache;
      this.api := api;
      this.digest := digest;
      this.defaultTtl := defaultTtl;
      tmpTtl := 0;
      tmpTtlFlag := false;
    }

    /** The TTL the next cache write uses: the temporary one only while the flag
        is up, the default otherwise. */
    function WriteTtl(): (ttl: int)
      reads this
      ensures ttl == defaultTtl || ttl == tmpTtl
      ensures !tmpTtlFlag ==> ttl == defaultTtl
    {
      if tmpTtlFlag then tmpTtl else defaultTtl
    }

    /** What `get` returns for the key of `req`. */
    function Cached(req: Request): Value
      reads this, cache
    {
      Lookup(cache.entries, Key(req, digest))
    }

    /** `ttl()`: records the temporary TTL but leaves the flag false, so the next
        write still uses the default TTL. */
    method Ttl(ttl: int)
      modifies this
      ensures tmpTtl == ttl && !tmpTtlFlag
      ensures WriteTtl() == defaultTtl
    {
      tmpTtl := ttl;
      tmpTtlFlag := false;
    }

    method CallApi(req: Request) returns (reply: Reply)
      requires Valid()
      modifies this, cache, api
      ensures Valid() && tmpTtl == old(tmpTtl)
      // the temporary-TTL flag is never raised
      ensures tmpTtlFlag ==> old(tmpTtlFlag)
      // GET, hit: the cached value, no remote call, nothing changes
      ensures req.httpMethod == "GET" && old(Cached(req)) != Null ==>
                reply == Response(old(Cached(req))) && api.history == old(api.history) &&
                cache.entries == old(cache.entries) && cache.ttls == old(cache.ttls)
      // GET, miss: exactly one remote call, whose reply is returned
      ensures req.httpMethod == "GET" && old(Cached(req)) == Null ==>
                api.history == old(api.history) + [req] && reply == api.remote(old(api.history), req)
      // ... and stored under the key with the TTL chosen before the call; the flag is then down
      ensures req.httpMethod == "GET" && old(Cached(req)) == Null && reply.Response? ==>
                cache.entries == old(cache.entries)[Key(req, digest) := reply.value] &&
                cache.ttls == old(cache.ttls)[Key(req, digest) := old(WriteTtl())] &&
                !tmpTtlFlag
      // ... unless the call threw: then nothing is cached and the flag is as it was
      ensures req.httpMethod == "GET" && old(Cached(req)) == Null && reply.ApiException? ==>
                cache.entries == old(cache.entries) && cache.ttls == old(cache.ttls) &&
                tmpTtlFlag == old(tmpTtlFlag)
      // a hit and a non-GET call leave the flag alone
      ensures req.httpMethod != "GET" || old(Cached(req)) != Null ==> tmpTtlFlag == old(tmpTtlFlag)
      // not GET: the matching GET entries are deleted, then exactly one remote call
      ensures req.httpMethod != "GET" ==>
                api.history == old(api.history) + [req] && reply == api.remote(old(api.history), req) &&
                cache.entries == old(cache.entries) - Invalidated(old(cache.entries.Keys), req.resourcePath) &&
                cache.ttls == old(cache.ttls) - Invalidated(old(cache.entries.Keys), req.resourcePath)
    {
      var key := Key(req, digest);
      if req.httpMethod == "GET" {
        var cached := cache.Get(key);
        if cached != Null {
          return Response(cached);
        }
        reply := api.CallApi(req);
        if reply.ApiException? {
          return;
        }
        var ttl := if tmpTtlFlag then tmpTtl else defaultTtl;
        cache.Set(key, reply.value, ttl);
        if tmpTtlFlag {
          tmpTtlFlag := false;
        }
        return;
      }
      InvalidateReads(req.resourcePath);
      reply := api.CallApi(req);
    }

    /** The do-while loop of the non-GET branch: search, delete every match, pop
        the last segment, and go on while more than two segments remain. */
    method InvalidateReads(resourcePath: string)
      requires cache.Valid()
      modifies cache
      ensures cache.Valid()
      ensures cache.entries == old(cache.entries) - Invalidated(old(cache.entries.Keys), resourcePath)
      ensures cache.ttls == old(cache.ttls) - Invalidated(old(cache.entries.Keys), resourcePath)
    {
      var segments := Segments(resourcePath);
      ghost var all := segments;
      ghost var entries0, ttls0 := cache.entries, cache.ttls;
      ghost var keys0 := entries0.Keys;
      ghost var tried: seq<string> := [];
      var more := true;
      while more
        invariant cache.Valid()
        invariant more ==> |segments| >= 1 && tried + SearchKeys(segments) == SearchKeys(all)
        invariant !more ==> tried == SearchKeys(all)
        invariant cache.entries == entries0 - Doomed(keys0, tried)
        invariant cache.ttls == ttls0 - Doomed(keys0, tried)
        decreases |segments|
      {
        var searchKey := SearchKey(segments);
        var matches := cache.Search(searchKey);
        DeleteMatches(matches);
        RemoveNextMatches(entries0, keys0, tried, searchKey, matches);
        RemoveNextMatches(ttls0, keys0, tried, searchKey, matches);
        SearchKeysAdvance(tried, segments, all);
        segments := segments[..|segments| - 1];
        more := |segments| > Floor;
        tried := tried + [searchKey];
      }
    }

    /** The inner `foreach`: delete every key the search returned. */
    method DeleteMatches(matches: set<string>)
      requires cache.Valid()
      modifies cache
      ensures cache.Valid()
      ensures cache.entries == old(cache.entries) - matches && cache.ttls == old(cache.ttls) - matches
    {
      var pending := matches;
      while pending != {}
        invariant cache.Valid()
        invariant pending <= matches
        invariant cache.entries == old(cache.entries) - (matches - pending)
        invariant cache.ttls == old(cache.ttls) - (matches - pending)
        decreases pending
      {
        var k :| k in pending;
        var deleted := cache.Delete(k);
        pending := pending - {k};
      }
    }
  }

  /** A read of a resource (say `/products/123`) is fetched once and then served
      from the cache with the default TTL, even though a temporary TTL was asked
      for. */
  method ReadThroughScenario(remote: Remote, digest: Digest, path: string)
  {
    var cache := new Cache();
    var api := new ApiClient(remote);
    var client := new Client(cache, api, digest, DefaultCacheTtl);
    var get := Request(path, "GET", [], [], [], None);
    client.Ttl(30);
    var first := client.CallApi(get);
    assert api.history == [get] && first == remote([], get);
    if first.Response? && first.value != Null {
      assert cache.ttls[Key(get, digest)] == DefaultCacheTtl;
      var second := client.CallApi(get);
      assert second == first && api.history == [get];
    }
  }

  /** A PUT on the path of a cached read removes that read, so the next read of
      the path goes to the remote API again and sees the PUT. */
  method WriteThenReadScenario(client: Client, get: Request)
    requires client.Valid() && get.httpMethod == "GET"
    requires Key(get, client.digest) in client.cache.entries
    modifies client, client.cache, client.api
  {
    var api := client.api;
    var put := Request(get.resourcePath, "PUT", [], [Param("name", "x")], [], None);
    ReadsBelowWriteInvalidated(client.cache.entries.Keys, put.resourcePath, get, client.digest);
    var before := api.history;
    var third := client.CallApi(put);
    assert Key(get, client.digest) !in client.cache.entries;
    var fourth := client.CallApi(get);
    assert api.history == before + [put, get];
    assert fourth == api.remote(before + [put], get);
  }
}
