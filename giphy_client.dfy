/**
 * The stateful side of src/api/giphy.ts: the module-level memory cache, the
 * session store, the clock, and the network, with the four operations that
 * use them. Each method is proved against the pure functions of the
 * GiphyRequest, GiphyCache, GiphySearch and GiphyBatch modules.
 */
module GiphyClient {
  import opened Wrappers
  import opened GiphyTypes
  import opened GiphyMapper
  import opened GiphyCache
  import opened GiphyRequest
  import opened GiphySearch
  import opened GiphyBatch

  /** What `getGifById` makes of the details response: its one record, or a TypeError for a list. */
  function DetailsOf(res: Result<ResponseBody, Error>): (r: Result<Gif, Error>)
    ensures res.Err? ==> r == Err(res.error)
    ensures res.Ok? ==> (r.Ok? <==> res.value.data.Single?)
    ensures res.Ok? && r.Err? ==> r.error == TypeError
    ensures r.Ok? ==> r.value == MapGiphyGifToGif(res.value.data.gif)
  {
    match res
    case Err(e) => Err(e)
    case Ok(body) => match FetchedGifs(body, true) {
      case Ok(gs) => Ok(gs[0])
      case Err(e) => Err(e)
    }
  }

  /**
   * What `searchGifs` makes of the search response: the request's error, a
   * TypeError for a body without a list or without paging, and otherwise the
   * page of the mapped records.
   */
  function PageOf(res: Result<ResponseBody, Error>): (r: Result<SearchResult, Error>)
    ensures res.Err? ==> r == Err(res.error)
    ensures res.Ok? ==> (r.Ok? <==> res.value.data.List? && res.value.pagination.Some?)
    ensures res.Ok? && r.Err? ==> r.error == TypeError
    ensures r.Ok? ==>
      var pg := res.value.pagination.value;
      && r.value.gifs == MapAll(res.value.data.gifs)
      && r.value.totalCount == pg.total_count
      && r.value.nextOffset == pg.offset + pg.count
      && (r.value.hasMore <==> pg.offset + pg.count < pg.total_count)
  {
    match res
    case Err(e) => Err(e)
    case Ok(body) => SearchResultOf(body)
  }

  class CatalogClient {
    /** `import.meta.env.VITE_GIPHY_API_KEY`. */
    const apiKey: Option<string>
    /** `fetch`: the outcome of the n-th request overall. */
    const transport: Transport
    /** `MEMORY`. */
    var memory: Memory
    /** `sessionStorage`, restricted to the cache's keys. */
    var session: Session
    /** Whether `sessionStorage.setItem` succeeds; when it throws, the write is skipped. */
    var sessionWritable: bool
    /** `Date.now()`. */
    var now: int
    /** Every request sent, in order. */
    var requests: seq<Request>
    /** Every backoff wait slept, in order. */
    var waits: seq<nat>

    /** Both cache tiers hold each record under its own key. */
    predicate Valid()
      reads this
    {
      MemoryConsistent(memory) && SessionConsistent(session)
    }

    /** The cache lookup `getFromMemory(key) ?? getFromSession(key)` for one id. */
    function Cached(id: string): Option<Gif>
      reads this
    {
      Lookup(memory, session, CacheKey(id), now)
    }

    /**
     * A fresh page: the memory tier starts empty; the session store survives
     * from earlier pages, which may have left a record under another id's key.
     */
    constructor(apiKey: Option<string>, transport: Transport, session: Session, sessionWritable: bool, now: int)
      ensures SessionConsistent(session) ==> Valid()
      ensures this.apiKey == apiKey && this.transport == transport
      ensures this.memory == map[] && this.session == session && this.sessionWritable == sessionWritable
      ensures this.now == now && this.requests == [] && this.waits == []
    {
      this.apiKey := apiKey;
      this.transport := transport;
      this.memory := map[];
      this.session := session;
      this.sessionWritable := sessionWritable;
      this.now := now;
      this.requests := [];
      this.waits := [];
    }

    /**
     * `makeApiRequest`: the request is built once and sent until an outcome
     * decides the call; the requests sent and waits slept are exactly those of
     * `Execute`, and the caches and the clock are left alone.
     */
    method MakeApiRequest(path: string, params: seq<(string, ParamValue)>) returns (r: Result<ResponseBody, Error>)
      modifies this
      ensures var e := old(Execute(apiKey, transport, |requests|, path, params));
        && r == e.result
        && requests == old(requests) + e.issued
        && waits == old(waits) + e.waits
      ensures memory == old(memory) && session == old(session)
      ensures sessionWritable == old(sessionWritable) && now == old(now)
    {
      if apiKey.None? || apiKey.value == "" {
        return Err(MissingApiKey);
      }
      var req := BuildRequest(path, params, apiKey.value);
      r := SendWithRetries(req);
    }

    /**
     * The attempt loop of `makeApiRequest`: the same request is sent until an
     * outcome decides the call, with the waits of `Run` between the sends.
     */
    method SendWithRetries(req: Request) returns (r: Result<ResponseBody, Error>)
      modifies this
      ensures var e := old(Run(transport, |requests|, req, 0));
        && r == e.result
        && requests == old(requests) + e.issued
        && waits == old(waits) + e.waits
      ensures memory == old(memory) && session == old(session)
      ensures sessionWritable == old(sessionWritable) && now == old(now)
    {
      ghost var whole := Run(transport, |requests|, req, 0);
      var attempt: nat := 0;
      while true
        invariant attempt < MaxAttempts
        invariant whole.result == Run(transport, |requests|, req, attempt).result
        invariant old(requests) + whole.issued == requests + Run(transport, |requests|, req, attempt).issued
        invariant old(waits) + whole.waits == waits + Run(transport, |requests|, req, attempt).waits
        invariant memory == old(memory) && session == old(session)
        invariant sessionWritable == old(sessionWritable) && now == old(now)
        decreases MaxAttempts - attempt
      {
        ghost var n, before, waited := |requests|, requests, waits;
        var outcome := transport(|requests|, req);
        requests := requests + [req];
        var step := Classify(outcome, attempt);
        if step.Finish? {
          RunFinish(transport, n, req, attempt);
          return step.result;
        }
        RunAdvance(transport, n, req, attempt, before, waited);
        attempt := attempt + 1;
        waits := waits + [BackoffDelay(attempt)];
      }
    }

    /** `setCache`: the memory tier always takes the entry, stamped now; the session store only when it accepts writes. */
    method SetCache(key: string, value: Gif)
      modifies this
      ensures memory == old(memory)[key := CacheEntry(value, now)]
      ensures session == if sessionWritable then old(session)[key := Stored(CacheEntry(value, now))] else old(session)
      ensures sessionWritable == old(sessionWritable) && now == old(now)
      ensures requests == old(requests) && waits == old(waits)
      ensures old(Valid()) && key == CacheKey(value.id) ==> Valid()
      ensures Lookup(memory, session, key, now) == Some(value)
    {
      var entry := CacheEntry(value, now);
      memory := memory[key := entry];
      if sessionWritable {
        session := session[key := Stored(entry)];
      }
    }

    /** `fetched.forEach(g => setCache(cacheKey(g.id), g))`. */
    method CacheAll(gifs: seq<Gif>)
      modifies this
      ensures memory == old(memory) + Stamp(gifs, now)
      ensures session == if sessionWritable then old(session) + ToSession(Stamp(gifs, now)) else old(session)
      ensures sessionWritable == old(sessionWritable) && now == old(now)
      ensures requests == old(requests) && waits == old(waits)
      ensures old(Valid()) ==> Valid()
    {
      var i := 0;
      while i < |gifs|
        invariant 0 <= i <= |gifs|
        invariant memory == old(memory) + Stamp(gifs[..i], now)
        invariant session == if sessionWritable then old(session) + ToSession(Stamp(gifs[..i], now)) else old(session)
        invariant sessionWritable == old(sessionWritable) && now == old(now)
        invariant requests == old(requests) && waits == old(waits)
        invariant old(Valid()) ==> Valid()
      {
        var g := gifs[i];
        StampSnoc(gifs, i, now);
        UnionUpdate(old(memory), Stamp(gifs[..i], now), CacheKey(g.id), CacheEntry(g, now));
        ToSessionUpdate(old(session), Stamp(gifs[..i], now), CacheKey(g.id), CacheEntry(g, now));
        SetCache(CacheKey(g.id), g);
        i := i + 1;
      }
      assert gifs[..i] == gifs;
    }

    /** `getFromMemory(key) ?? getFromSession(key)` for every id: the cached records and the ids left to fetch, both in id order. */
    method SplitByCache(unique: seq<string>) returns (fromCache: seq<Gif>, toFetch: seq<string>)
      ensures fromCache == Hits(memory, session, now, unique)
      ensures toFetch == Misses(memory, session, now, unique)
    {
      var m, s, n := memory, session, now;
      fromCache, toFetch := [], [];
      var i := 0;
      while i < |unique|
        invariant 0 <= i <= |unique|
        invariant fromCache == Hits(m, s, n, unique[..i])
        invariant toFetch == Misses(m, s, n, unique[..i])
      {
        var id := unique[i];
        SplitStep(m, s, n, unique, i);
        var hit := Lookup(m, s, CacheKey(id), n);
        if hit.Some? {
          fromCache := fromCache + [hit.value];
        } else {
          toFetch := toFetch + [id];
        }
        i := i + 1;
      }
      assert unique[..i] == unique;
    }

    /** `searchGifs`: one search call; the page of its response; the caches are left alone. */
    method SearchGifs(p: SearchParams) returns (r: Result<SearchResult, Error>)
      modifies this
      ensures var e := old(Execute(apiKey, transport, |requests|, "/search", SearchParamsList(p)));
        && r == PageOf(e.result)
        && requests == old(requests) + e.issued
        && waits == old(waits) + e.waits
      ensures memory == old(memory) && session == old(session)
      ensures sessionWritable == old(sessionWritable) && now == old(now)
    {
      var resp := MakeApiRequest("/search", SearchParamsList(p));
      r := PageOf(resp);
    }

    /**
     * `getGifById`: a cached record is returned without a request; otherwise
     * the details call is made, and a record it yields is cached, so that it
     * is a hit for the next ten minutes.
     */
    method GetGifById(id: string) returns (r: Result<Gif, Error>)
      modifies this
      ensures old(Cached(id)).Some? ==>
        && r == Ok(old(Cached(id)).value)
        && memory == old(memory) && session == old(session)
        && requests == old(requests) && waits == old(waits)
      ensures old(Cached(id)).None? ==>
        var e := old(Execute(apiKey, transport, |requests|, "/" + id, []));
        && r == DetailsOf(e.result)
        && requests == old(requests) + e.issued
        && waits == old(waits) + e.waits
        && memory == (if r.Ok? then old(memory)[CacheKey(id) := CacheEntry(r.value, old(now))] else old(memory))
        && session == (if r.Ok? && sessionWritable then old(session)[CacheKey(id) := Stored(CacheEntry(r.value, old(now)))] else old(session))
      ensures sessionWritable == old(sessionWritable) && now == old(now)
      ensures r.Ok? ==> Cached(id) == Some(r.value)
      ensures old(Valid()) && (r.Ok? ==> r.value.id == id) ==> Valid()
    {
      var key := CacheKey(id);
      var cached := Lookup(memory, session, key, now);
      if cached.Some? {
        return Ok(cached.value);
      }
      var resp := MakeApiRequest("/" + id, []);
      r := DetailsOf(resp);
      if r.Ok? {
        SetCache(key, r.value);
      }
    }

    /**
     * `getGifsByIds`: the distinct ids are split into cached records and ids to
     * fetch; the missing ones are fetched with one call and cached; the
     * combined records are sorted into the order of the requested ids.
     */
    method GetGifsByIds(ids: seq<string>) returns (r: Result<seq<Gif>, Error>)
      modifies this
      ensures var unique := Dedup(ids);
        var hits := old(Hits(memory, session, now, unique));
        var misses := old(Misses(memory, session, now, unique));
        && (misses == [] ==>
              && r == Ok(SortByRank(hits, unique))
              && memory == old(memory) && session == old(session)
              && requests == old(requests) && waits == old(waits))
        && (misses != [] ==>
              var e := old(Execute(apiKey, transport, |requests|, MissPath(misses), MissParams(misses)));
              var f := FetchedFor(misses, e.result);
              && requests == old(requests) + e.issued
              && waits == old(waits) + e.waits
              && r == Combined(hits, unique, f)
              && memory == old(memory) + Stamp(Written(f), old(now))
              && session == (if sessionWritable then old(session) + ToSession(Stamp(Written(f), old(now))) else old(session)))
      ensures sessionWritable == old(sessionWritable) && now == old(now)
      ensures old(Valid()) ==> Valid()
    {
      var unique := Dedup(ids);
      if |unique| == 0 {
        return Ok([]);
      }
      var fromCache, toFetch := SplitByCache(unique);
      if |toFetch| == 0 {
        return Ok(SortByRank(fromCache, unique));
      }
      var resp := MakeApiRequest(MissPath(toFetch), MissParams(toFetch));
      var f := FetchedFor(toFetch, resp);
      CacheAll(Written(f));
      r := Combined(fromCache, unique, f);
    }
  }

  /**
   * The records the call for the misses yields: its error; for one miss the
   * single mapped record of the details body; for several the mapped list of
   * the batch body; a TypeError for the other shape.
   */
  function FetchedFor(misses: seq<string>, res: Result<ResponseBody, Error>): (r: Result<seq<Gif>, Error>)
    ensures res.Err? ==> r == Err(res.error)
    ensures res.Ok? ==> (r.Ok? <==> res.value.data.Single? == (|misses| == 1))
    ensures res.Ok? && r.Err? ==> r.error == TypeError
    ensures r.Ok? && |misses| == 1 ==> r.value == [MapGiphyGifToGif(res.value.data.gif)]
    ensures r.Ok? && |misses| != 1 ==> r.value == MapAll(res.value.data.gifs)
  {
    match res
    case Err(e) => Err(e)
    case Ok(body) => FetchedGifs(body, |misses| == 1)
  }

  /** The records written to the cache: the fetched ones, none after an error. */
  function Written(f: Result<seq<Gif>, Error>): seq<Gif> {
    if f.Ok? then f.value else []
  }

  /** `[...fromCache, ...fetched]` sorted by position among the requested ids, or the error of the fetch. */
  function Combined(hits: seq<Gif>, unique: seq<string>, f: Result<seq<Gif>, Error>): (r: Result<seq<Gif>, Error>)
    ensures f.Err? ==> r == Err(f.error)
    ensures f.Ok? ==> r.Ok? && multiset(r.value) == multiset(hits) + multiset(f.value) && SortedByRank(r.value, unique)
  {
    match f
    case Err(e) => Err(e)
    case Ok(fetched) =>
      SortByRankSorted(hits + fetched, unique);
      Ok(SortByRank(hits + fetched, unique))
  }
}
