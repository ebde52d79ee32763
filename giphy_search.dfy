/**
 * The value-level pieces of `searchGifs` (src/api/giphy.ts): the parameters
 * of the search request, with their defaults, and the page the response
 * becomes.
 */
module GiphySearch {
  import opened Wrappers
  import opened Strings
  import opened GiphyTypes
  import opened GiphyMapper
  import opened GiphyRequest

  const DefaultLimit: int := 24
  const DefaultOffset: int := 0
  const DefaultRating: string := "g"
  const DefaultLang: string := "en"

  /** The parameters of the search call, a missing argument taking its default. */
  function SearchParamsList(p: SearchParams): seq<(string, ParamValue)> {
    [ ("q", Str(p.query)),
      ("limit", Num(p.limit.GetOr(DefaultLimit))),
      ("offset", Num(p.offset.GetOr(DefaultOffset))),
      ("rating", Str(p.rating.GetOr(DefaultRating))),
      ("lang", Str(p.lang.GetOr(DefaultLang))) ]
  }

  /**
   * The search request goes to the search endpoint and carries the query, the
   * limit (24 unless given), the offset (0 unless given), the rating ("g"
   * unless given), the language ("en" unless given) and the key.
   */
  lemma SearchRequest(p: SearchParams, apiKey: string)
    ensures var r := BuildRequest("/search", SearchParamsList(p), apiKey);
      && r.url == BaseUrl + "/search"
      && Get(r.query, "q") == Some(p.query)
      && Get(r.query, "limit") == Some(IntToString(if p.limit.Some? then p.limit.value else 24))
      && Get(r.query, "offset") == Some(IntToString(if p.offset.Some? then p.offset.value else 0))
      && Get(r.query, "rating") == Some(if p.rating.Some? then p.rating.value else "g")
      && Get(r.query, "lang") == Some(if p.lang.Some? then p.lang.value else "en")
      && Get(r.query, "api_key") == Some(apiKey)
  {
    var ps := SearchParamsList(p);
    assert "/search"[..4][0] != "http"[0];
    QueryOfSpec(ps, apiKey, "q");
    QueryOfSpec(ps, apiKey, "limit");
    QueryOfSpec(ps, apiKey, "offset");
    QueryOfSpec(ps, apiKey, "rating");
    QueryOfSpec(ps, apiKey, "lang");
    ParamForAt(ps, "q", 0);
    ParamForAt(ps, "limit", 1);
    ParamForAt(ps, "offset", 2);
    ParamForAt(ps, "rating", 3);
    ParamForAt(ps, "lang", 4);
  }

  /** The page a search response becomes; a body without a list or without paging is a TypeError. */
  function SearchResultOf(body: ResponseBody): (r: Result<SearchResult, Error>)
    ensures r.Ok? <==> body.data.List? && body.pagination.Some?
    ensures r.Err? ==> r.error == TypeError
  {
    match (body.data, body.pagination)
    case (List(gs), Some(pg)) =>
      var next := pg.offset + pg.count;
      Ok(SearchResult(MapAll(gs), pg.total_count, next < pg.total_count, next))
    case _ => Err(TypeError)
  }

  /**
   * A page lists the mapped records in provider order, reports the provider's
   * total, continues at offset + count, and has more exactly when that
   * continuation lies below the total.
   */
  lemma SearchPage(gs: seq<GiphyGif>, pg: Pagination, meta: Option<Meta>)
    ensures var r := SearchResultOf(ResponseBody(List(gs), Some(pg), meta));
      && r.Ok?
      && |r.value.gifs| == |gs|
      && (forall k :: 0 <= k < |gs| ==> r.value.gifs[k] == MapGiphyGifToGif(gs[k]))
      && r.value.totalCount == pg.total_count
      && r.value.nextOffset == pg.offset + pg.count
      && (r.value.hasMore <==> r.value.nextOffset < r.value.totalCount)
  {
  }

  /** Paging through a result: the next page's offset moves on by exactly the number of records the provider counted. */
  lemma NextPageOffset(gs: seq<GiphyGif>, pg: Pagination, meta: Option<Meta>)
    requires pg.count >= 0
    ensures var r := SearchResultOf(ResponseBody(List(gs), Some(pg), meta));
      && r.value.nextOffset >= pg.offset
      && (pg.count > 0 ==> r.value.nextOffset > pg.offset)
      && (pg.offset + pg.count >= pg.total_count ==> !r.value.hasMore)
  {
  }
}
