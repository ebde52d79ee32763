/**
 * The provider's record shapes and the application's own records
 * (src/types/giphy.ts). Provider fields keep the JSON names of the wire
 * format; the internal `Gif` record uses the application's camelCase names.
 * Provider fields the mapper never reads are not part of the model.
 */
module GiphyTypes {
  import opened Wrappers

  /** One rendition of a GIF: its URL and its size figures, as strings. */
  datatype GiphyImage = GiphyImage(url: string, width: string, height: string, size: Option<string>)

  /** The renditions of one GIF; `original` and `fixed_height` are always sent, the others may be missing. */
  datatype GiphyImages = GiphyImages(
    original: GiphyImage,
    fixed_height: GiphyImage,
    preview_gif: Option<GiphyImage>,
    preview_webp: Option<GiphyImage>,
    fixed_width_small_still: Option<GiphyImage>,
    fixed_height_small_still: Option<GiphyImage>)

  /** The uploader as the provider describes it. */
  datatype GiphyUser = GiphyUser(
    avatar_url: Option<string>,
    profile_url: Option<string>,
    username: Option<string>,
    display_name: Option<string>,
    is_verified: Option<bool>)

  /** One provider record. */
  datatype GiphyGif = GiphyGif(
    id: string,
    url: string,
    slug: string,
    source: string,
    title: string,
    rating: string,
    import_datetime: string,
    images: GiphyImages,
    user: Option<GiphyUser>,
    tags: Option<seq<string>>)

  /** The uploader as the application presents it. */
  datatype GifUser = GifUser(
    username: Option<string>,
    displayName: Option<string>,
    profileUrl: Option<string>,
    avatarUrl: Option<string>,
    isVerified: Option<bool>)

  /** The application's own record of one GIF. */
  datatype Gif = Gif(
    id: string,
    title: string,
    slug: string,
    url: string,
    previewUrl: string,
    originalUrl: string,
    downloadUrl: string,
    width: Option<int>,
    height: Option<int>,
    size: Option<int>,
    rating: string,
    createdAt: Option<string>,
    source: Option<string>,
    user: Option<GifUser>,
    tags: Option<seq<string>>)

  /** The paging block of a search response. */
  datatype Pagination = Pagination(total_count: int, count: int, offset: int)

  /** The status block of every response. */
  datatype Meta = Meta(status: int, msg: string)

  /** What `data` holds: one record (details endpoint) or a list (search and batch endpoints). */
  datatype Data = Single(gif: GiphyGif) | List(gifs: seq<GiphyGif>)

  /** A parsed response body. */
  datatype ResponseBody = ResponseBody(data: Data, pagination: Option<Pagination>, meta: Option<Meta>)

  /** The arguments of a search; a missing field takes its default. */
  datatype SearchParams = SearchParams(
    query: string,
    limit: Option<int>,
    offset: Option<int>,
    rating: Option<string>,
    lang: Option<string>)

  /** One page of search results. */
  datatype SearchResult = SearchResult(gifs: seq<Gif>, totalCount: int, hasMore: bool, nextOffset: int)

  /**
   * The error an operation throws: a `GiphyApiError` with its message and
   * optional status, or the `TypeError` JavaScript raises when a body that
   * lacks the expected shape is read.
   */
  datatype Error = GiphyApiError(message: string, status: Option<int>) | TypeError
}
