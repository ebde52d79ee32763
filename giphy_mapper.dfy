/**
 * The mapping from a provider record to the application's `Gif` record
 * (src/api/giphy.ts, `safeNum`, `firstUrl`, `normalizeCreatedAt`,
 * `mapGiphyGifToGif`): a pure function of one record.
 */
module GiphyMapper {
  import opened Wrappers
  import opened Strings
  import opened GiphyTypes

  /** The provider's "unknown" timestamp. */
  const ZeroTimestamp: string := "0000-00-00 00:00:00"

  /** `safeNum`: the number a size string denotes, absent when it is not a finite number (a missing string is NaN). */
  function SafeNum(s: Option<string>): Option<int> {
    match s
    case None => None
    case Some(t) => ParseNumber(t)
  }

  /** A candidate rendition with a non-empty URL (`c?.url` is truthy). */
  predicate HasUrl(c: Option<GiphyImage>) {
    c.Some? && c.value.url != ""
  }

  /** `firstUrl`: the URL of the first candidate that has a non-empty one. */
  function FirstUrl(candidates: seq<Option<GiphyImage>>): (r: Option<string>)
    ensures r.Some? <==> exists k :: 0 <= k < |candidates| && HasUrl(candidates[k])
    ensures r.Some? ==> exists k :: (0 <= k < |candidates| && HasUrl(candidates[k])
      && r.value == candidates[k].value.url && forall j :: 0 <= j < k ==> !HasUrl(candidates[j]))
  {
    if candidates == [] then None
    else if HasUrl(candidates[0]) then Some(candidates[0].value.url)
    else
      var rest := FirstUrl(candidates[1..]);
      assert forall k :: 1 <= k < |candidates| ==> candidates[k] == candidates[1..][k - 1];
      rest
  }

  /** The grid preview renditions, lightest first. */
  function PreviewCandidates(img: GiphyImages): seq<Option<GiphyImage>> {
    [img.preview_webp, img.fixed_width_small_still, img.preview_gif, img.fixed_height_small_still, Some(img.fixed_height)]
  }

  /** The preview URL: the first non-empty candidate, else the original rendition's URL. */
  function PreviewUrl(img: GiphyImages): string {
    match FirstUrl(PreviewCandidates(img))
    case Some(u) => u
    case None => img.original.url
  }

  /** `normalizeCreatedAt`: the raw timestamp, absent when it is empty or the zero sentinel. */
  function NormalizeCreatedAt(raw: string): Option<string> {
    if raw == "" || raw == ZeroTimestamp then None else Some(raw)
  }

  /** `slug.replace(/-/g, " ")`: every hyphen becomes a space, every other character stays. */
  function ReplaceDashes(s: string): (r: string)
    ensures |r| == |s|
    ensures forall k :: 0 <= k < |s| ==> r[k] == if s[k] == '-' then ' ' else s[k]
  {
    if s == [] then []
    else [if s[0] == '-' then ' ' else s[0]] + ReplaceDashes(s[1..])
  }

  /** The displayed title: the trimmed title, else the slug with hyphens as spaces, else "Untitled". */
  function TitleOf(title: string, slug: string): string {
    var rawTitle := Trim(title);
    if rawTitle != "" then rawTitle
    else if slug != "" then ReplaceDashes(slug)
    else "Untitled"
  }

  function MapUser(u: GiphyUser): GifUser {
    GifUser(u.username, u.display_name, u.profile_url, u.avatar_url, u.is_verified)
  }

  /** `mapGiphyGifToGif`. */
  function MapGiphyGifToGif(g: GiphyGif): Gif {
    var original := g.images.original;
    Gif(
      id := g.id,
      title := TitleOf(g.title, g.slug),
      slug := g.slug,
      url := g.url,
      previewUrl := PreviewUrl(g.images),
      originalUrl := original.url,
      downloadUrl := original.url,
      width := SafeNum(Some(original.width)),
      height := SafeNum(Some(original.height)),
      size := SafeNum(original.size),
      rating := g.rating,
      createdAt := NormalizeCreatedAt(g.import_datetime),
      source := Some(g.source),
      user := if g.user.Some? then Some(MapUser(g.user.value)) else None,
      tags := g.tags)
  }

  /** `data.map(mapGiphyGifToGif)`: one mapped record per provider record, in provider order. */
  function MapAll(gs: seq<GiphyGif>): (r: seq<Gif>)
    ensures |r| == |gs|
    ensures forall k :: 0 <= k < |gs| ==> r[k] == MapGiphyGifToGif(gs[k])
  {
    if gs == [] then [] else [MapGiphyGifToGif(gs[0])] + MapAll(gs[1..])
  }

  /** The preview URL is the first non-empty candidate in priority order, else the original; the two full URLs are the original's. */
  lemma MapUrls(g: GiphyGif)
    ensures var r, c := MapGiphyGifToGif(g), PreviewCandidates(g.images);
      && r.originalUrl == g.images.original.url
      && r.downloadUrl == g.images.original.url
      && ((exists k :: 0 <= k < |c| && HasUrl(c[k]) && r.previewUrl == c[k].value.url
                                   && forall j :: 0 <= j < k ==> !HasUrl(c[j]))
          || ((forall k :: 0 <= k < |c| ==> !HasUrl(c[k])) && r.previewUrl == g.images.original.url))
  {
  }

  /** With no lighter preview at all, a non-empty `fixed_height` URL is the preview. */
  lemma PreviewFallsBackToFixedHeight(g: GiphyGif)
    requires g.images.preview_webp.None? && g.images.fixed_width_small_still.None?
    requires g.images.preview_gif.None? && g.images.fixed_height_small_still.None?
    requires g.images.fixed_height.url != ""
    ensures MapGiphyGifToGif(g).previewUrl == g.images.fixed_height.url
  {
    var c := PreviewCandidates(g.images);
    assert HasUrl(c[4]);
    var p := FirstUrl(c);
    var k :| 0 <= k < |c| && HasUrl(c[k]) && p.value == c[k].value.url && forall j :: 0 <= j < k ==> !HasUrl(c[j]);
    assert k == 4;
  }

  /**
   * Width, height and size are the parsed numbers, absent where the parse is
   * not a finite number; a size figure that is a printed integer comes back as that integer.
   */
  lemma MapNumbers(g: GiphyGif, w: int, h: int, s: int)
    ensures var r, o := MapGiphyGifToGif(g), g.images.original;
      && r.width == ParseNumber(o.width)
      && r.height == ParseNumber(o.height)
      && (o.size.None? ==> r.size.None?)
      && (o.size.Some? ==> r.size == ParseNumber(o.size.value))
      && (o.width == IntToString(w) ==> r.width == Some(w))
      && (o.height == IntToString(h) ==> r.height == Some(h))
      && (o.size == Some(IntToString(s)) ==> r.size == Some(s))
  {
    ParseNumberOfIntToString(w);
    ParseNumberOfIntToString(h);
    ParseNumberOfIntToString(s);
  }

  /**
   * The title is the trimmed title when that is non-empty, else the slug with
   * every hyphen turned into a space, else "Untitled"; it is never empty, and a
   * title taken from the provider's title has no surrounding whitespace.
   */
  lemma TitleFallbacks(title: string, slug: string)
    ensures var t := TitleOf(title, slug);
      && t != ""
      && (!AllWhitespace(title) ==> t == Trim(title) && !IsWhitespace(t[0]) && !IsWhitespace(t[|t| - 1]))
      && (AllWhitespace(title) && slug != "" ==>
            |t| == |slug| && forall k :: 0 <= k < |t| ==> t[k] == if slug[k] == '-' then ' ' else slug[k])
      && (AllWhitespace(title) && slug == "" ==> t == "Untitled")
  {
    TrimEdges(title);
    TrimEmptyIff(title);
  }

  /** The creation time is absent exactly for an empty or zero timestamp, and is otherwise passed through verbatim. */
  lemma MapCreatedAt(g: GiphyGif)
    ensures var c := MapGiphyGifToGif(g).createdAt;
      && (c.None? <==> g.import_datetime == "" || g.import_datetime == ZeroTimestamp)
      && (c.Some? ==> c.value == g.import_datetime)
  {
  }

  /** The uploader is present exactly when the provider supplied one, field for field under the new names. */
  lemma MapUserFields(g: GiphyGif)
    ensures var u := MapGiphyGifToGif(g).user;
      && (u.Some? <==> g.user.Some?)
      && (u.Some? ==>
            && u.value.username == g.user.value.username
            && u.value.displayName == g.user.value.display_name
            && u.value.profileUrl == g.user.value.profile_url
            && u.value.avatarUrl == g.user.value.avatar_url
            && u.value.isVerified == g.user.value.is_verified)
  {
  }

  /** Identity, slug, page URL, rating, source and tags are copied unchanged. */
  lemma MapCopiesScalars(g: GiphyGif)
    ensures var r := MapGiphyGifToGif(g);
      r.id == g.id && r.slug == g.slug && r.url == g.url && r.rating == g.rating
      && r.source == Some(g.source) && r.tags == g.tags
  {
  }
}
