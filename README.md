# GifWeb catalogue client, favourites and link helpers in Dafny

This project models the logic of the GifWeb single-page application, which searches an online GIF catalogue (Giphy), shows details, keeps favourites, and builds file names and Markdown links. It covers four modules:

- **The catalogue client** (`src/api/giphy.ts`):
  - the two-tier cache: an in-memory map plus the session store, keyed `"gif:" + id`, with a ten-minute time-to-live;
  - the mapper from a provider record to the application's `Gif` record;
  - the request loop, with its URL parameters, retry and backoff policy and error classification;
  - the three public operations: search, details by id, and the batch loader.
- **The favourites list** (`src/utils/favorites.ts`), kept in one local-storage slot.
- **The download file name** (`generateFilename` in `src/utils/files.ts`).
- **The Markdown image link** (`generateMarkdown` in `src/utils/clipboard.ts`).

## Layout

| file | module | form |
|---|---|---|
| `wrappers.dfy` | `Wrappers` | `Option` and `Result` |
| `seqs.dfy` | `Seqs` | list facts: `indexOf`, distinctness, counts |
| `strings.dfy` | `Strings` | the JavaScript string built-ins used (`trim`, ASCII `toLowerCase`, `String(n)`, integer `Number(s)`, `join`/`split`) |
| `giphy_types.dfy` | `GiphyTypes` | the record shapes of `src/types/giphy.ts` |
| `giphy_mapper.dfy` | `GiphyMapper` | `safeNum`, `firstUrl`, `normalizeCreatedAt`, `mapGiphyGifToGif`, as functions |
| `giphy_cache.dfy` | `GiphyCache` | the cache's values: entries, TTL, lookup, the writes of a batch |
| `giphy_request.dfy` | `GiphyRequest` | URL building, one loop step (`Classify`), and the whole loop as a function (`Run`, `Execute`) |
| `giphy_search.dfy` | `GiphySearch` | search parameters and pagination |
| `giphy_batch.dfy` | `GiphyBatch` | deduplication, the hit/miss split, the endpoint choice and the stable sort of `getGifsByIds` |
| `giphy_client.dfy` | `GiphyClient` | class `CatalogClient`: the caches, the clock and the network as state, with loop methods |
| `favorites.dfy` | `Favorites` | class `FavoritesStore` over the local-storage slot |
| `files.dfy` | `Files` | `generateFilename` |
| `clipboard.dfy` | `Clipboard` | `generateMarkdown` |

## How the environment is modelled

- **`fetch`** is a `Transport`: a function from the request's serial number and the request to an `Outcome`. An outcome is one of:
  - a rejection, either an `AbortError` or another error with a message;
  - a response with a status, a status text, and a body that either parses or throws when read.

  `CatalogClient.requests` logs every request sent. The next request's serial number is the length of that log.
- **The waits** of the backoff are appended to `CatalogClient.waits`, in milliseconds. Nothing sleeps.
- **`Date.now()`** is the field `CatalogClient.now`, which the environment sets between calls. A call does not advance it.
- **`sessionStorage`** is a map from key to `Stored(entry)` or `Unparsable`, plus a flag saying whether `setItem` succeeds.
- **`localStorage`** holds the favourites. It is the `FavoritesStore.slot` field, which is one of:
  - no entry, standing for an absent or empty string;
  - `Unparsable`, for text that is not JSON;
  - `Ids(list)`.

  Each mutator takes a `writeOk` flag saying whether `setItem` succeeds.
- **Thrown errors** are `Err(GiphyApiError(message, status))`. A body of the wrong shape is `Err(TypeError)`, which stands for the JavaScript error raised on reading a missing field.

The request loop is specified twice:
- `GiphyRequest.Run` is a recursive function of the transport;
- `CatalogClient.MakeApiRequest` is the `while (true)` loop of the source.

The method's contract states that its result, its requests and its waits are exactly those of `Execute`. The properties of the loop are proved about `Run`.

The in-place `combined.sort` is modelled on values as a stable insertion sort, `SortByRank`. JavaScript's sort has been stable since ES2019, and the comparator `indexOf(a.id) - indexOf(b.id)` is a consistent total preorder. Under those two facts every stable sort gives the same result. `SortByRank` is proved to be a permutation (`SortByRank`), to be ordered by rank (`SortByRankSorted`), and to be stable (`SortStable`), so it gives that result too.

The order results for the batch loader (`BatchInRequestedOrder`, `BatchOrderedWhenPartial`, `HitsCarryTheirIds`) assume that both cache tiers are consistent, meaning every entry holds a record of its own key's id. `getGifsByIds` keeps that, since it writes under `cacheKey(g.id)`. `getGifById` writes under the requested id instead (src/api/giphy.ts:247-253), so the tiers stay consistent only when `/{id}` answers with a record of that id. `MismatchedWrite` shows what happens otherwise: the lookup of the requested id returns the other record. A page may also inherit an inconsistent session store from an earlier page, so the constructor promises consistency only when the store it is given is consistent.

## Model

| member | source | states |
|---|---|---|
| Seqs.IndexOf | src/api/giphy.ts:299 | `indexOf`: -1 exactly when absent; otherwise a position holding the element with no earlier occurrence |
| Strings.TrimIsInfix | src/api/giphy.ts:96 | `trim` removes exactly a leading and a trailing run of whitespace and leaves no whitespace at either end |
| Strings.TrimEmptyIff | src/utils/clipboard.ts:31 | the trim is empty exactly when the string is all whitespace |
| Strings.TrimIgnoresSurroundingWhitespace | src/utils/clipboard.ts:31 | whitespace added around a string does not change its trim |
| Strings.ParseNumberOfIntToString | src/api/giphy.ts:68-71 | `Number(String(i))` gives back every integer `i` |
| Strings.ParseNumberRejectsNonNumeric | src/api/giphy.ts:68-71 | a trimmed string that is not an optionally signed digit string does not parse |
| Strings.SplitJoin | src/api/giphy.ts:289 | ids without commas are recovered exactly by splitting their comma-join |
| Strings.LowerAscii | src/utils/files.ts:36 | definition of the ASCII `toLowerCase`; properties in `Strings.LowerAsciiSpec` |
| Strings.LowerAsciiSpec | src/utils/files.ts:36 | no A–Z is left, every other character stays where it was, and lower-casing twice is lower-casing once |
| GiphyCache.CacheKey | src/api/giphy.ts:32-34 | definition: `gif:` + id; properties in `GiphyCache.CacheKeyInjective` |
| GiphyCache.FromMemory | src/api/giphy.ts:36-41 | definition of `getFromMemory`; properties in `GiphyCache.LookupSpec`, `GiphyCache.TtlBoundary` |
| GiphyCache.FromSession | src/api/giphy.ts:43-53 | definition of `getFromSession`; properties in `GiphyCache.LookupSpec`, `GiphyCache.StaleIsMiss` |
| GiphyCache.Lookup | src/api/giphy.ts:248 | definition of `getFromMemory(key) ?? getFromSession(key)`; properties in `GiphyCache.LookupSpec`, `GiphyCache.WrittenIsHit`, `GiphyCache.StaleIsMiss` |
| GiphyCache.CacheKeyInjective | src/api/giphy.ts:32-34 | two ids share a cache key exactly when they are equal |
| GiphyCache.LookupSpec | src/api/giphy.ts:36-53 | a lookup hits with `g` exactly when memory holds a live `g`, or, failing a live memory entry, the session holds a parsed live `g` |
| GiphyCache.TtlBoundary | src/api/giphy.ts:30-41 | an entry is still a hit at exactly ts + 10 min and a miss 1 ms later (strict `>`) |
| GiphyCache.WrittenIsHit | src/api/giphy.ts:36-57 | what was just written to memory is returned for the whole TTL, whatever the session tier holds |
| GiphyCache.StaleIsMiss | src/api/giphy.ts:46-53 | a stale memory entry falls through to the session; with that also absent, unparsable or stale, the lookup misses |
| GiphyCache.Stamp | src/api/giphy.ts:294 | the entries written by the batch write-back have keys only of fetched ids |
| GiphyCache.StampSpec | src/api/giphy.ts:294 | every fetched record is cached under its id, stamped now; the last record with an id wins the slot |
| GiphyCache.LookupId | src/api/giphy.ts:272 | with every record stored under its own key, a hit for an id is a record with that id |
| GiphyCache.StampConsistent | src/api/giphy.ts:294 | writing records under `cacheKey(g.id)` keeps every entry under its own key |
| GiphyCache.MismatchedWrite | src/api/giphy.ts:247-253 | a record whose id is not the requested one, written under the requested key, breaks consistency and is what the next lookup of that key returns |
| GiphyMapper.SafeNum | src/api/giphy.ts:68-71 | definition of `safeNum`; properties in `GiphyMapper.MapNumbers`, `Strings.ParseNumberOfIntToString` |
| GiphyMapper.NormalizeCreatedAt | src/api/giphy.ts:76-79 | definition of `normalizeCreatedAt`; properties in `GiphyMapper.MapCreatedAt` |
| GiphyMapper.PreviewUrl | src/api/giphy.ts:86-93 | definition of the preview chain; properties in `GiphyMapper.MapUrls`, `GiphyMapper.PreviewFallsBackToFixedHeight` |
| GiphyMapper.TitleOf | src/api/giphy.ts:96-97 | definition of the title fallbacks; properties in `GiphyMapper.TitleFallbacks` |
| GiphyMapper.MapGiphyGifToGif | src/api/giphy.ts:82-125 | definition of `mapGiphyGifToGif`; properties in `GiphyMapper.MapUrls`, `GiphyMapper.MapNumbers`, `GiphyMapper.TitleFallbacks`, `GiphyMapper.MapCreatedAt`, `GiphyMapper.MapUserFields`, `GiphyMapper.MapCopiesScalars` |
| GiphyMapper.FirstUrl | src/api/giphy.ts:73-74 | present exactly when some candidate has a non-empty URL; then it is the URL of the first such candidate |
| GiphyMapper.ReplaceDashes | src/api/giphy.ts:97 | same length; every `-` becomes a space and every other character stays |
| GiphyMapper.MapAll | src/api/giphy.ts:292 | `data.map(mapGiphyGifToGif)`: one mapped record per provider record, in order |
| GiphyMapper.MapUrls | src/api/giphy.ts:86-106 | previewUrl is the first non-empty of webp, fixed-width still, preview gif, fixed-height still, fixed height, else original; originalUrl = downloadUrl = original.url |
| GiphyMapper.PreviewFallsBackToFixedHeight | src/api/giphy.ts:86-93 | with no lighter preview, a non-empty fixed_height URL is the preview |
| GiphyMapper.MapNumbers | src/api/giphy.ts:107-109 | width, height and size are the parsed numbers, absent when the parse fails or the size is missing; printed integers come back as themselves |
| GiphyMapper.TitleFallbacks | src/api/giphy.ts:96-97 | the title is the trimmed title if not blank (no edge whitespace), else the slug with `-` as spaces, else "Untitled"; never empty |
| GiphyMapper.MapCreatedAt | src/api/giphy.ts:76-79 | createdAt is absent exactly for "" and "0000-00-00 00:00:00", and otherwise the raw value |
| GiphyMapper.MapUserFields | src/api/giphy.ts:113-121 | user is present exactly when supplied, with each field under its new name |
| GiphyMapper.MapCopiesScalars | src/api/giphy.ts:99-124 | id, slug, url, rating, source and tags are copied |
| GiphyRequest.ApplyParams | src/api/giphy.ts:142-144 | definition of the parameter `forEach`; properties in `GiphyRequest.ApplyParamsGet`, `GiphyRequest.ParamForUndefined`, `GiphyRequest.ParamForAt` |
| GiphyRequest.QueryOf | src/api/giphy.ts:142-145 | definition of the query with the key set last; properties in `GiphyRequest.QueryOfSpec`, `GiphyRequest.UndefinedParamsOmitted` |
| GiphyRequest.UrlOf | src/api/giphy.ts:139-141 | definition: an `http…` path as it is, otherwise the base URL + path; properties in `GiphySearch.SearchRequest`, `GiphyBatch.MissRequest` |
| GiphyRequest.BuildRequest | src/api/giphy.ts:139-145 | definition of the built URL and query; properties in `GiphyRequest.QueryOfSpec`, `GiphyRequest.ExecuteBounds` |
| GiphyRequest.StatusMessage | src/api/giphy.ts:177-182 | definition of the status messages; properties in `GiphyRequest.StatusErrors` |
| GiphyRequest.RemoveName | src/api/giphy.ts:143 | removing a name removes all its pairs and changes no other name's value |
| GiphyRequest.SetParam | src/api/giphy.ts:143-145 | `URLSearchParams.set`: afterwards the name has the new value and every other name its old one |
| GiphyRequest.SetParamKeepsNamesUnique | src/api/giphy.ts:143-145 | setting keeps every name at most once |
| GiphyRequest.RemoveNameKeepsNamesUnique | src/api/giphy.ts:143 | removal keeps every name at most once |
| GiphyRequest.ApplyParamsGet | src/api/giphy.ts:142-144 | after the `forEach`, each name carries the value of its last defined entry, and no name appears twice |
| GiphyRequest.ParamForUndefined | src/api/giphy.ts:143 | a name whose entries are all undefined or null gets no value |
| GiphyRequest.ParamForAt | src/api/giphy.ts:142-144 | the last defined entry with a name decides its value |
| GiphyRequest.QueryOfSpec | src/api/giphy.ts:142-145 | `api_key` is always the key; every other name carries its caller value; no duplicates |
| GiphyRequest.UndefinedParamsOmitted | src/api/giphy.ts:143 | parameters that are undefined or null are left out of the query |
| GiphyRequest.Classify | src/api/giphy.ts:167-207 | one loop pass retries exactly on a transient failure while attempt < 2; an abort is "Request was cancelled"; success exactly for an OK status, a readable body, and meta absent or 200 |
| GiphyRequest.StatusErrors | src/api/giphy.ts:177-183 | a non-OK status that is not retried fails with that status: "Unauthorized…" for 401/403, "Rate limit exceeded…" for 429, otherwise "API request failed: status text" |
| GiphyRequest.MetaErrorNotRetried | src/api/giphy.ts:186-192 | a 2xx body with meta.status ≠ 200 fails at once with meta's status and message ("API error" if empty) |
| GiphyRequest.Run | src/api/giphy.ts:155-208 | definition of the attempt loop as a recursive function; properties in `GiphyRequest.RunSpec`, `GiphyRequest.AbortStopsRetrying`, `GiphyRequest.RetriesExhausted` |
| GiphyRequest.RunSpec | src/api/giphy.ts:155-208 | the loop makes 1 to 3 fetches of the same request; all but the last were retried; the last decides the result; before retry k it waits 300·2^k ms |
| GiphyRequest.RunFinish | src/api/giphy.ts:177-206 | a pass that does not retry ends the loop with one request, no wait and that pass's result |
| GiphyRequest.RunAdvance | src/api/giphy.ts:168-202 | a retried pass puts one request and the wait 300·2^(attempt+1) ms ahead of the rest of the loop, which starts at the next attempt, still below 3 |
| GiphyRequest.Execute | src/api/giphy.ts:135-208 | definition of `makeApiRequest`: the key check, then `Run` of the built request; properties in `GiphyRequest.ExecuteBounds` |
| GiphyRequest.ExecuteBounds | src/api/giphy.ts:135-202 | no key, no request, "API key is required"; otherwise at most 3 requests of the built URL and waits [600, 1200] cut to the retries made |
| GiphyRequest.AbortStopsRetrying | src/api/giphy.ts:194-197 | an abort ends the loop at once with "Request was cancelled" |
| GiphyRequest.UnauthorizedNotRetried | src/api/giphy.ts:177-183 | a first 401/403 fails with one request and no wait |
| GiphyRequest.ServiceUnavailableTwiceThenOk | src/api/giphy.ts:167-193 | 503, 503, then 200 with meta 200: success after three requests and waits 600, 1200 |
| GiphyRequest.RetriesExhausted | src/api/giphy.ts:168-183 | three retriable statuses: three requests, waits 600 and 1200, an error with the last status |
| GiphySearch.SearchParamsList | src/api/giphy.ts:221-227 | definition of the search parameters with their defaults; properties in `GiphySearch.SearchRequest` |
| GiphySearch.SearchRequest | src/api/giphy.ts:221-227 | the search call goes to /search with q, limit (24), offset (0), rating ("g"), lang ("en") and the key |
| GiphySearch.SearchResultOf | src/api/giphy.ts:229-237 | a page exactly when the body has a list and paging; otherwise a TypeError |
| GiphySearch.SearchPage | src/api/giphy.ts:229-237 | one mapped record per provider record in order; totalCount = total_count; nextOffset = offset + count; hasMore iff nextOffset < total |
| GiphySearch.NextPageOffset | src/api/giphy.ts:235-236 | the next offset does not go back, advances when count > 0, and there is no more once offset + count reaches the total |
| GiphyBatch.Dedup | src/api/giphy.ts:264 | `Array.from(new Set(ids))`: the same ids, none twice, in order of first occurrence |
| GiphyBatch.DedupOfDistinct | src/api/giphy.ts:264 | ids without duplicates are left as they are |
| GiphyBatch.Hits | src/api/giphy.ts:270-274 | every cached record returned is the cache's answer for one of the ids |
| GiphyBatch.Misses | src/api/giphy.ts:270-274 | an id is to be fetched exactly when it is requested and the cache misses it; no duplicates; hits and misses together are as many as the ids |
| GiphyBatch.HitIds | src/api/giphy.ts:270-274 | the ids the cache answers for are exactly the requested ids with a hit |
| GiphyBatch.AllHitsIffNoMisses | src/api/giphy.ts:277 | nothing is fetched exactly when every id hits |
| GiphyBatch.MissPath | src/api/giphy.ts:279-289 | definition: `/{id}` for one miss, the base path otherwise; properties in `GiphyBatch.MissRequest` |
| GiphyBatch.MissParams | src/api/giphy.ts:279-289 | definition: no parameters for one miss, `ids` joined by `,` otherwise; properties in `GiphyBatch.MissRequest` |
| GiphyBatch.MissRequest | src/api/giphy.ts:279-291 | one miss asks `/{id}` with no parameters; several ask the batch endpoint once, with the comma-joined ids, which split back to the misses |
| GiphyBatch.FetchedGifs | src/api/giphy.ts:285-292 | a single record from the details call, the mapped list from the batch call, a TypeError exactly for the other shape |
| GiphyBatch.Rank | src/api/giphy.ts:299 | definition: `unique.indexOf(g.id)`; properties in `GiphyBatch.SortByRankSorted`, `GiphyBatch.OrderFollowsIds` |
| GiphyBatch.Insert | src/api/giphy.ts:299 | insertion adds exactly the record |
| GiphyBatch.SortByRank | src/api/giphy.ts:299 | the sort is a permutation |
| GiphyBatch.InsertSorted | src/api/giphy.ts:299 | insertion into a list ordered by position among the ids keeps it ordered |
| GiphyBatch.SortByRankSorted | src/api/giphy.ts:299 | the sorted records are ordered by `unique.indexOf(id)` |
| GiphyBatch.InsertOfRank | src/api/giphy.ts:299 | insertion puts the record ahead of the records of its own rank and keeps every other record's relative order |
| GiphyBatch.SortStable | src/api/giphy.ts:299 | the sort is stable: the records of each rank come out in the order they went in |
| GiphyBatch.InsertIds | src/api/giphy.ts:299 | insertion adds exactly the record's id to the ids |
| GiphyBatch.SortIds | src/api/giphy.ts:299 | sorting permutes the ids as it permutes the records |
| GiphyBatch.OrderFollowsIds | src/api/giphy.ts:297-299 | records with distinct requested ids are sorted strictly in the order of the ids |
| GiphyBatch.CompleteOrder | src/api/giphy.ts:297-299 | records with exactly the requested ids come out with exactly the requested ids in order |
| GiphyBatch.HitsCarryTheirIds | src/api/giphy.ts:272-273 | with consistent caches, the cached records carry the ids they were looked up by |
| GiphyBatch.HitIdsFilter | src/api/giphy.ts:270-274 | the ids the cache answers for are the requested ids filtered by a hit, in order |
| GiphyBatch.MissesFilter | src/api/giphy.ts:270-274 | the misses are the requested ids filtered by a miss, in order |
| GiphyBatch.HitsAndMissesPartition | src/api/giphy.ts:270-274 | every id is a hit or a miss, never both |
| GiphyBatch.BatchInRequestedOrder | src/api/giphy.ts:264-300 | when the provider returns exactly the missing records, the result has one record per distinct requested id, in first-request order |
| GiphyBatch.BatchOrderedWhenPartial | src/api/giphy.ts:297-299 | when it returns only some of them, none twice, the result still follows the requested order with no id twice |
| GiphyClient.DetailsOf | src/api/giphy.ts:251-252 | the details call's error, or its single mapped record, or a TypeError for a list |
| GiphyClient.PageOf | src/api/giphy.ts:223-237 | the search call's error; a TypeError exactly for a body without a list or without paging; otherwise the mapped records, the provider's total, next offset = offset + count, and more exactly when that is below the total |
| GiphyClient.FetchedFor | src/api/giphy.ts:279-293 | the call's error; for one miss the single mapped record of a details body, for several the mapped list of a batch body; a TypeError exactly for the other shape |
| GiphyClient.Combined | src/api/giphy.ts:297-300 | the fetch error, or all cached and fetched records, ordered by position among the ids |
| GiphyClient.CatalogClient.constructor | src/api/giphy.ts:29 | a page starts with an empty memory tier, any session store from earlier pages, no requests, and no waits; the caches are consistent when that store is |
| GiphyClient.CatalogClient.MakeApiRequest | src/api/giphy.ts:130-212 | the `while (true)` loop gives exactly the result, requests and waits of `Execute`; it changes neither cache nor the clock |
| GiphyClient.CatalogClient.SendWithRetries | src/api/giphy.ts:155-208 | the `while (true)` loop itself: its result, the requests it sends and the waits it makes are those of `Run` from attempt 0; caches and clock unchanged |
| GiphyClient.CatalogClient.SetCache | src/api/giphy.ts:55-63 | memory always takes {value, now}; the session only when writable (a failed write is swallowed); the entry is a hit; key consistency kept |
| GiphyClient.CatalogClient.CacheAll | src/api/giphy.ts:294 | the `forEach` write-back adds exactly the `Stamp` entries to memory, and to the session when writable |
| GiphyClient.CatalogClient.SplitByCache | src/api/giphy.ts:267-274 | the `forEach` yields exactly the hits and misses, in id order |
| GiphyClient.CatalogClient.SearchGifs | src/api/giphy.ts:217-238 | one search call; the page of its response; caches untouched |
| GiphyClient.CatalogClient.GetGifById | src/api/giphy.ts:243-255 | a hit returns the cached record with no request; a miss makes the details call and caches a successful record under the requested key; afterwards it is a hit; the caches stay consistent when that record carries the requested id |
| GiphyClient.CatalogClient.GetGifsByIds | src/api/giphy.ts:260-301 | no misses, no request; otherwise one call for the misses, their records cached, the combined records sorted into requested order; errors propagate |
| Favorites.Favorites | src/utils/favorites.ts:3-11 | definition of `getFavorites`; properties in `Favorites.RemoveRepairsSlot`, `Favorites.AddMakesFavorite` |
| Favorites.AfterAdd | src/utils/favorites.ts:13-23 | definition of the slot after an add; properties in `Favorites.AddMakesFavorite`, `Favorites.AddIdempotent` |
| Favorites.AfterRemove | src/utils/favorites.ts:25-33 | definition of the slot after a remove; properties in `Favorites.RemoveDropsOnlyTheId`, `Favorites.RemoveRepairsSlot` |
| Favorites.AfterToggle | src/utils/favorites.ts:39-49 | definition of the slot after a toggle; properties in `Favorites.ToggleKeepsOthers`, `Favorites.ToggleTwiceRestores`, `Favorites.ToggleTwiceMovesToEnd` |
| Favorites.FavoritesStore.GetFavorites | src/utils/favorites.ts:3-11 | definition: the list in the slot; properties in `Favorites.RemoveRepairsSlot` |
| Favorites.FavoritesStore.IsFavorite | src/utils/favorites.ts:35-37 | definition: membership in that list; properties in `Favorites.FavoritesStore.ToggleFavorite` |
| Favorites.Added | src/utils/favorites.ts:16-17 | the id is in the list; appended at the end only when absent |
| Favorites.Removed | src/utils/favorites.ts:28 | the id is gone; every other id keeps every occurrence |
| Favorites.FavoritesStore.constructor | src/utils/favorites.ts:1 | the store starts from the slot's current content |
| Favorites.FavoritesStore.AddToFavorites | src/utils/favorites.ts:13-23 | the slot after the add: unchanged when present or when the write throws |
| Favorites.FavoritesStore.RemoveFromFavorites | src/utils/favorites.ts:25-33 | the filtered list is written, or the slot is unchanged when the write throws |
| Favorites.FavoritesStore.ToggleFavorite | src/utils/favorites.ts:39-49 | returns the opposite of the old membership; after a successful write that is the new membership |
| Favorites.AddMakesFavorite | src/utils/favorites.ts:13-23 | a written add makes the id a favourite; a failed write or a present id changes nothing |
| Favorites.AddIdempotent | src/utils/favorites.ts:16 | adding twice is adding once |
| Favorites.RemoveDropsOnlyTheId | src/utils/favorites.ts:28-29 | after a written remove the id is gone and the rest keep their multiplicities |
| Favorites.RemoveIdempotent | src/utils/favorites.ts:28 | removing twice is removing once |
| Favorites.RemovedAbsent | src/utils/favorites.ts:28 | removing an absent id leaves the list unchanged |
| Favorites.RemovedConcat | src/utils/favorites.ts:28 | the filter keeps the order of what remains (it distributes over concatenation) |
| Favorites.AddRemoveKeepDistinct | src/utils/favorites.ts:16-28 | a list without duplicates stays so through add and remove |
| Favorites.ToggleKeepsOthers | src/utils/favorites.ts:39-49 | toggling never changes another id's membership, and with a successful write flips the toggled id's |
| Favorites.ToggleTwiceRestores | src/utils/favorites.ts:39-49 | toggling an absent id twice restores the list exactly |
| Favorites.ToggleTwiceMovesToEnd | src/utils/favorites.ts:39-49 | toggling a present id twice moves it to the end |
| Favorites.RemoveRepairsSlot | src/utils/favorites.ts:3-29 | a remove over an unreadable or missing slot writes an empty list |
| Files.StripDisallowed | src/utils/files.ts:37 | only a–z, digits, whitespace and `-` survive |
| Files.StripKeepsAllowed | src/utils/files.ts:37 | a string of allowed characters is unchanged by the filter |
| Files.DashRuns | src/utils/files.ts:38 | the result is no longer than the text; a leading whitespace run becomes `-`, any other first character is kept |
| Files.DashRunsShape | src/utils/files.ts:38 | no whitespace remains; every character is `-` or comes from the input |
| Files.DashRunsRun | src/utils/files.ts:38 | a whole whitespace run becomes one `-` |
| Files.DashRunsWithoutWhitespace | src/utils/files.ts:38 | text without whitespace is unchanged |
| Files.Take | src/utils/files.ts:39 | definition of `substring(0, n)`; properties in `Files.TakePrefix` |
| Files.TakePrefix | src/utils/files.ts:39 | the cut is a prefix of at most n characters, the whole text exactly when it is that short, exactly n otherwise, and cutting again changes nothing |
| Files.TrimWithoutWhitespace | src/utils/files.ts:40 | the trim is a no-op on text without whitespace |
| Files.DashRunsChars | src/utils/files.ts:36-38 | a filtered and hyphenated title holds only a–z, 0–9 and `-` |
| Files.CleanTitle | src/utils/files.ts:34-40 | definition of the clean title; properties in `Files.CleanTitleShape`, `Files.CaseInsensitive`, `Files.EdgeWhitespaceBecomesDash` |
| Files.CleanTitleShape | src/utils/files.ts:34-40 | the clean title has 1 to 50 characters, all in [a-z0-9-]; the trim never changes it; it is "gif" when filtering left nothing |
| Files.GenerateFilename | src/utils/files.ts:33-43 | definition of `generateFilename`; properties in `Files.FilenameLayout`, `Files.CaseInsensitive` |
| Files.FilenameLayout | src/utils/files.ts:42 | the name is the clean title, `-`, the id, ".gif" |
| Files.CaseInsensitive | src/utils/files.ts:36 | titles differing only in ASCII case give the same name |
| Files.EdgeWhitespaceBecomesDash | src/utils/files.ts:38-40 | as written, " a" cleans to "-a" while "a" cleans to "a" |
| Files.StripConcat | src/utils/files.ts:37 | the filter distributes over concatenation |
| Files.TrimmedIgnoresSurroundingWhitespace | src/utils/files.ts:36-40 | with the trim before hyphenation, surrounding whitespace does not change the name |
| Files.TrimmedShape | src/utils/files.ts:36-40 | the corrected clean title keeps the 1–50 [a-z0-9-] shape and starts with the first non-whitespace character kept |
| Files.TrimmedEdgeExample | src/utils/files.ts:38-40 | under the corrected order, " a" and "a" both clean to "a" |
| Clipboard.AltText | src/utils/clipboard.ts:31 | definition: the trimmed title or "GIF"; properties in `Clipboard.AltTextFallback`, `Clipboard.AltTextEdges` |
| Clipboard.GenerateMarkdown | src/utils/clipboard.ts:30-33 | definition of `generateMarkdown`; properties in `Clipboard.MarkdownLayout`, `Clipboard.MarkdownIgnoresSurroundingWhitespace` |
| Clipboard.MarkdownLayout | src/utils/clipboard.ts:30-33 | the link is "![" + alt + "](" + url + ")", with the URL verbatim and the alt text non-empty and without edge whitespace |
| Clipboard.AltTextEdges | src/utils/clipboard.ts:31 | the alt text is never empty and has no whitespace at either end |
| Clipboard.AltTextFallback | src/utils/clipboard.ts:31 | the alt text is "GIF" for a blank title, else the trimmed title |
| Clipboard.MarkdownIgnoresSurroundingWhitespace | src/utils/clipboard.ts:31 | whitespace around the title does not change the link |

## Findings

| source | as written | input that shows it | evidently intended | confidence | as-written member | corrected member |
|---|---|---|---|---|---|---|
| src/utils/files.ts:38-40 | `.trim()` runs after `.replace(/\s+/g, "-")`, when no whitespace is left, so it never changes anything; whitespace at either end, or exposed by removed punctuation as in "Wow !", ends up as a leading or trailing `-` | title " a" gives "-a-1.gif" for id "1", while "a" gives "a-1.gif" | trim after filtering and before hyphenating, so surrounding whitespace does not reach the name | medium; not executed | Files.EdgeWhitespaceBecomesDash | Files.TrimmedIgnoresSurroundingWhitespace |

`Files.CleanTitle` and `Files.GenerateFilename` model the code as written. `Files.CleanTitleTrimmed` and `Files.GenerateFilenameTrimmed` are the corrected order.

## Left out

- Concurrency: the interleaving of concurrent calls, and the read-then-write race on the caches. Each call is modelled as running alone.
- The 8-second timer, `AbortController`, and signal forwarding (src/api/giphy.ts:148-153, 209-211). A timeout or a cancellation is one `AbortError` outcome of the transport.
- Real sleeping and the passage of time during a call. The clock is a field that only the environment changes, so waits and fetch latency do not move it.
- URL serialisation: percent-encoding, and parsing a path into an absolute URL. A request is the base or absolute URL string plus the ordered list of query pairs.
- JSON parsing and serialisation. A stored session item is either a parsed entry or unparsable. A response body is either its parsed record shapes or an error thrown on reading it.
- SafeNum: `Number(s)` is modelled for optionally signed decimal integers with surrounding whitespace, and the empty string, which gives 0. Fractions, exponents, hexadecimal and "Infinity" give no value. This is because floating point is out of scope.
- Strings.LowerAscii: it lower-cases only A–Z. A non-ASCII letter whose lower case is ASCII, such as the Kelvin sign, is dropped by the filter in the model but kept by `toLowerCase`. Unicode case mapping is out of scope.
- Provider fields the mapper never reads, such as the other renditions and the bitly URLs, are not part of the record shapes.
- A favourites slot holding JSON that is not a list of strings, such as `null` or a number. There, `getFavorites` returns a non-array and `includes` throws. The model's slot is absent, unparsable, or a list of ids.
- `downloadFile` and `copyToClipboard` (src/utils/files.ts:1-31, src/utils/clipboard.ts:1-28): DOM and clipboard side effects over browser APIs.
- The React pages, components and hooks: rendering and event wiring.
- GiphyBatch.SortByRank: `combined.sort` works in place on an array. The model sorts a sequence value, so in-place update and aliasing of `combined` are not captured.
- Favorites.FavoritesStore.ToggleFavorite: `toggleFavorite` returns the new membership only when the storage write succeeds. When the write throws, it still returns the flipped value while the list is unchanged. The contract states both cases as the code behaves.
