# resaundtill front-end core in Dafny

This project models the data core of the resaundtill travel blog's
SvelteKit front end:

- **API stores.** The newer `api.store.ts` initialises from five content
  requests. The older `data.store.ts` initialises from nine guarded
  requests, each with its own fallback. Both turn posts into the
  country/post relations (`countryToPosts` and its inverse
  `postToCountry`), the post/image relations, the map items and the
  current position.
- **Country lookup.** Two stores, `geojson.store.ts` and `country.store.ts`,
  find the country of a position. A bounding-box pre-filter picks
  candidates, each candidate's polygon feature is loaded (and cached),
  and the first country whose geometry contains the point wins.
- **Ray-casting point-in-polygon test** (`polygon.util.ts`).
- **Justified gallery layout** (`justified-layout.js` with the rounding
  helpers of the gallery's `utils.js`). It cuts images into rows along a
  cheapest path of a cost graph and scales each row to the container width.
- **Small utilities:**
  - number formatting with locale separators (`helpers.util.ts`)
  - the locale helpers
  - the three URL/image-URL builders

Conventions:

- Network answers are inputs: `None` is a failed request.
- The clock, the `browser` flag, the environment variables, the turf
  containment test and the country lookup used by the stores are
  parameters.
- A JavaScript `Map` is an insertion-ordered list of entries
  (`OrderedMaps`). This keeps the iteration order that `postToCountry`
  depends on.
- Concurrent requests (`Promise.all`) run one after the other, in the
  order they are issued.

Modules and files:

| file | modules |
|---|---|
| `wrappers.dfy` | `Wrappers` (`Option`) |
| `seqs.dfy` | `Seqs` (flattening) |
| `geo.dfy` | `Geo` (points, bounding boxes, features, candidate filter) |
| `resolution.dfy` | `Resolution` (what a country lookup must return) |
| `geojson_store.dfy` | `GeoJsonStore` |
| `country_store.dfy` | `CountryStore` |
| `polygon_util.dfy` | `PolygonUtil` |
| `gallery_utils.dfy` | `GalleryUtils` |
| `row_path.dfy` | `RowPath` (a cheapest row path) |
| `justified_layout.dfy` | `JustifiedLayout` |
| `helpers.dfy` | `Helpers` |
| `locale.dfy` | `Locale`, `LocaleUtil`, `GetLocaleUtil`, `GetTranslationIdxUtil` |
| `urls.dfy` | `UrlEnv`, `GetUrlUtil`, `ApiUtil`, `DirectusUrlUtil`, `ImageUrlBuilderUtils` |
| `js_map.dfy` | `OrderedMaps` |
| `relations.dfy` | `CountryRelations`, `PostImages` |
| `posts.dfy` | `Posts` |
| `api_store.dfy` | `ApiStore` |
| `data_store.dfy` | `DataStore` |

`locale.util.ts` and `get-locale.util.ts` compare against `Locale.en` and
`Locale.de`. `helpers.util.ts` compares against `Locale.DE`.
`src/lib/models/user.model.ts:6-9` declares the members as `EN = 'en'`
and `DE = 'de'`. The model reads all of these as the one enumeration
`Locale = EN | DE`, that is, it assumes the intended members. Taken
literally, `Locale.en` and `Locale.de` are undefined. Then `getLocale`
in `locale.util.ts` returns undefined, `getLocaleCode` is always
`'de-DE'`, and `helpers.util.ts:50` always picks the English separators.

## Model

| member | source | states |
|---|---|---|
| Geo.Candidates | src/lib/stores/geojson.store.ts:120-126 | the candidates are exactly the entries whose box contains the point, both bounds inclusive on both axes |
| Geo.CandidatesAppend | src/lib/stores/geojson.store.ts:120-126 | the filter keeps list order: the candidates of a concatenation are the concatenation of the candidates |
| Geo.AnyPolygonContains | src/lib/stores/geojson.store.ts:144-151 | a multipolygon contains the point exactly when one of its polygons does |
| Geo.GeometryContains | src/lib/stores/geojson.store.ts:140-152 | a Polygon asks the containment test once, a MultiPolygon asks each polygon, any other geometry contains nothing |
| Resolution.FirstMatchUnique | src/lib/stores/geojson.store.ts:128-163 | at most one candidate is the first one whose loadable feature contains the point |
| Resolution.LookupResultUnique | src/lib/stores/geojson.store.ts:128-166 | the lookup result (first match's `ISO_A2`, else undefined) is determined by the candidates, cache and network |
| Resolution.LookupResultTransfer | src/lib/stores/geojson.store.ts:130-136 | caching fetched features does not change what the lookup returns |
| Resolution.ExtendingKeepsAvailable | src/lib/stores/geojson.store.ts:130-136 | a cache extended with fetched features makes the same features available |
| GeoJsonStore.LoadCountryGeoBoundingBoxes | src/lib/stores/geojson.store.ts:27-57 | cached boxes are returned untouched; otherwise the fetched list, or `[]` on failure, is cached and returned; nothing else changes |
| GeoJsonStore.BoxesLoadedAtMostOnce | src/lib/stores/geojson.store.ts:28-30 | after one load, a second load returns the same boxes whatever the network answers, and changes nothing |
| GeoJsonStore.BeginLoad | src/lib/stores/geojson.store.ts:59-68 | a cached country is returned; a request in flight is joined; otherwise the code is registered as pending |
| GeoJsonStore.SettleLoad | src/lib/stores/geojson.store.ts:68-93 | the pending entry is always removed; a fetched feature is cached under its code; a failure caches nothing |
| GeoJsonStore.PendingLoadIsShared | src/lib/stores/geojson.store.ts:64-66 | a second load of a code in flight joins it without changing the state |
| GeoJsonStore.LoadGeoCountry | src/lib/stores/geojson.store.ts:59-95 | cache hit returns the cached country; a failure returns undefined with the state unchanged; a success caches and returns `{code, feature}` |
| GeoJsonStore.GetGeoCountry | src/lib/stores/geojson.store.ts:97-107 | `getGeoCountry` behaves as `loadGeoCountry` |
| GeoJsonStore.LoadedCountryIsCached | src/lib/stores/geojson.store.ts:60-62 | after a successful load, later loads return the cached country whatever the network says |
| GeoJsonStore.FailedLoadIsRetried | src/lib/stores/geojson.store.ts:84-89 | a failed load caches nothing, so the next load fetches again |
| GeoJsonStore.CountryFor | src/lib/stores/geojson.store.ts:129-136 | the country data comes from the cache, else from a fetch; it exists exactly when a feature is available |
| GeoJsonStore.FirstContaining | src/lib/stores/geojson.store.ts:128-163 | the loop returns the lookup result over the candidates, only adds fetched features to the cache, and settles all requests |
| GeoJsonStore.GetCountryCode | src/lib/stores/geojson.store.ts:109-167 | a cached position answers from the cache unchanged; otherwise the result is the lookup result over the box candidates and is cached, found or not |
| CountryStore.LoadCountryGeoBoundingBoxes | src/lib/stores/country.store.ts:22-41 | cached boxes are returned; otherwise the fetched list, or `[]` on failure, is cached |
| CountryStore.FailedBoxesNotRetried | src/lib/stores/country.store.ts:36-39 | a failed first load caches `[]`, and a second load does not fetch again |
| CountryStore.LoadGeoCountry | src/lib/stores/country.store.ts:44-63 | a country is returned exactly when the fetch succeeds, with the requested code and the fetched feature |
| CountryStore.ResolveCandidates | src/lib/stores/country.store.ts:88-127 | the loop returns the lookup result over the candidates and caches only fetched features of candidates |
| CountryStore.GetCountryCode | src/lib/stores/country.store.ts:66-132 | cache hit answers unchanged; otherwise the lookup result over the box candidates is returned and cached |
| PolygonUtil.CrossingMeaning | src/lib/utils/polygon.util.ts:25 | an edge toggles the flag exactly when it straddles the point's latitude and the point lies left of the edge's intercept; horizontal edges never toggle |
| PolygonUtil.EdgeIntersects | src/lib/utils/polygon.util.ts:25 | a horizontal edge (equal latitudes) never intersects |
| PolygonUtil.InterceptOnSegment | src/lib/utils/polygon.util.ts:25 | the intercept of a straddling edge lies on the edge, between its endpoints' longitudes |
| PolygonUtil.Prev | src/lib/utils/polygon.util.ts:15-30 | the previous vertex of the first is the last, of any other the one before it |
| PolygonUtil.FlipAlongRing | src/lib/utils/polygon.util.ts:15-31 | over one ring, walking each edge from the previous vertex to the current one, the flag ends flipped exactly when the ring has an odd number of crossed edges |
| PolygonUtil.FlipAlongPolygon | src/lib/utils/polygon.util.ts:12-32 | over the rings of one polygon, the flag ends flipped exactly when the rings' crossings add up to an odd number |
| PolygonUtil.IsPointInPolygon | src/lib/utils/polygon.util.ts:3-36 | the flag is set exactly when the total number of edge crossings over all polygons and rings is odd |
| PolygonUtil.SharedFlagIsExclusiveOr | src/lib/utils/polygon.util.ts:5-33 | one flag shared by all polygons makes the result the exclusive or of the polygons' results |
| PolygonUtil.OverlapIsOutside | src/lib/utils/polygon.util.ts:5-33 | a point inside two polygons of the same multipolygon is reported outside |
| PolygonUtil.HoleIsOutside | src/lib/utils/polygon.util.ts:12-32 | a point inside the outer ring and inside a hole is outside |
| PolygonUtil.EmptyRingsAreOutside | src/lib/utils/polygon.util.ts:15-31 | rings without points contribute no crossings, so nothing is inside them |
| PolygonUtil.UnitSquare | src/lib/utils/polygon.util.ts:3-36 | the centre of the unit square is inside it and a point right of it is not |
| GalleryUtils.MathRound | src/lib/components/gallery/utils.js:5 | `Math.round` picks the integer within a half of its argument, halves rounding up |
| GalleryUtils.RoundBounds | src/lib/components/gallery/utils.js:4-6 | `round` yields a multiple of 0.01 within 0.005 of its argument |
| GalleryUtils.RoundIsTheNearestHundredth | src/lib/components/gallery/utils.js:4-6 | any hundredth within that window is the result of `round` |
| GalleryUtils.RoundMonotone | src/lib/components/gallery/utils.js:4-6 | `round` is monotone |
| GalleryUtils.RoundIdempotent | src/lib/components/gallery/utils.js:4-6 | rounding a rounded value changes nothing |
| GalleryUtils.RatioBounds | src/lib/components/gallery/utils.js:12-14 | `ratio` is the quotient rounded to a hundredth |
| GalleryUtils.SquareRatio | src/lib/components/gallery/utils.js:12-14 | a square image has ratio 1 |
| GalleryUtils.ScaleHeightBounds | src/lib/components/gallery/utils.js:20-22 | `scaleHeight` is width over ratio rounded to a hundredth |
| GalleryUtils.ScaleWidthBounds | src/lib/components/gallery/utils.js:28-30 | `scaleWidth` is height times ratio rounded to a hundredth |
| JustifiedLayout.Annotate | src/lib/components/gallery/justified-layout.js:58-64 | one working copy per image |
| JustifiedLayout.AnnotateCopies | src/lib/components/gallery/justified-layout.js:58-64 | each working copy keeps the image's size, carries its index and its rounded ratio |
| JustifiedLayout.AnnotatedRatiosPositive | src/lib/components/gallery/justified-layout.js:58-64 | measurable images get positive ratios |
| JustifiedLayout.RowHeightFillsRow | src/lib/components/gallery/justified-layout.js:9-13 | the row height is, to a hundredth, the row width without padding over the sum of the ratios |
| JustifiedLayout.Cost | src/lib/components/gallery/justified-layout.js:23-28 | the edge cost is never negative and is zero exactly when the row height hits the target |
| JustifiedLayout.CalcSeekLimit | src/lib/components/gallery/justified-layout.js:34-43 | 2 below 420 pixels, otherwise twice the container's rounded aspect ratio, rounded |
| JustifiedLayout.SeekLimitAllowsPairs | src/lib/components/gallery/justified-layout.js:34-43 | a target height at most the width allows rows of two |
| JustifiedLayout.Graph | src/lib/components/gallery/justified-layout.js:68-81 | the neighbour map holds the start at 0 and exactly the nodes up to the seek limit and the image count, each weighted by its row cost |
| JustifiedLayout.ValidPathIsIncreasing | src/lib/components/gallery/justified-layout.js:83-92 | a path from node 0 to the image count has strictly increasing breakpoints |
| JustifiedLayout.ScaleRow | src/lib/components/gallery/justified-layout.js:96-108 | one scaled image per row image |
| JustifiedLayout.ScaledRows | src/lib/components/gallery/justified-layout.js:90-111 | one row per path edge, as long as the edge |
| JustifiedLayout.Layout | src/lib/components/gallery/justified-layout.js:113-117 | rows with `byRow`, the flat list otherwise |
| JustifiedLayout.LayoutUnfold | src/lib/components/gallery/justified-layout.js:85-117 | the result is the scaled rows, flattened unless `byRow` |
| JustifiedLayout.BreakpointFlags | src/lib/components/gallery/justified-layout.js:93-105 | an image closes its row exactly when the next position is a breakpoint; it is in the last row exactly when it lies past the second-last breakpoint |
| JustifiedLayout.FlatLength | src/lib/components/gallery/justified-layout.js:107 | every image is pushed exactly once |
| JustifiedLayout.LayoutFlatAt | src/lib/components/gallery/justified-layout.js:97-108 | the flat result at each position is that image, scaled to its row |
| JustifiedLayout.LayoutFlat | src/lib/components/gallery/justified-layout.js:90-117 | the flat result keeps image order; each image carries its row's height, its width from its ratio, its width percentage and its last-in-row and last-row flags |
| JustifiedLayout.LayoutByRow | src/lib/components/gallery/justified-layout.js:109-115 | one row per path edge, each of one to seek-limit images, exactly the images between its breakpoints; the rows concatenate to the flat result |
| JustifiedLayout.LayoutShortest | src/lib/components/gallery/justified-layout.js:66-83 | a layout exists unless there are images and the seek limit is below 1; its path is a cheapest path of the graph |
| RowPath.ShortestPath | src/lib/components/gallery/justified-layout.js:83 | a path is found exactly when one exists, and it costs no more than any other path |
| RowPath.ShortestPathExists | src/lib/components/gallery/justified-layout.js:73-83 | the only graph without a path has images and a seek limit below 1 |
| RowPath.OptPathIsValid | src/lib/components/gallery/justified-layout.js:83 | the forward search builds a path whose cost is the best cost |
| RowPath.BestIsLowerBound | src/lib/components/gallery/justified-layout.js:83 | no path costs less than the best cost |
| Helpers.IsDefined | src/lib/utils/helpers.util.ts:38-40 | defined exactly when not undefined |
| Helpers.SeparatorsFor | src/lib/utils/helpers.util.ts:49-50 | `.` for thousands and `,` for decimals exactly when the locale is neither `'en'` nor `'en-US'` (German); otherwise the reverse |
| Helpers.SeparatorsReadable | src/lib/utils/helpers.util.ts:49-50 | the two separators differ and are neither digits nor the minus sign |
| Helpers.DigitsRoundTrip | src/lib/utils/helpers.util.ts:52 | the integer digits read back as the integer |
| Helpers.TwoDigitsRoundTrip | src/lib/utils/helpers.util.ts:52-55 | the two decimal digits read back as the hundredths, and are `00` exactly for zero |
| Helpers.GroupShape | src/lib/utils/helpers.util.ts:54 | separators sit exactly every three digits counted from the right, never first |
| Helpers.GroupStripRoundTrip | src/lib/utils/helpers.util.ts:54 | removing the thousands separators gives the digits back |
| Helpers.IntegerPartRoundTrip | src/lib/utils/helpers.util.ts:52-54 | the grouped integer part reads back as the integer |
| Helpers.UnsignedRoundTrip | src/lib/utils/helpers.util.ts:52-56 | the formatted absolute value reads back as its hundredths |
| Helpers.FormatNumberRoundTrip | src/lib/utils/helpers.util.ts:48-57 | the formatted number reads back as its sign and hundredths under the locale's separators |
| Helpers.FormatNumberShape | src/lib/utils/helpers.util.ts:48-57 | a minus sign exactly for negatives; a decimal part exactly when the cents are not `00`, then two digits after the decimal separator |
| Helpers.GermanExample | src/lib/utils/helpers.util.ts:48-57 | 1234.50 formats as `1.234,50` in German |
| LocaleUtil.GetLocaleTable | src/lib/utils/locale.util.ts:8-10 | English exactly for `en` and `en-US`, German otherwise |
| LocaleUtil.GetLocaleCode | src/lib/utils/locale.util.ts:17-19 | `de-DE` exactly for values other than `en` and `en-US`, `en-US` for those two |
| LocaleUtil.GetTranslationIdx | src/lib/utils/locale.util.ts:26-28 | 0 (German) exactly for values other than `en` and `en-US`, 1 (English) for those two |
| LocaleUtil.LocaleCodeRoundTrip | src/lib/utils/locale.util.ts:8-19 | the locale code names the same locale and is a fixed point |
| LocaleUtil.IndexAndCodeAgree | src/lib/utils/locale.util.ts:17-28 | translation index and code tell locales apart exactly as the locale does |
| GetLocaleUtil.StringOr | src/lib/utils/get-locale.util.ts:4 | `a \|\| b` on strings is `a` unless empty |
| GetLocaleUtil.GetLocaleCode | src/lib/utils/get-locale.util.ts:7-9 | `de-DE` for every value but `en`, which gets `en-US` |
| GetLocaleUtil.OnlyEnIsEnglish | src/lib/utils/get-locale.util.ts:3-5 | English exactly for `en`; `en-US` and undefined are German |
| GetLocaleUtil.LocaleCodeNotIdempotent | src/lib/utils/get-locale.util.ts:3-9 | `en` yields `en-US`, which maps back to `de-DE` |
| GetLocaleUtil.DiffersFromCurrentOnlyOnEnUs | src/lib/utils/get-locale.util.ts:3-5 | this helper and `locale.util.ts` disagree exactly on `en-US` |
| GetTranslationIdxUtil.GetTranslationIdx | src/lib/utils/get-translation-idx.util.ts:4-6 | the index is 0 (German) exactly when the value is not `'en'`, since the older mapper treats `'en-US'` and undefined as German; else 1 |
| GetTranslationIdxUtil.TranslationIdxTable | src/lib/utils/get-translation-idx.util.ts:4-6 | `en` gives 1; `en-US` and undefined give 0 |
| UrlEnv.AssetIdRoundTrip | src/lib/utils/api.util.ts:41 | the asset id can be read back from an asset URL |
| UrlEnv.PresetsDistinguish | src/lib/utils/api.util.ts:40-41 | different presets give different URLs |
| GetUrlUtil.GetUrl | src/lib/utils/get-url.util.ts:8-14 | the API URL is the internal or the external one |
| GetUrlUtil.InternalOnlyOnServer | src/lib/utils/get-url.util.ts:8-14 | the internal URL exactly in server mode outside the browser |
| GetUrlUtil.OnlyTrueIsServerMode | src/lib/utils/get-url.util.ts:9-13 | any value but `true` selects the external URL |
| ApiUtil.GetApiUrl | src/lib/utils/api.util.ts:11-16 | the internal or the external API URL |
| ApiUtil.GetHostUrl | src/lib/utils/api.util.ts:18-23 | the internal or the external host URL |
| ApiUtil.ApiUrlsAgree | src/lib/utils/api.util.ts:11-16 | the three API URL helpers agree |
| ApiUtil.HostUrlsDiffer | src/lib/utils/api.util.ts:18-23 | this host URL differs from `directus-url.util.ts`'s exactly in server mode outside the browser |
| ApiUtil.ImageUrlBuilder | src/lib/utils/api.util.ts:32-42 | without an id the host URL plus fallback; otherwise an asset URL of the id, with no query for the default transformation and the transformation's key otherwise |
| ApiUtil.FallbackImage | src/lib/utils/api.util.ts:35-39 | no id yields the travel fallback image on the host |
| ApiUtil.DefaultHasNoQuery | src/lib/utils/api.util.ts:40-41 | the default transformation yields the bare asset URL |
| DirectusUrlUtil.GetApiUrl | src/lib/utils/directus-url.util.ts:9-15 | the internal or the external API URL |
| DirectusUrlUtil.GetHostUrl | src/lib/utils/directus-url.util.ts:17-19 | external host in server mode, internal otherwise, whatever the browser flag |
| DirectusUrlUtil.Preset | src/lib/utils/directus-url.util.ts:28-34 | thumbnail, preview or webp |
| DirectusUrlUtil.PresetInjective | src/lib/utils/directus-url.util.ts:28-34 | different transformations give different presets |
| DirectusUrlUtil.ImageUrlBuilder | src/lib/utils/directus-url.util.ts:27-35 | the asset id and the transformation's preset can be read back |
| DirectusUrlUtil.TransformationsDistinguish | src/lib/utils/directus-url.util.ts:27-35 | two transformations give the same URL exactly when they are equal |
| ImageUrlBuilderUtils.IdText | src/lib/utils/image-url-builderutils.ts:11 | a truthy id has non-empty text |
| ImageUrlBuilderUtils.Preset | src/lib/utils/image-url-builderutils.ts:11 | thumbnail or webp |
| ImageUrlBuilderUtils.ImageUrlBuilder | src/lib/utils/image-url-builderutils.ts:10-11 | null exactly for a falsy id; otherwise the id and preset can be read back |
| ImageUrlBuilderUtils.ThumbnailDiffersFromDefault | src/lib/utils/image-url-builderutils.ts:10-11 | thumbnail and default URLs differ, the default carrying the webp key |
| OrderedMaps.Find | src/lib/stores/api.store.ts:100-102 | the position of the first entry of a key, or none exactly when it is absent |
| OrderedMaps.Get | src/lib/stores/api.store.ts:100 | `get` is undefined exactly when the key is absent, otherwise a value stored under it |
| OrderedMaps.GetEntry | src/lib/stores/api.store.ts:100 | in a map without duplicate keys `get` returns the key's value |
| OrderedMaps.PutUniqueKeys | src/lib/stores/api.store.ts:102 | `set` keeps keys distinct |
| OrderedMaps.PutGet | src/lib/stores/api.store.ts:102 | after `set`, `get` returns the new value |
| OrderedMaps.PutKeys | src/lib/stores/api.store.ts:102 | a new key goes last in iteration order; a present key keeps its place |
| OrderedMaps.PutOther | src/lib/stores/api.store.ts:102 | `set` leaves other keys' values alone |
| OrderedMaps.Values | src/lib/stores/api.store.ts:65 | `values()` lists the values in entry order |
| CountryRelations.IdsWithMember | src/lib/stores/api.store.ts:99-103 | a post is listed under a code exactly when it resolved to that code |
| CountryRelations.GroupGet | src/lib/stores/api.store.ts:93-105 | `countryToPosts` maps each non-empty code that some post has to its posts, in order, and has nothing else |
| CountryRelations.GroupUniqueKeys | src/lib/stores/api.store.ts:93-105 | the grouping map has distinct keys |
| CountryRelations.GroupEntries | src/lib/stores/api.store.ts:93-105 | every entry's key is a non-empty code and its list is that code's posts |
| CountryRelations.PutAllGet | src/lib/stores/api.store.ts:110-112 | after the inner loop each listed post maps to the code and others are unchanged |
| CountryRelations.LastOwner | src/lib/stores/api.store.ts:108-113 | the owner is undefined exactly when no entry lists the post |
| CountryRelations.InvertGet | src/lib/stores/api.store.ts:108-113 | `postToCountry` maps a post to the last code whose list holds it |
| CountryRelations.InverseOfDisjoint | src/lib/stores/api.store.ts:108-113 | with disjoint lists, the inverse maps a post to a code exactly when that code lists it |
| CountryRelations.GroupDisjoint | src/lib/stores/api.store.ts:93-105 | with unique post ids, no post is listed under two codes |
| CountryRelations.PostToCountryIsInverse | src/lib/stores/api.store.ts:92-115 | with unique ids, `postToCountry` maps a post to a code exactly when the post resolved to that non-empty code |
| PostImages.WithImages | src/lib/stores/api.store.ts:56-63 | only posts with images get an entry |
| PostImages.WithImagesKeys | src/lib/stores/api.store.ts:56-63 | every entry belongs to a post |
| PostImages.PostToImagesIsFilter | src/lib/stores/api.store.ts:55-63 | with unique ids, the map is the posts with images, in order |
| PostImages.FlattenWithImages | src/lib/stores/api.store.ts:65 | the flattened values are the images of the posts in order |
| PostImages.ImagesInPostOrder | src/lib/stores/api.store.ts:55-65 | with unique ids, the image list is every post's images in post order |
| Posts.Reverse | src/lib/stores/api.store.ts:45 | element `i` of the reversal is element `n-1-i` |
| Posts.ReverseReverse | src/lib/stores/api.store.ts:45 | reversing twice restores the list |
| Posts.Located | src/lib/stores/api.store.ts:47 | the kept posts all have a location |
| Posts.LocatedAppend | src/lib/stores/api.store.ts:47 | the filter keeps list order: the located posts of a concatenation are the concatenation of the located posts |
| Posts.LocatedSingleton | src/lib/stores/api.store.ts:47 | a single post is kept exactly when it has a location |
| Posts.LocatedMember | src/lib/stores/api.store.ts:47 | a post is kept exactly when it has a location |
| Posts.Resolutions | src/lib/stores/api.store.ts:95-99 | each post paired with its code |
| Posts.RelationOfPosts | src/lib/stores/api.store.ts:92-115 | with unique ids, the inverse relation holds a post/code pair exactly when the post has that non-empty code |
| ApiStore.ResolveCode | src/lib/stores/api.store.ts:96-98 | the stored code if present, else the lookup's for a located post, else undefined |
| ApiStore.Resolve | src/lib/stores/api.store.ts:95-98 | every post gets its resolved code written back, nothing else changes |
| ApiStore.ResolveIdempotent | src/lib/stores/api.store.ts:96-98 | resolving resolved posts changes nothing |
| ApiStore.CurrentCoordinatesAsWritten | src/lib/stores/api.store.ts:46 | as written: the location of the first, oldest post |
| ApiStore.CurrentCoordinates | src/lib/stores/api.store.ts:38-46 | the corrected position, used by no store: the location of the latest post of the date-ascending list |
| ApiStore.CurrentIsNewestStored | src/lib/stores/api.store.ts:45-46 | the latest post is the first of the stored newest-first list |
| ApiStore.CurrentCoordinatesAsWrittenIsOldest | src/lib/stores/api.store.ts:46 | for a two-post trip the code as written reports the start, not the latest place |
| ApiStore.FetchPosts | src/lib/stores/api.store.ts:37-49 | posts newest first with resolved codes; map items are the located ones in date order; the current position is the first (oldest) post's location, undefined for no posts; other stores untouched |
| ApiStore.FetchPostsRelations | src/lib/stores/api.store.ts:92-115 | with unique ids, `postToCountry` maps a post to a code exactly when it has that non-empty code, stored or looked up |
| ApiStore.FetchPostsGroups | src/lib/stores/api.store.ts:92-106 | `countryToPosts` lists, per code, the posts with that code in date order |
| ApiStore.Details | src/lib/stores/api.store.ts:60 | each image becomes a record of the file with its post's id and date |
| ApiStore.ImageEntries | src/lib/stores/api.store.ts:56-63 | one entry per post; a post with images gets each image extended with the post's id and date, a post without gets none |
| ApiStore.GetImages | src/lib/stores/api.store.ts:51-66 | both image stores are set from the posts; nothing else changes |
| ApiStore.GetImagesInPostOrder | src/lib/stores/api.store.ts:51-66 | with unique ids, the image store lists every post's images in post order |
| ApiStore.Fill | src/lib/stores/api.store.ts:117-118 | each answered request writes its own stores (posts, map items, current position and both country relation maps; the image list and the post-to-images map; countries newest first; support info; shuffle percentage); a failed one leaves them as they were |
| ApiStore.InitApiStores | src/lib/stores/api.store.ts:33-122 | runs on the first call only, fills the stores from the answers, and raises the alert exactly when some request failed |
| ApiStore.InitRelations | src/lib/stores/api.store.ts:33-115 | after the first initialisation with the posts answered (unique ids), a post is related to a country exactly when its resolved code is that non-empty country |
| ApiStore.InitOnce | src/lib/stores/api.store.ts:31-35 | a second call changes nothing |
| ApiStore.FailedPostsLeaveTheirStoresUnset | src/lib/stores/api.store.ts:117-122 | a failed posts request leaves its stores unset and alerts, while the countries store is still filled |
| DataStore.GetPosts | src/lib/stores/data.store.ts:28-42 | an answer replaces the posts; a failure changes nothing |
| DataStore.ImageEntries | src/lib/stores/data.store.ts:50-57 | each post with its image ids |
| DataStore.GetImagesAsWritten | src/lib/stores/data.store.ts:63-66 | as written: an answer sets the image list and the post-to-images map as the corrected request does; a failure writes `files: []` and an empty map, and leaves `images` as it was; no other field changes |
| DataStore.ImagesAsWrittenInconsistent | src/lib/stores/data.store.ts:65 | from the initial state a failure leaves `images` undefined next to a defined map |
| DataStore.GetImages | src/lib/stores/data.store.ts:44-67 | the image list always agrees with the map; a failure empties both; nothing else changes |
| DataStore.GetImagesInPostOrder | src/lib/stores/data.store.ts:49-61 | with unique ids, the image list is every post's images in post order |
| DataStore.GetCountries | src/lib/stores/data.store.ts:69-82 | the answer, or `[]` on failure |
| DataStore.GetDeparture | src/lib/stores/data.store.ts:84-93 | the answer's date, or now on failure |
| DataStore.GetSupportInfo | src/lib/stores/data.store.ts:95-107 | the answer, or an empty record on failure |
| DataStore.GetGalleryShufflePercentage | src/lib/stores/data.store.ts:109-120 | the answer's value, or 0 on failure |
| DataStore.CurrentCoordinates | src/lib/stores/data.store.ts:122-137 | defined exactly when the newest post has a location, and then that location |
| DataStore.MapItems | src/lib/stores/data.store.ts:139-154 | always defined; the located posts of the answer in the order fetched, `[]` on failure |
| DataStore.ResolveCode | src/lib/stores/data.store.ts:168-169 | an unlocated post gets no code; a located one its stored code, else the lookup's |
| DataStore.Resolutions | src/lib/stores/data.store.ts:166-177 | each post paired with its resolved code |
| DataStore.CountryPostRelations | src/lib/stores/data.store.ts:156-192 | only the two relation fields change; a failure empties `countryToPosts` and leaves `postToCountry` alone |
| DataStore.CountryPostRelationsInverse | src/lib/stores/data.store.ts:165-186 | with unique ids, `postToCountry` maps a post to a code exactly when it is located and resolves to that non-empty code |
| DataStore.SelectAll | src/lib/stores/data.store.ts:158-164 | the answer is the stored posts restricted to the requested fields |
| DataStore.NothingGroupedWithoutLocations | src/lib/stores/data.store.ts:166-177 | posts without locations produce no groups |
| DataStore.RelationsAsWrittenEmpty | src/lib/stores/data.store.ts:162 | as written (no `location` field requested) both relations come out empty |
| DataStore.RelationsWithLocation | src/lib/stores/data.store.ts:156-192 | requesting `location` relates every located, coded post to its code |
| DataStore.Fill | src/lib/stores/data.store.ts:194-204 | each request writes its answer or its fallback: the current position is the first fetched post's location or undefined, the map items are the located posts or `[]`, an answered image request sets the image list and the post-to-images map; an image failure sets `files` and an empty map and leaves `images` as it was; `countryToPosts` always comes out empty, and `postToCountry` comes out empty when the relation request is answered and stays as it was when it fails |
| DataStore.Init | src/lib/stores/data.store.ts:22-26 | `init` runs on the first call only and then fills the state from the answers |
| DataStore.InitOnce | src/lib/stores/data.store.ts:22-26 | a second call changes nothing |
| DataStore.InitDefinesFallbackFields | src/lib/stores/data.store.ts:194-204 | from the undefined state every field with a fallback is defined whatever fails; `images` is defined, agrees with the map and `files` stays unset exactly when the image request succeeds; `countryToPosts` is empty, and `postToCountry` is empty when the relation request is answered and stays undefined when it fails |
| DataStore.FillCorrected | src/lib/stores/data.store.ts:44-204 | the corrected requests: the image list always agrees with the map and `files` is never written; `postToCountry` is computed from located posts; every other field as in `Fill` |
| DataStore.InitCorrected | src/lib/stores/data.store.ts:22-26 | the corrected `init` runs on the first call only |
| DataStore.InitCorrectedDefinesFallbackFields | src/lib/stores/data.store.ts:194-204 | after the corrected `init` every field with a fallback is defined, the image fields agree and `files` stays unset |
| DataStore.InitCorrectedRelations | src/lib/stores/data.store.ts:156-192 | after the corrected `init`, with unique ids, a post maps to a code exactly when it is located and resolves to that non-empty code |

## Left out

- Network, JSON parsing and HTTP status codes. Every request is its answer or `None`.
- Console logging and error objects.
- Alerts in the country stores. The alert store is not part of this model. In `ApiStore` only the fact that the alert was raised is kept.
- Concurrency. `Promise.all` and the async functions run one after another, in issue order. Interleavings of the lookups in `setCountryPostRelations` and `countryPostRelations` are not modelled. In the source only posts that need a lookup wait for it (`api.store.ts:96-98`, `data.store.ts:169`). Every post with a stored code is therefore pushed during the synchronous `posts.map`, before any looked-up post, even with one lookup at a time. The date order that `ApiStore.FetchPostsGroups` states holds in the source only when a country's posts all have stored codes or all need a lookup.
- The Svelte store machinery: `subscribe`, `update`, and the Svelte writable that wraps the country-code map (the map itself is `State.store` in both country stores).
- Floating point. Coordinates, ratios and sizes are reals. `Number.EPSILON` in `round` is dropped. `toFixed(2)` is modelled on a whole number of hundredths.
- GalleryUtils.Round: has no ensures of its own. Its bounds are in `GalleryUtils.RoundBounds`.
- JustifiedLayout.Layout: requires every image to be measurable (a non-zero height and `width / height` at least 0.005) and a non-zero container width; `JustifiedLayout.LayoutShortest` has the same requirement. The excluded inputs are images whose ratio rounds to 0 (for example 1×300), images of zero height, and a zero container width. For those the source divides by zero or by a zero ratio sum: a row shared with measurable images gets a finite height and the image a `scaledWidth` of 0, while a row of such images alone gets height `Infinity`. JavaScript's `Infinity` and `NaN` are not modelled.
- JustifiedLayout.CalcSeekLimit: requires a non-zero target row height when the container is at least the narrow width. With target height 0 the source's `ratio(width, 0)` is `Infinity`, so the seek limit is `Infinity` and the `i - start > limit` break in the graph never fires: every later breakpoint is a neighbour. An unbounded limit is not modelled.
- The turf containment test (`booleanPointInPolygon`) and the country lookup the stores call are function parameters.
- The `dijkstra` module is not part of this model. `JustifiedLayout.Layout` takes any valid path. `RowPath.ShortestPath` is a forward search proved cheapest among all paths. Ties may be broken differently from `dijkstra`.
- The image fields the layout copies along (`...image`) are not modelled. Only width and height are.
- Records are reduced to the fields the stores compute with. Translations, population, area, capital, currency and thumbnail are left out.
- `ApiStore.Details`: records only the image's file id, not the whole `directus_files_id` object the source spreads. The date comes from whatever date the response carries. The request at `api.store.ts:53` does not list `date` among its fields, and that field selection is not modelled. Read with that field selection, as the `data.store.ts:162` Findings row reads its own, the response carries no `date` and every image record's `date` would be undefined; the model keeps the post's date.
- Dates are kept as strings. `new Date(...)` and the clock are not modelled. The clock reading is the `now` parameter.
- The string values of `DirectusImageTransformation` are not in the source files. `ApiUtil.ImageUrlBuilder` takes them as the `name` parameter.
- ImageUrlBuilderUtils.IdText: numeric ids are whole numbers only. Fractional and negative numbers are not modelled.
- `clickOutside`, `scrollTop`, `debounce` and the other UI helpers are outside the core.
- The cache key `"lon,lat"` is the point itself. Two distinct real pairs never print the same.

## Findings

| source | as written | input that shows it | evidently intended | confidence | as-written member | corrected member |
|---|---|---|---|---|---|---|
| src/lib/utils/get-locale.util.ts:4 | `value === ('en' \|\| 'en-US')` compares with `'en'` only | `getLocale('en-US')` is German, and `getLocaleCode('en')` is `en-US`, which maps back to `de-DE` | English for `en` and `en-US`, as in `locale.util.ts:9` | high; not executed | GetLocaleUtil.LocaleCodeNotIdempotent | LocaleUtil.LocaleCodeRoundTrip |
| src/lib/stores/data.store.ts:65 | a failed image request writes `files: []`, a field the model does not declare | failure from the initial state: `postToImages` is an empty map, `images` stays undefined | `images: []`, so the list agrees with the map | high; not executed | DataStore.ImagesAsWrittenInconsistent | DataStore.InitCorrectedDefinesFallbackFields |
| src/lib/stores/data.store.ts:162 | the relation request selects only `id` and `countryCode`, yet line 168 skips every post without `location` | any stored posts: both relation maps come out empty | request `location` too, as `api.store.ts:42` does | medium (assumes the API returns only the selected fields); not executed | DataStore.RelationsAsWrittenEmpty | DataStore.InitCorrectedRelations |
| src/lib/stores/api.store.ts:46 | the current position is `posts[0]` of the date-ascending list, the oldest post | two posts, 2023 at (13.4, 52.5) and 2024 at (100.5, 13.7): reports (13.4, 52.5) | the latest post, as `data.store.ts:126-131` takes the newest | medium; not executed | ApiStore.CurrentCoordinatesAsWrittenIsOldest | ApiStore.CurrentCoordinates |
