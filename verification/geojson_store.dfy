/**
 * The country resolver with request de-duplication: a lazily loaded list of
 * bounding boxes, a per-country feature cache, a memo of resolved points
 * (including "no match") and the subscribable map of resolved points.
 *
 * Network responses are parameters. Runs are sequential: a load is begun
 * and settled before the next operation starts, so between operations no
 * request is outstanding.
 */
module GeoJsonStore {
  import opened Wrappers
  import opened Geo
  import opened Resolution

  datatype State = State(
    boxes: Option<seq<BoundingBoxEntry>>,     // `undefined` until the first load settles
    countryData: map<string, GeoCountry>,     // feature cache, by requested code
    codeCache: map<Point, Option<string>>,    // memo of `"lon,lat"`, `None` is a cached no-match
    store: map<Point, string>,                // the subscribable map: matches only
    pending: set<string>                      // codes with a country request in flight
  )

  const Initial := State(None, map[], map[], map[], {})

  /** No country request is outstanding. */
  predicate Settled(s: State)
  {
    s.pending == {}
  }

  /** The bounding boxes a load leaves behind: the cached ones, else the fetched ones, else `[]`. */
  function LoadedBoxes(s: State, fetched: Option<seq<BoundingBoxEntry>>): seq<BoundingBoxEntry>
  {
    if s.boxes.Some? then s.boxes.value else fetched.GetOr([])
  }

  /**
   * `loadCountryGeoBoundingBoxes`: returns the cached list if any (an empty
   * list counts as loaded); otherwise stores the fetched list, or `[]` when
   * the request failed.
   */
  function LoadCountryGeoBoundingBoxes(s: State, fetched: Option<seq<BoundingBoxEntry>>)
    : (r: (seq<BoundingBoxEntry>, State))
    ensures r.1.boxes == Some(r.0)
    ensures s.boxes.Some? ==> r.0 == s.boxes.value && r.1 == s
    ensures s.boxes.None? && fetched.None? ==> r.0 == []
    ensures s.boxes.None? && fetched.Some? ==> r.0 == fetched.value
    ensures r.1.countryData == s.countryData && r.1.codeCache == s.codeCache
    ensures r.1.store == s.store && r.1.pending == s.pending
  {
    match s.boxes
    case Some(boxes) => (boxes, s)
    case None =>
      var boxes := fetched.GetOr([]);
      (boxes, s.(boxes := Some(boxes)))
  }

  /**
   * The list is loaded at most once: a second load ignores its response and
   * changes nothing, even after a failed first load.
   */
  lemma BoxesLoadedAtMostOnce(s: State, first: Option<seq<BoundingBoxEntry>>, second: Option<seq<BoundingBoxEntry>>)
    ensures var (boxes, s1) := LoadCountryGeoBoundingBoxes(s, first);
      LoadCountryGeoBoundingBoxes(s1, second) == (boxes, s1)
  {
  }

  /** How a country load starts: from the cache, by joining the request in flight, or with a new fetch. */
  datatype LoadStart = FromCache(country: GeoCountry) | JoinPending | StartFetch

  /**
   * The synchronous part of `loadGeoCountry`, up to its first suspension:
   * the in-flight entry is installed before the request is issued.
   */
  function BeginLoad(s: State, code: string): (r: (LoadStart, State))
    ensures code in s.countryData ==> r == (FromCache(s.countryData[code]), s)
    ensures code !in s.countryData && code in s.pending ==> r == (JoinPending, s)
    ensures code !in s.countryData && code !in s.pending ==>
      r.0 == StartFetch && r.1 == s.(pending := s.pending + {code})
  {
    if code in s.countryData then (FromCache(s.countryData[code]), s)
    else if code in s.pending then (JoinPending, s)
    else (StartFetch, s.(pending := s.pending + {code}))
  }

  /**
   * The request settles: a feature is cached under the requested code, a
   * failure caches nothing, and the in-flight entry is removed either way.
   */
  function SettleLoad(s: State, code: string, fetched: Option<Feature>): (r: (Option<GeoCountry>, State))
    requires code in s.pending
    ensures r.1.pending == s.pending - {code}
    ensures fetched.None? ==> r.0 == None && r.1.countryData == s.countryData
    ensures fetched.Some? ==>
      r.0 == Some(GeoCountry(code, fetched.value)) && r.1.countryData == s.countryData[code := r.0.value]
    ensures r.1.boxes == s.boxes && r.1.codeCache == s.codeCache && r.1.store == s.store
  {
    var s' := s.(pending := s.pending - {code});
    match fetched
    case None => (None, s')
    case Some(feature) =>
      var country := GeoCountry(code, feature);
      (Some(country), s'.(countryData := s.countryData[code := country]))
  }

  /** A second load of a code already in flight joins it: no new request, no state change. */
  lemma PendingLoadIsShared(s: State, code: string)
    requires code !in s.countryData && code !in s.pending
    ensures var (start, s1) := BeginLoad(s, code);
      start == StartFetch && BeginLoad(s1, code) == (JoinPending, s1)
  {
  }

  /**
   * `loadGeoCountry` run to completion; `fetched` is the response the request
   * would get. The in-flight set ends as it started.
   */
  function LoadGeoCountry(s: State, code: string, fetched: Option<Feature>): (r: (Option<GeoCountry>, State))
    requires code !in s.pending
    ensures r.1.pending == s.pending
    ensures code in s.countryData ==> r == (Some(s.countryData[code]), s)
    ensures code !in s.countryData && fetched.None? ==> r == (None, s)
    ensures code !in s.countryData && fetched.Some? ==>
      && r.0 == Some(GeoCountry(code, fetched.value))
      && r.1 == s.(countryData := s.countryData[code := r.0.value])
  {
    var (start, s1) := BeginLoad(s, code);
    match start
    case FromCache(country) => (Some(country), s1)
    case JoinPending => assert false; (None, s1)
    case StartFetch => SettleLoad(s1, code, fetched)
  }

  /**
   * `getGeoCountry` checks the cache and the in-flight map before delegating
   * to `loadGeoCountry`; run sequentially it behaves exactly like the load.
   */
  function GetGeoCountry(s: State, code: string, fetched: Option<Feature>): (r: (Option<GeoCountry>, State))
    requires code !in s.pending
    ensures r == LoadGeoCountry(s, code, fetched)
  {
    if code in s.countryData then (Some(s.countryData[code]), s)
    else LoadGeoCountry(s, code, fetched)
  }

  /** After a successful load, later loads of that code return the cached country whatever the network says. */
  lemma LoadedCountryIsCached(s: State, code: string, fetched: Option<Feature>, later: Option<Feature>)
    requires code !in s.pending
    requires LoadGeoCountry(s, code, fetched).0.Some?
    ensures var (c, s1) := LoadGeoCountry(s, code, fetched);
      LoadGeoCountry(s1, code, later) == (c, s1) && GetGeoCountry(s1, code, later) == (c, s1)
  {
  }

  /** A failed load leaves the feature cache as it was, so the next load fetches again. */
  lemma FailedLoadIsRetried(s: State, code: string, later: Option<Feature>)
    requires code !in s.pending && code !in s.countryData
    ensures var (c, s1) := LoadGeoCountry(s, code, None);
      && c.None? && s1 == s
      && LoadGeoCountry(s1, code, later).0 == (if later.Some? then Some(GeoCountry(code, later.value)) else None)
  {
  }

  /**
   * The country a candidate step works with: the cached one, else the one
   * `loadGeoCountry` loads; it is the feature the resolver sees for `code`.
   */
  method CountryFor(s: State, code: string, fetch: Fetch) returns (c: Option<GeoCountry>, s': State)
    requires Settled(s)
    ensures Settled(s') && s'.boxes == s.boxes && s'.codeCache == s.codeCache && s'.store == s.store
    ensures ExtendsWithFetched(s.countryData, s'.countryData, fetch)
    ensures s'.countryData.Keys <= s.countryData.Keys + {code}
    ensures c.Some? <==> Available(s.countryData, fetch, code).Some?
    ensures c.Some? ==> c.value.feature == Available(s.countryData, fetch, code).value
  {
    if code in s.countryData {
      return Some(s.countryData[code]), s;
    }
    var (loaded, next) := LoadGeoCountry(s, code, fetch(code));
    return loaded, next;
  }

  /**
   * The candidate loop of `getCountryCode`: candidates are tried in order,
   * a failed load skips the candidate, and the first whose geometry
   * contains `location` gives the result.
   */
  method FirstContaining(s: State, location: Point, cands: seq<BoundingBoxEntry>, fetch: Fetch, pip: PointInPolygon)
    returns (r: Option<string>, s': State)
    requires Settled(s)
    ensures Settled(s')
    ensures s'.boxes == s.boxes && s'.codeCache == s.codeCache && s'.store == s.store
    ensures IsLookupResult(s.countryData, fetch, pip, location, cands, r)
    ensures ExtendsWithFetched(s.countryData, s'.countryData, fetch)
    ensures s'.countryData.Keys <= s.countryData.Keys + CodesOf(cands)
  {
    var cur := s;
    var k := 0;
    while k < |cands|
      invariant 0 <= k <= |cands|
      invariant cur.boxes == s.boxes && cur.codeCache == s.codeCache && cur.store == s.store && Settled(cur)
      invariant ExtendsWithFetched(s.countryData, cur.countryData, fetch)
      invariant cur.countryData.Keys <= s.countryData.Keys + CodesOf(cands)
      invariant forall j :: 0 <= j < k ==> !Matches(s.countryData, fetch, pip, location, cands[j].code)
    {
      var code := cands[k].code;
      assert code in CodesOf(cands);
      ExtendingKeepsAvailable(s.countryData, cur.countryData, fetch, code);
      var loaded, next := CountryFor(cur, code, fetch);
      ExtendsTransitive(s.countryData, cur.countryData, next.countryData, fetch);
      cur := next;
      if loaded.None? {
        k := k + 1;
        continue;
      }
      var countryData := loaded.value;

      var isInside := GeometryContains(pip, location, countryData.feature.geometry);
      if isInside {
        FirstMatchResult(s.countryData, fetch, pip, location, cands, k);
        return Some(countryData.feature.properties.isoA2), cur;
      }
      k := k + 1;
    }
    NoMatchResult(s.countryData, fetch, pip, location, cands);
    return None, cur;
  }

  /**
   * `getCountryCode`: memoised lookup, lazy bounding-box load, inclusive
   * pre-filter, then the candidate loop. `fetchedBoxes` is the bounding-box
   * response, `fetch` the per-country responses, `pip` the geometry
   * library's polygon test. Only a match is published to the store; a
   * no-match is memoised as `None`.
   */
  method GetCountryCode(s: State, location: Point, fetchedBoxes: Option<seq<BoundingBoxEntry>>,
                        fetch: Fetch, pip: PointInPolygon)
    returns (r: Option<string>, s': State)
    requires Settled(s)
    ensures Settled(s')
    // memoised: no load and no state change, a cached no-match included
    ensures location in s.codeCache ==> r == s.codeCache[location] && s' == s
    // afterwards the point is memoised with the returned value
    ensures location in s'.codeCache && s'.codeCache[location] == r
    ensures location !in s.codeCache ==>
      var boxes := LoadedBoxes(s, fetchedBoxes);
      && s'.boxes == Some(boxes)
      && s'.codeCache == s.codeCache[location := r]
      && IsLookupResult(s.countryData, fetch, pip, location, Candidates(boxes, location), r)
      && ExtendsWithFetched(s.countryData, s'.countryData, fetch)
      && s'.countryData.Keys <= s.countryData.Keys + CodesOf(Candidates(boxes, location))
      && (r.Some? ==> s'.store == s.store[location := r.value])
      && (r.None? ==> s'.store == s.store)
  {
    if location in s.codeCache {
      return s.codeCache[location], s;
    }

    var (boxes, afterBoxes) := LoadCountryGeoBoundingBoxes(s, fetchedBoxes);
    var cands := Candidates(boxes, location);
    var found, cur := FirstContaining(afterBoxes, location, cands, fetch, pip);
    r := found;
    s' := cur.(codeCache := cur.codeCache[location := r]);
    if r.Some? {
      s' := s'.(store := s'.store[location := r.value]);
    }
  }
}
