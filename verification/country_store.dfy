/**
 * The earlier revision of the country resolver: no request de-duplication,
 * and `loadGeoCountry` does not cache; the lookup itself stores a feature
 * after a successful load. It resolves every point exactly as the later
 * revision does (both meet `Resolution.IsLookupResult`).
 */
module CountryStore {
  import opened Wrappers
  import opened Geo
  import opened Resolution

  datatype State = State(
    boxes: Option<seq<BoundingBoxEntry>>,
    countryData: map<string, GeoCountry>,
    codeCache: map<Point, Option<string>>,
    store: map<Point, string>
  )

  const Initial := State(None, map[], map[], map[])

  /**
   * `loadCountryGeoBoundingBoxes`: a cached list, even `[]`, counts as
   * loaded; a failed request caches `[]`.
   */
  function LoadCountryGeoBoundingBoxes(s: State, fetched: Option<seq<BoundingBoxEntry>>)
    : (r: (seq<BoundingBoxEntry>, State))
    ensures r.1 == s.(boxes := Some(r.0))
    ensures s.boxes.Some? ==> r.0 == s.boxes.value
    ensures s.boxes.None? ==> r.0 == (if fetched.Some? then fetched.value else [])
  {
    match s.boxes
    case Some(boxes) => (boxes, s)
    case None =>
      var boxes := fetched.GetOr([]);
      (boxes, s.(boxes := Some(boxes)))
  }

  /** A failed first load is never retried: the second response is ignored. */
  lemma FailedBoxesNotRetried(s: State, second: Option<seq<BoundingBoxEntry>>)
    requires s.boxes.None?
    ensures var (boxes, s1) := LoadCountryGeoBoundingBoxes(s, None);
      && boxes == [] && s1.boxes == Some([])
      && LoadCountryGeoBoundingBoxes(s1, second) == ([], s1)
  {
  }

  /** `loadGeoCountry`: wraps a fetched feature with its code and caches nothing. */
  function LoadGeoCountry(code: string, fetched: Option<Feature>): (r: Option<GeoCountry>)
    ensures r.Some? <==> fetched.Some?
    ensures r.Some? ==> r.value.code == code && r.value.feature == fetched.value
  {
    match fetched
    case None => None
    case Some(feature) => Some(GeoCountry(code, feature))
  }

  /**
   * The candidate loop: a cached feature is used as is, otherwise the feature
   * is loaded and, on success, cached by the caller; a failed load skips the
   * candidate. Returns the result and the feature cache afterwards.
   */
  function ResolveCandidates(data: map<string, GeoCountry>, location: Point, cands: seq<BoundingBoxEntry>,
                             fetch: Fetch, pip: PointInPolygon): (r: (Option<string>, map<string, GeoCountry>))
    ensures IsLookupResult(data, fetch, pip, location, cands, r.0)
    ensures ExtendsWithFetched(data, r.1, fetch)
    ensures r.1.Keys <= data.Keys + CodesOf(cands)
    decreases |cands|
  {
    if |cands| == 0 then
      NoMatchResult(data, fetch, pip, location, cands);
      (None, data)
    else
      var code := cands[0].code;
      assert code in CodesOf(cands);
      assert CodesOf(cands[1..]) <= CodesOf(cands) by {
        forall c | c in CodesOf(cands[1..]) ensures c in CodesOf(cands) {
          var i :| 0 <= i < |cands[1..]| && cands[1..][i].code == c;
          assert cands[i + 1].code == c;
        }
      }
      var loaded := if code in data then Some(data[code]) else LoadGeoCountry(code, fetch(code));
      if loaded.None? then
        var rest := ResolveCandidates(data, location, cands[1..], fetch, pip);
        LookupResultCons(data, fetch, pip, location, cands, rest.0);
        rest
      else
        var data' := if code in data then data else data[code := loaded.value];
        assert ExtendsWithFetched(data, data', fetch);
        ExtendingKeepsAvailable(data, data', fetch, code);
        if GeometryContains(pip, location, loaded.value.feature.geometry) then
          FirstMatchResult(data, fetch, pip, location, cands, 0);
          (Some(loaded.value.feature.properties.isoA2), data')
        else
          var rest := ResolveCandidates(data', location, cands[1..], fetch, pip);
          ExtendsTransitive(data, data', rest.1, fetch);
          LookupResultTransfer(data, data', fetch, pip, location, cands[1..], rest.0);
          LookupResultCons(data, fetch, pip, location, cands, rest.0);
          rest
  }

  /**
   * `getCountryCode`: a memoised point (a cached no-match included) returns
   * at once; otherwise the first matching candidate's `ISO_A2` is memoised,
   * published to the store and returned, and a no-match is memoised only.
   */
  function GetCountryCode(s: State, location: Point, fetchedBoxes: Option<seq<BoundingBoxEntry>>,
                          fetch: Fetch, pip: PointInPolygon): (r: (Option<string>, State))
    ensures location in s.codeCache ==> r == (s.codeCache[location], s)
    ensures location in r.1.codeCache && r.1.codeCache[location] == r.0
    ensures location !in s.codeCache ==>
      var boxes := if s.boxes.Some? then s.boxes.value else fetchedBoxes.GetOr([]);
      && r.1.boxes == Some(boxes)
      && r.1.codeCache == s.codeCache[location := r.0]
      && IsLookupResult(s.countryData, fetch, pip, location, Candidates(boxes, location), r.0)
      && ExtendsWithFetched(s.countryData, r.1.countryData, fetch)
      && (r.0.Some? ==> r.1.store == s.store[location := r.0.value])
      && (r.0.None? ==> r.1.store == s.store)
  {
    if location in s.codeCache then (s.codeCache[location], s)
    else
      var (boxes, s1) := LoadCountryGeoBoundingBoxes(s, fetchedBoxes);
      var (found, data) := ResolveCandidates(s1.countryData, location, Candidates(boxes, location), fetch, pip);
      var s2 := s1.(countryData := data, codeCache := s1.codeCache[location := found]);
      match found
      case Some(isoA2) => (found, s2.(store := s2.store[location := isoA2]))
      case None => (found, s2)
  }
}
