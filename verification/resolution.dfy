/**
 * What a country lookup should find, independent of how a revision of the
 * resolver walks its caches: the first bounding-box candidate, in list
 * order, whose geometry contains the point.
 *
 * The geometry fetch is a parameter `fetch`: `None` is a failed request
 * (non-2xx response or network error), `Some(f)` the parsed feature.
 */
module Resolution {
  import opened Wrappers
  import opened Geo

  type Fetch = string -> Option<Feature>

  /**
   * The feature a resolver sees for `code`: the cached one if there is one,
   * otherwise whatever the fetch returns.
   */
  function Available(data: map<string, GeoCountry>, fetch: Fetch, code: string): Option<Feature>
  {
    if code in data then Some(data[code].feature) else fetch(code)
  }

  /** The candidate `code` has a loadable feature whose geometry contains `p`. */
  predicate Matches(data: map<string, GeoCountry>, fetch: Fetch, pip: PointInPolygon, p: Point, code: string)
  {
    var f := Available(data, fetch, code);
    f.Some? && GeometryContains(pip, p, f.value.geometry)
  }

  /** Candidate `i` matches and no earlier candidate does. */
  predicate IsFirstMatch(data: map<string, GeoCountry>, fetch: Fetch, pip: PointInPolygon, p: Point,
                         cands: seq<BoundingBoxEntry>, i: int)
  {
    && 0 <= i < |cands|
    && Matches(data, fetch, pip, p, cands[i].code)
    && forall j :: 0 <= j < i ==> !Matches(data, fetch, pip, p, cands[j].code)
  }

  /**
   * The outcome of a lookup over `cands`: `None` when no candidate matches,
   * otherwise the `ISO_A2` property of the first matching candidate's feature
   * (the feature's property, not the bounding-box code).
   */
  predicate IsLookupResult(data: map<string, GeoCountry>, fetch: Fetch, pip: PointInPolygon, p: Point,
                           cands: seq<BoundingBoxEntry>, r: Option<string>)
  {
    && (r.None? <==> forall i :: 0 <= i < |cands| ==> !Matches(data, fetch, pip, p, cands[i].code))
    && (r.Some? ==> exists i :: 0 <= i < |cands| && IsFirstMatch(data, fetch, pip, p, cands, i)
                              && r.value == Available(data, fetch, cands[i].code).value.properties.isoA2)
  }

  /**
   * `data'` is `data` plus entries for successfully fetched codes only, each
   * stored under the code it was requested for.
   */
  ghost predicate ExtendsWithFetched(data: map<string, GeoCountry>, data': map<string, GeoCountry>, fetch: Fetch)
  {
    && (forall c :: c in data ==> c in data' && data'[c] == data[c])
    && (forall c :: c in data' && c !in data ==> fetch(c).Some? && data'[c] == GeoCountry(c, fetch(c).value))
  }

  /** Caching a fetched feature does not change what any later candidate sees. */
  lemma ExtendingKeepsAvailable(data: map<string, GeoCountry>, data': map<string, GeoCountry>, fetch: Fetch, code: string)
    requires ExtendsWithFetched(data, data', fetch)
    ensures Available(data', fetch, code) == Available(data, fetch, code)
  {
  }

  /** At most one candidate is the first match. */
  lemma FirstMatchUnique(data: map<string, GeoCountry>, fetch: Fetch, pip: PointInPolygon, p: Point,
                         cands: seq<BoundingBoxEntry>, i: int, j: int)
    requires IsFirstMatch(data, fetch, pip, p, cands, i)
    requires IsFirstMatch(data, fetch, pip, p, cands, j)
    ensures i == j
  {
  }

  /** When no candidate matches, "no match" is the lookup result. */
  lemma NoMatchResult(data: map<string, GeoCountry>, fetch: Fetch, pip: PointInPolygon, p: Point,
                      cands: seq<BoundingBoxEntry>)
    requires forall j :: 0 <= j < |cands| ==> !Matches(data, fetch, pip, p, cands[j].code)
    ensures IsLookupResult(data, fetch, pip, p, cands, None)
  {
  }

  /** The first match's `ISO_A2` is the lookup result. */
  lemma FirstMatchResult(data: map<string, GeoCountry>, fetch: Fetch, pip: PointInPolygon, p: Point,
                         cands: seq<BoundingBoxEntry>, k: int)
    requires IsFirstMatch(data, fetch, pip, p, cands, k)
    ensures IsLookupResult(data, fetch, pip, p, cands, Some(Available(data, fetch, cands[k].code).value.properties.isoA2))
  {
  }

  /** The lookup result is unique, so every resolver that meets it agrees with every other. */
  lemma {:induction false} LookupResultUnique(data: map<string, GeoCountry>, fetch: Fetch, pip: PointInPolygon, p: Point,
                           cands: seq<BoundingBoxEntry>, r1: Option<string>, r2: Option<string>)
    requires IsLookupResult(data, fetch, pip, p, cands, r1)
    requires IsLookupResult(data, fetch, pip, p, cands, r2)
    ensures r1 == r2
  {
    if r1.Some? && r2.Some? {
      var i :| 0 <= i < |cands| && IsFirstMatch(data, fetch, pip, p, cands, i)
                && r1.value == Available(data, fetch, cands[i].code).value.properties.isoA2;
      var j :| 0 <= j < |cands| && IsFirstMatch(data, fetch, pip, p, cands, j)
                && r2.value == Available(data, fetch, cands[j].code).value.properties.isoA2;
      FirstMatchUnique(data, fetch, pip, p, cands, i, j);
    }
  }

  /** Extending a cache with fetched entries twice is extending it with fetched entries. */
  lemma ExtendsTransitive(d1: map<string, GeoCountry>, d2: map<string, GeoCountry>, d3: map<string, GeoCountry>, fetch: Fetch)
    requires ExtendsWithFetched(d1, d2, fetch) && ExtendsWithFetched(d2, d3, fetch)
    ensures ExtendsWithFetched(d1, d3, fetch)
  {
  }

  /** A lookup over the candidates after a non-matching head is the lookup over all of them. */
  lemma {:induction false} LookupResultCons(data: map<string, GeoCountry>, fetch: Fetch, pip: PointInPolygon, p: Point,
                         cands: seq<BoundingBoxEntry>, r: Option<string>)
    requires |cands| > 0 && !Matches(data, fetch, pip, p, cands[0].code)
    requires IsLookupResult(data, fetch, pip, p, cands[1..], r)
    ensures IsLookupResult(data, fetch, pip, p, cands, r)
  {
    var tail := cands[1..];
    assert forall i :: 1 <= i < |cands| ==> cands[i] == tail[i - 1];
    if r.Some? {
      var i :| 0 <= i < |tail| && IsFirstMatch(data, fetch, pip, p, tail, i)
                && r.value == Available(data, fetch, tail[i].code).value.properties.isoA2;
      assert IsFirstMatch(data, fetch, pip, p, cands, i + 1);
    }
  }

  /** The lookup result does not depend on which fetched features are already cached. */
  lemma {:induction false} LookupResultTransfer(data: map<string, GeoCountry>, data': map<string, GeoCountry>, fetch: Fetch,
                             pip: PointInPolygon, p: Point, cands: seq<BoundingBoxEntry>, r: Option<string>)
    requires ExtendsWithFetched(data, data', fetch)
    requires IsLookupResult(data', fetch, pip, p, cands, r)
    ensures IsLookupResult(data, fetch, pip, p, cands, r)
  {
    forall code: string
      ensures Available(data', fetch, code) == Available(data, fetch, code)
    {
      ExtendingKeepsAvailable(data, data', fetch, code);
    }
    assert forall code :: Matches(data', fetch, pip, p, code) == Matches(data, fetch, pip, p, code);
    if r.Some? {
      var i :| 0 <= i < |cands| && IsFirstMatch(data', fetch, pip, p, cands, i)
                && r.value == Available(data', fetch, cands[i].code).value.properties.isoA2;
      assert IsFirstMatch(data, fetch, pip, p, cands, i);
    }
  }
}
