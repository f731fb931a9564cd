/**
 * Even-odd ray casting over polygons -> rings -> edges, with one `inside`
 * flag shared by every ring of every polygon.
 *
 * The ray leaves the point towards increasing longitude. The edge between
 * `ring[i]` and the point before it, `ring[j]`, is crossed when the two
 * endpoints lie on different sides of the point's latitude and the edge's
 * longitude at that latitude is greater than the point's.
 */
module PolygonUtil {
  import opened Geo

  /** The edge from `a` to `b` straddles latitude `y` (one end strictly above, the other not). */
  predicate Straddles(a: Point, b: Point, y: real)
  {
    (a.lat > y) != (b.lat > y)
  }

  function Min(x: real, y: real): real { if x <= y then x else y }
  function Max(x: real, y: real): real { if x <= y then y else x }

  /** The longitude at which the line through `a` and `b` meets latitude `y`. */
  function Intercept(a: Point, b: Point, y: real): real
    requires Straddles(a, b, y)
  {
    (b.lon - a.lon) * (y - a.lat) / (b.lat - a.lat) + a.lon
  }

  /**
   * Straddling forces `a.lat != b.lat`, so the intercept is defined; it lies on
   * the line through the edge and between the edge's two longitudes.
   */
  lemma {:induction false} InterceptOnSegment(a: Point, b: Point, y: real)
    requires Straddles(a, b, y)
    ensures a.lat != b.lat
    ensures (Intercept(a, b, y) - a.lon) * (b.lat - a.lat) == (b.lon - a.lon) * (y - a.lat)
    ensures Min(a.lon, b.lon) <= Intercept(a, b, y) <= Max(a.lon, b.lon)
  {
    var d := b.lat - a.lat;
    var n := y - a.lat;
    QuotientInUnit(n, d);
    DivTimes((b.lon - a.lon) * n, d);
    MulDiv(b.lon - a.lon, n, d);
    InterceptBetween(a.lon, b.lon, n / d);
  }

  /** Between the endpoints' latitudes, the fraction of the edge travelled lies in [0, 1]. */
  lemma {:induction false} QuotientInUnit(n: real, d: real)
    requires (0.0 <= n < d) || (d <= n < 0.0)
    ensures 0.0 <= n / d <= 1.0
  {
    var t := n / d;
    assert t * d == n;
  }

  lemma DivTimes(u: real, d: real)
    requires d != 0.0
    ensures (u / d) * d == u
  {
  }

  lemma MulDiv(c: real, n: real, d: real)
    requires d != 0.0
    ensures c * n / d == c * (n / d)
  {
  }

  lemma {:induction false} InterceptBetween(xa: real, xb: real, t: real)
    requires 0.0 <= t <= 1.0
    ensures Min(xa, xb) <= (xb - xa) * t + xa <= Max(xa, xb)
  {
    var c := xb - xa;
    MulNonNegative(if c >= 0.0 then c else -c, t);
    MulNonNegative(if c >= 0.0 then c else -c, 1.0 - t);
    assert c * (1.0 - t) == c - c * t;
    if c >= 0.0 {
      assert 0.0 <= c * t <= c;
      assert Min(xa, xb) == xa && Max(xa, xb) == xb;
    } else {
      assert (-c) * t == -(c * t);
      assert (-c) * (1.0 - t) == -(c * (1.0 - t));
      assert c <= c * t <= 0.0;
      assert Min(xa, xb) == xb && Max(xa, xb) == xa;
    }
  }

  lemma MulNonNegative(u: real, v: real)
    requires 0.0 <= u && 0.0 <= v
    ensures 0.0 <= u * v
  {
  }

  /**
   * The source's edge test on raw coordinates: `(xi, yi)` is `ring[i]`,
   * `(xj, yj)` is `ring[j]`, `(x, y)` the point. The division is reached only
   * when the edge straddles `y`, which rules out `yi == yj`.
   */
  function EdgeIntersects(xi: real, yi: real, xj: real, yj: real, x: real, y: real): (r: bool)
    ensures yi == yj ==> !r
  {
    (yi > y) != (yj > y) && x < (xj - xi) * (y - yi) / (yj - yi) + xi
  }

  /** The ray from `p` crosses the edge `(a, b)`; `a` is `ring[i]`, `b` is `ring[j]`. */
  function Crosses(p: Point, a: Point, b: Point): bool
  {
    EdgeIntersects(a.lon, a.lat, b.lon, b.lat, p.lon, p.lat)
  }

  /**
   * An edge is crossed exactly when it straddles the point's latitude and its
   * intercept lies strictly to the right of the point; horizontal edges and
   * edges entirely to the left are never crossed.
   */
  lemma {:induction false} CrossingMeaning(p: Point, a: Point, b: Point)
    ensures Crosses(p, a, b) <==> Straddles(a, b, p.lat) && p.lon < Intercept(a, b, p.lat)
    ensures a.lat == b.lat ==> !Crosses(p, a, b)
    ensures Crosses(p, a, b) ==> p.lon < Max(a.lon, b.lon)
  {
    if Straddles(a, b, p.lat) {
      assert Crosses(p, a, b) == (p.lon < Intercept(a, b, p.lat));
      InterceptOnSegment(a, b, p.lat);
    } else {
      assert !Crosses(p, a, b);
    }
  }

  /** The index of the point before `i` on a closed ring of `n` points. */
  function Prev(i: nat, n: nat): (j: nat)
    requires i < n
    ensures j < n
    ensures i == 0 ==> j == n - 1
    ensures i > 0 ==> j == i - 1
  {
    if i == 0 then n - 1 else i - 1
  }

  /** The number of crossed edges among the edges ending at `ring[0..k)`. */
  function EdgeCrossings(p: Point, ring: Ring, k: nat): nat
    requires k <= |ring|
  {
    if k == 0 then 0
    else EdgeCrossings(p, ring, k - 1) + (if Crosses(p, ring[k - 1], ring[Prev(k - 1, |ring|)]) then 1 else 0)
  }

  function RingCrossings(p: Point, ring: Ring): nat
  {
    EdgeCrossings(p, ring, |ring|)
  }

  function RingsCrossings(p: Point, rings: PolygonRings): nat
  {
    if |rings| == 0 then 0
    else RingsCrossings(p, rings[..|rings| - 1]) + RingCrossings(p, rings[|rings| - 1])
  }

  function PolygonsCrossings(p: Point, polygons: seq<PolygonRings>): nat
  {
    if |polygons| == 0 then 0
    else PolygonsCrossings(p, polygons[..|polygons| - 1]) + RingsCrossings(p, polygons[|polygons| - 1])
  }

  /** The even-odd rule over every edge of every ring of every polygon. */
  predicate Inside(p: Point, polygons: seq<PolygonRings>)
  {
    PolygonsCrossings(p, polygons) % 2 == 1
  }

  /**
   * The inner loop of `isPointInPolygon` over one ring: the flag is flipped
   * once per crossed edge, each edge running from `ring[j]` to `ring[i]` with
   * `j` the index before `i` on the closed ring.
   */
  method FlipAlongRing(point: Point, ring: Ring, inside0: bool) returns (inside: bool)
    ensures inside <==> (inside0 != (RingCrossings(point, ring) % 2 == 1))
  {
    var x := point.lon;
    var y := point.lat;
    inside := inside0;
    var j := |ring| - 1;
    var i := 0;
    while i < |ring|
      invariant 0 <= i <= |ring|
      invariant i == 0 ==> j == |ring| - 1
      invariant i > 0 ==> j == i - 1
      invariant inside <==> (inside0 != (EdgeCrossings(point, ring, i) % 2 == 1))
    {
      var xi := ring[i].lon;
      var yi := ring[i].lat;
      var xj := ring[j].lon;
      var yj := ring[j].lat;
      var intersect := EdgeIntersects(xi, yi, xj, yj, x, y);
      if intersect {
        inside := !inside;
      }
      j := i;
      i := i + 1;
    }
  }

  /** The loop of `isPointInPolygon` over the rings of one polygon. */
  method FlipAlongPolygon(point: Point, polygon: PolygonRings, inside0: bool) returns (inside: bool)
    ensures inside <==> (inside0 != (RingsCrossings(point, polygon) % 2 == 1))
  {
    inside := inside0;
    var ri := 0;
    while ri < |polygon|
      invariant 0 <= ri <= |polygon|
      invariant inside <==> (inside0 != (RingsCrossings(point, polygon[..ri]) % 2 == 1))
    {
      inside := FlipAlongRing(point, polygon[ri], inside);
      assert polygon[..ri + 1][..ri] == polygon[..ri];
      ParityOfSum(RingsCrossings(point, polygon[..ri]), RingCrossings(point, polygon[ri]));
      ri := ri + 1;
    }
    assert polygon[..|polygon|] == polygon;
  }

  /** `isPointInPolygon`: the shared flag ends up as the parity of the crossing count. */
  method IsPointInPolygon(point: Point, coordinates: seq<PolygonRings>) returns (inside: bool)
    ensures inside <==> Inside(point, coordinates)
  {
    inside := false;
    var pi := 0;
    while pi < |coordinates|
      invariant 0 <= pi <= |coordinates|
      invariant inside <==> PolygonsCrossings(point, coordinates[..pi]) % 2 == 1
    {
      inside := FlipAlongPolygon(point, coordinates[pi], inside);
      assert coordinates[..pi + 1][..pi] == coordinates[..pi];
      ParityOfSum(PolygonsCrossings(point, coordinates[..pi]), RingsCrossings(point, coordinates[pi]));
      pi := pi + 1;
    }
    assert coordinates[..|coordinates|] == coordinates;
  }

  /** A sum is odd exactly when one of its two parts is. */
  lemma ParityOfSum(a: nat, b: nat)
    ensures ((a + b) % 2 == 1) == ((a % 2 == 1) != (b % 2 == 1))
  {
  }

  /** Crossing counts add up over a concatenation of polygon lists. */
  lemma {:induction false} PolygonsCrossingsAppend(p: Point, a: seq<PolygonRings>, b: seq<PolygonRings>)
    ensures PolygonsCrossings(p, a + b) == PolygonsCrossings(p, a) + PolygonsCrossings(p, b)
    decreases |b|
  {
    if |b| == 0 {
      assert a + b == a;
    } else {
      var b' := b[..|b| - 1];
      assert (a + b)[..|a + b| - 1] == a + b';
      PolygonsCrossingsAppend(p, a, b');
    }
  }

  /** Crossing counts add up over a concatenation of rings. */
  lemma {:induction false} RingsCrossingsAppend(p: Point, a: PolygonRings, b: PolygonRings)
    ensures RingsCrossings(p, a + b) == RingsCrossings(p, a) + RingsCrossings(p, b)
    decreases |b|
  {
    if |b| == 0 {
      assert a + b == a;
    } else {
      var b' := b[..|b| - 1];
      assert (a + b)[..|a + b| - 1] == a + b';
      RingsCrossingsAppend(p, a, b');
    }
  }

  /**
   * Because the flag is shared, the result over two polygon lists is the
   * exclusive or of the results over each list.
   */
  lemma {:induction false} SharedFlagIsExclusiveOr(p: Point, a: seq<PolygonRings>, b: seq<PolygonRings>)
    ensures Inside(p, a + b) <==> (Inside(p, a) != Inside(p, b))
  {
    PolygonsCrossingsAppend(p, a, b);
  }

  /** A point inside two overlapping polygons comes out as outside. */
  lemma {:induction false} OverlapIsOutside(p: Point, first: PolygonRings, second: PolygonRings)
    requires Inside(p, [first]) && Inside(p, [second])
    ensures !Inside(p, [first, second])
  {
    assert [first, second] == [first] + [second];
    SharedFlagIsExclusiveOr(p, [first], [second]);
  }

  /** A point inside both the outer ring and a hole ring of one polygon comes out as outside. */
  lemma {:induction false} HoleIsOutside(p: Point, outer: Ring, hole: Ring)
    requires RingCrossings(p, outer) % 2 == 1 && RingCrossings(p, hole) % 2 == 1
    ensures !Inside(p, [[outer, hole]])
  {
    assert [outer, hole][..1] == [outer];
    assert [outer][..0] == [];
    assert RingsCrossings(p, [outer]) == RingCrossings(p, outer);
    assert RingsCrossings(p, [outer, hole]) == RingCrossings(p, outer) + RingCrossings(p, hole);
    assert [[outer, hole]][..0] == [];
    assert PolygonsCrossings(p, [[outer, hole]]) == RingsCrossings(p, [outer, hole]);
  }

  /** A ring with no points has no edges. */
  lemma {:induction false} NoRingsNoCrossings(p: Point, rings: PolygonRings)
    requires forall k :: 0 <= k < |rings| ==> |rings[k]| == 0
    ensures RingsCrossings(p, rings) == 0
    decreases |rings|
  {
    if |rings| > 0 {
      NoRingsNoCrossings(p, rings[..|rings| - 1]);
    }
  }

  /** Empty coordinates, or coordinates made only of empty rings, give `false`. */
  lemma {:induction false} EmptyRingsAreOutside(p: Point, polygons: seq<PolygonRings>)
    requires forall k, l :: 0 <= k < |polygons| && 0 <= l < |polygons[k]| ==> |polygons[k][l]| == 0
    ensures PolygonsCrossings(p, polygons) == 0
    ensures !Inside(p, polygons)
    decreases |polygons|
  {
    if |polygons| > 0 {
      EmptyRingsAreOutside(p, polygons[..|polygons| - 1]);
      NoRingsNoCrossings(p, polygons[|polygons| - 1]);
    }
  }

  /** The unit square contains its centre and not a point to its right. */
  lemma {:induction false} UnitSquare()
    ensures var square := [Point(0.0, 0.0), Point(0.0, 1.0), Point(1.0, 1.0), Point(1.0, 0.0)];
      && Inside(Point(0.5, 0.5), [[square]])
      && !Inside(Point(1.5, 0.5), [[square]])
  {
    var square := [Point(0.0, 0.0), Point(0.0, 1.0), Point(1.0, 1.0), Point(1.0, 0.0)];
    var centre: Point, right: Point := Point(0.5, 0.5), Point(1.5, 0.5);
    assert !Crosses(centre, square[0], square[3]) && !Crosses(right, square[0], square[3]);
    assert !Crosses(centre, square[1], square[0]) && !Crosses(right, square[1], square[0]);
    assert !Crosses(centre, square[2], square[1]) && !Crosses(right, square[2], square[1]);
    assert Crosses(centre, square[3], square[2]) && !Crosses(right, square[3], square[2]);
    assert EdgeCrossings(centre, square, 4) == 1;
    assert EdgeCrossings(right, square, 4) == 0;
    var rings: PolygonRings := [square];
    var polygons: seq<PolygonRings> := [rings];
    assert rings[..0] == [];
    assert polygons[..0] == [];
    assert RingsCrossings(centre, rings) == RingCrossings(centre, square);
    assert RingsCrossings(right, rings) == RingCrossings(right, square);
    assert PolygonsCrossings(centre, polygons) == RingsCrossings(centre, rings);
    assert PolygonsCrossings(right, polygons) == RingsCrossings(right, rings);
  }
}
