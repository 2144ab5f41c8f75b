/** The polygon test against references of its own: counted edges, rectangles, and points taken out. */
module PolygonReference {
  import opened Polygon

  /* ---- Even-odd, by counting edges ---- */

  /**
   * The edge between a and b has p's latitude, its lower end excluded, and p lies strictly east of the
   * line through them: the sign of a cross product, without any division.
   */
  predicate EastOfEdge(a: Point, b: Point, p: Point)
  {
    a.lat != b.lat &&
    var lower, upper := if a.lat < b.lat then a else b, if a.lat < b.lat then b else a;
    && lower.lat < p.lat <= upper.lat
    && (p.lon - lower.lon) * (upper.lat - lower.lat) > (upper.lon - lower.lon) * (p.lat - lower.lat)
  }

  lemma CrossesIsEastOfEdge(a: Point, b: Point, p: Point)
    ensures Crosses(a, b, p) <==> EastOfEdge(a, b, p)
  {
    if a.lat < b.lat {
      CrossesSymmetric(a, b, p);
      UpwardEdge(b, a, p);
    } else if b.lat < a.lat {
      UpwardEdge(a, b, p);
    }
    hide CrossingLon;
  }

  lemma UpwardEdge(upper: Point, lower: Point, p: Point)
    requires lower.lat < upper.lat
    ensures Crosses(upper, lower, p) <==> EastOfEdge(upper, lower, p)
  {
    var d, u, w := upper.lat - lower.lat, p.lat - lower.lat, upper.lon - lower.lon;
    OverPositive(w * u, d, p.lon - lower.lon);
  }

  lemma OverPositive(n: real, d: real, x: real)
    requires d > 0.0
    ensures x > n / d <==> x * d > n
  {
    var q := n / d;
    assert q * d == n;
    if x > q { Scaled(q, x, d); }
    if x < q { Scaled(x, q, d); }
  }

  lemma Scaled(x: real, y: real, d: real)
    requires d > 0.0 && x < y
    ensures x * d < y * d
  {
    assert (y - x) * d > 0.0;
  }

  /** Edge i leads from point i - 1 to point i of the chain. */
  predicate EastOfEdgeAt(chain: seq<Point>, i: nat, p: Point)
  {
    0 < i < |chain| && EastOfEdge(chain[i], chain[i - 1], p)
  }

  function EdgesWest(chain: seq<Point>, p: Point): set<nat>
  {
    set i: nat | i < |chain| && EastOfEdgeAt(chain, i, p)
  }

  /** The boundary of a polygon, starting and ending at its last vertex. */
  function Boundary(poly: seq<Point>): seq<Point>
  {
    if poly == [] then [] else [poly[|poly| - 1]] + poly
  }

  lemma {:induction false} ParityCounts(chain: seq<Point>, p: Point)
    ensures Parity(chain, p) <==> |EdgesWest(chain, p)| % 2 == 1
  {
    hide EastOfEdge, Crosses;
    if |chain| < 2 {
      assert EdgesWest(chain, p) == {};
    } else {
      var n := |chain| - 1;
      ParityCounts(chain[..n], p);
      OneMoreEdge(chain, p);
      hide EdgesWest;
      OneMoreParity(chain, p);
    }
  }

  lemma OneMoreParity(chain: seq<Point>, p: Point)
    requires |chain| >= 2
    ensures var n := |chain| - 1;
            Parity(chain, p) == Xor(Parity(chain[..n], p), EastOfEdge(chain[n], chain[n - 1], p))
  {
    hide EastOfEdge, Crosses;
    var n := |chain| - 1;
    var before := chain[..n];
    assert chain == before + [chain[n]];
    ParityConcat(before, [chain[n]], p);
    CrossesIsEastOfEdge(chain[n], chain[n - 1], p);
    CrossesSymmetric(chain[n], chain[n - 1], p);
  }

  lemma OneMoreEdge(chain: seq<Point>, p: Point)
    requires |chain| >= 2
    ensures var n := |chain| - 1;
            |EdgesWest(chain, p)| == |EdgesWest(chain[..n], p)| + if EastOfEdge(chain[n], chain[n - 1], p) then 1 else 0
  {
    hide EastOfEdge;
    var n := |chain| - 1;
    var before, all := EdgesWest(chain[..n], p), EdgesWest(chain, p);
    assert n !in before;
    assert all == if EastOfEdge(chain[n], chain[n - 1], p) then before + {n} else before;
  }

  /** A point is inside a polygon exactly when it is east of an odd number of its edges. */
  lemma InsideIsEvenOdd(poly: seq<Point>, p: Point)
    ensures Inside(poly, p) <==> |EdgesWest(Boundary(poly), p)| % 2 == 1
  {
    ParityCounts(Boundary(poly), p);
    hide EdgesWest;
    assert poly == [] ==> Parity(Boundary(poly), p) == false;
  }

  /** What the code reports, in these terms: the enabled vertices and the point, those west of Greenwich moved by the offset. */
  lemma InPolygonIsEvenOdd(points: seq<PolygonPoint>, lat: real, lon: real)
    requires points != []
    ensures var offset := Offset(points);
            InPolygon(points, lat, lon)
            <==> |EdgesWest(Boundary(ShiftAll(Enabled(points), offset)), Point(lat, if lon < 0.0 then lon + offset else lon))| % 2 == 1
  {
    InsideIsEvenOdd(ShiftAll(Enabled(points), Offset(points)), Point(lat, Shift(lon, Offset(points))));
  }

  /* ---- Rectangles ---- */

  function Corners(south: real, west: real, north: real, east: real): seq<PolygonPoint>
  {
    [PolygonPoint(south, west, true), PolygonPoint(north, west, true), PolygonPoint(north, east, true), PolygonPoint(south, east, true)]
  }

  lemma CornersEnabled(south: real, west: real, north: real, east: real)
    ensures Enabled(Corners(south, west, north, east)) == [Point(south, west), Point(north, west), Point(north, east), Point(south, east)]
  {
    var c := Corners(south, west, north, east);
    assert c[1..] == [c[1], c[2], c[3]] && c[1..][1..] == [c[2], c[3]] && c[1..][1..][1..] == [c[3]];
    assert Enabled([c[3]]) == [Point(south, east)];
    assert Enabled([c[2], c[3]]) == [Point(north, east), Point(south, east)];
    assert Enabled([c[1], c[2], c[3]]) == [Point(north, west), Point(north, east), Point(south, east)];
  }

  lemma CornersOffset(south: real, west: real, north: real, east: real)
    requires west < east
    ensures Offset(Corners(south, west, north, east)) == if east - west > 180.0 then 360.0 else 0.0
  {
    var c := Corners(south, west, north, east);
    assert c[0] in c && c[2] in c;
    assert OffsetLons(c) == {west, east} by {
      assert EnabledLons(c) == {west, east};
    }
  }

  lemma Box(south: real, west: real, north: real, east: real, p: Point)
    requires south < north && west < east
    ensures Inside([Point(south, west), Point(north, west), Point(north, east), Point(south, east)], p)
            <==> south < p.lat <= north && west < p.lon <= east
  {
    var c := [Point(south, west), Point(north, west), Point(north, east), Point(south, east)];
    FourEdges(c, p);
    CrossesIsEastOfEdge(c[0], c[3], p);
    CrossesIsEastOfEdge(c[1], c[0], p);
    CrossesIsEastOfEdge(c[2], c[1], p);
    CrossesIsEastOfEdge(c[3], c[2], p);
    hide Inside, Crosses;
    VerticalEdge(c[1], c[0], p);
    VerticalEdge(c[2], c[3], p);
  }

  lemma VerticalEdge(upper: Point, lower: Point, p: Point)
    requires lower.lat < upper.lat && lower.lon == upper.lon
    ensures EastOfEdge(upper, lower, p) <==> lower.lat < p.lat <= upper.lat && p.lon > lower.lon
    ensures EastOfEdge(lower, upper, p) <==> EastOfEdge(upper, lower, p)
  {
    var d := upper.lat - lower.lat;
    if p.lon > lower.lon { Scaled(lower.lon, p.lon, d); }
    if p.lon < lower.lon { Scaled(p.lon, lower.lon, d); }
    assert (p.lon - lower.lon) * d == p.lon * d - lower.lon * d;
  }

  /**
   * Every rectangle no wider than half the globe holds exactly the points between its sides, north and
   * east sides included, south and west ones not.
   */
  lemma RectangleIsExact(south: real, west: real, north: real, east: real, lat: real, lon: real)
    requires south < north && west < east <= west + 180.0
    ensures InPolygon(Corners(south, west, north, east), lat, lon) <==> south < lat <= north && west < lon <= east
  {
    var points := Corners(south, west, north, east);
    CornersEnabled(south, west, north, east);
    CornersOffset(south, west, north, east);
    Shifted(Enabled(points), 0.0);
    hide Inside, Enabled, Offset;
    Box(south, west, north, east, Point(lat, lon));
  }

  /** A wider one is the rectangle across the dateline: from its east side on to 180 degrees, and from there to its west side. */
  lemma DatelineRectangleIsExact(south: real, west: real, north: real, east: real, lat: real, lon: real)
    requires south < north && -180.0 <= west < 0.0 <= east < 180.0 && east - west > 180.0 && -180.0 <= lon < 180.0
    ensures InPolygon(Corners(south, west, north, east), lat, lon) <==> south < lat <= north && (lon > east || lon <= west)
  {
    var points := Corners(south, west, north, east);
    CornersEnabled(south, west, north, east);
    CornersOffset(south, west, north, east);
    var poly, p := Enabled(points), Point(lat, Shift(lon, 360.0));
    var moved := ShiftAll(poly, 360.0);
    var c := [Point(south, east), Point(north, east), Point(north, west + 360.0), Point(south, west + 360.0)];
    assert moved == [c[3], c[2], c[1], c[0]];
    assert Reversed(moved) == c;
    hide Enabled, Offset, Inside;
    InsideReversed(moved, p);
    Box(south, east, north, west + 360.0, p);
  }

  /* ---- Disabled points ---- */

  lemma EnabledUnfolds(points: seq<PolygonPoint>)
    ensures points == [] ==> Enabled(points) == []
    ensures points != [] ==>
              Enabled(points) == (if points[0].enable then [Point(points[0].lat, points[0].lon)] else []) + Enabled(points[1..])
  {
  }

  lemma {:induction false} EnabledConcat(a: seq<PolygonPoint>, b: seq<PolygonPoint>)
    ensures Enabled(a + b) == Enabled(a) + Enabled(b)
  {
    hide Enabled;
    EnabledUnfolds(a);
    if a == [] {
      assert a + b == b;
    } else {
      EnabledUnfolds(a + b);
      EnabledConcat(a[1..], b);
      assert (a + b)[0] == a[0] && (a + b)[1..] == a[1..] + b;
    }
  }

  /** A disabled point anywhere but in front changes no answer. */
  lemma DisabledIsIgnored(a: seq<PolygonPoint>, d: PolygonPoint, b: seq<PolygonPoint>, lat: real, lon: real)
    requires a != [] && !d.enable
    ensures InPolygon(a + [d] + b, lat, lon) == InPolygon(a + b, lat, lon)
  {
    EnabledConcat(a + [d], b);
    EnabledConcat(a, [d]);
    EnabledConcat(a, b);
    assert Enabled([d]) == [];
    assert Enabled(a + [d] + b) == Enabled(a + b);
    var with', without := a + [d] + b, a + b;
    assert forall q: PolygonPoint :: q.enable ==> (q in with' <==> q in without);
    assert EnabledLons(with') == EnabledLons(without);
    hide Enabled;
  }
}
