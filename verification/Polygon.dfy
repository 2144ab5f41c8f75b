/** The even-odd polygon test of a geofence zone, over reals. */
module Polygon {

  datatype Point = Point(lat: real, lon: real)
  datatype PolygonPoint = PolygonPoint(lat: real, lon: real, enable: bool)

  function Enabled(points: seq<PolygonPoint>): seq<Point>
  {
    if points == [] then []
    else (if points[0].enable then [Point(points[0].lat, points[0].lon)] else []) + Enabled(points[1..])
  }

  /** Longitudes west of Greenwich move east by the dateline offset. */
  function Shift(lon: real, offset: real): real
  {
    if lon < 0.0 then lon + offset else lon
  }

  function ShiftPoint(p: Point, offset: real): Point
  {
    Point(p.lat, Shift(p.lon, offset))
  }

  /** The edge's latitudes lie on different sides of p's, an edge end on that latitude counting as above. */
  predicate Straddles(a: Point, b: Point, p: Point)
  {
    (a.lat < p.lat && b.lat >= p.lat) || (b.lat < p.lat && a.lat >= p.lat)
  }

  /** Where the edge from b to a meets p's latitude. */
  function CrossingLon(a: Point, b: Point, p: Point): real
    requires a.lat != b.lat
  {
    b.lon + (a.lon - b.lon) * (p.lat - b.lat) / (a.lat - b.lat)
  }

  /** p lies to the right of an edge that straddles its latitude. */
  predicate Crosses(a: Point, b: Point, p: Point)
  {
    Straddles(a, b, p) && p.lon > CrossingLon(a, b, p)
  }

  lemma CrossesSymmetric(a: Point, b: Point, p: Point)
    ensures Crosses(a, b, p) == Crosses(b, a, p)
  {
    if Straddles(a, b, p) {
      CrossingSymmetric(a, b, p);
    }
    hide CrossingLon;
  }

  lemma CrossingSymmetric(a: Point, b: Point, p: Point)
    requires a.lat != b.lat
    ensures CrossingLon(a, b, p) == CrossingLon(b, a, p)
  {
    SameCrossing(a.lon, a.lat, b.lon, b.lat, p.lat);
  }

  lemma SameCrossing(x: real, s: real, y: real, t: real, u: real)
    requires s != t
    ensures y + (x - y) * (u - t) / (s - t) == x + (y - x) * (u - s) / (t - s)
  {
    var d := s - t;
    var q := (x - y) * (u - t) / d;
    var r := (y - x) * (u - s) / (t - s);
    assert q * d == (x - y) * (u - t);
    assert r * (t - s) == (y - x) * (u - s);
    assert r * d == (x - y) * (u - s);
    assert (q - r) * d == (x - y) * d;
    Cancel(q - r, x - y, d);
  }

  lemma Cancel(a: real, b: real, d: real)
    requires d != 0.0 && a * d == b * d
    ensures a == b
  {
  }

  /* ---- Chains of edges ---- */

  function Xor(a: bool, b: bool): bool { a != b }

  /** Whether p is to the right of an odd number of the chain's edges. */
  function Parity(chain: seq<Point>, p: Point): bool
  {
    if |chain| < 2 then false else Xor(Crosses(chain[1], chain[0], p), Parity(chain[1..], p))
  }

  /** The even-odd rule on the closed polygon: the chain that starts at the last vertex. */
  function Inside(poly: seq<Point>, p: Point): bool
  {
    if poly == [] then false else Parity([poly[|poly| - 1]] + poly, p)
  }

  lemma {:induction false} ParityJoin(s: seq<Point>, x: Point, t: seq<Point>, p: Point)
    ensures Parity(s + [x] + t, p) == Xor(Parity(s + [x], p), Parity([x] + t, p))
  {
    if s == [] {
      assert s + [x] + t == [x] + t && s + [x] == [x];
    } else {
      ParityJoin(s[1..], x, t, p);
      assert (s + [x] + t)[1..] == s[1..] + [x] + t;
      assert (s + [x])[1..] == s[1..] + [x];
    }
  }

  lemma ParityEdge(x: Point, y: Point, p: Point)
    ensures Parity([x, y], p) == Crosses(x, y, p) == Crosses(y, x, p)
  {
    CrossesSymmetric(x, y, p);
    hide Crosses;
    assert [x, y][1..] == [y];
  }

  /** The closed polygon is the open chain and the edge that closes it. */
  lemma InsideIsChainAndEdge(poly: seq<Point>, p: Point)
    requires poly != []
    ensures Inside(poly, p) == Xor(Parity(poly, p), Crosses(poly[|poly| - 1], poly[0], p))
  {
    var last := poly[|poly| - 1];
    ParityJoin([last], poly[0], poly[1..], p);
    assert [last] + [poly[0]] + poly[1..] == [last] + poly;
    assert [poly[0]] + poly[1..] == poly;
    assert [last] + [poly[0]] == [last, poly[0]];
    ParityEdge(last, poly[0], p);
  }

  /** Two non-empty chains in a row: their edges and the one between them. */
  lemma ParityConcat(a: seq<Point>, b: seq<Point>, p: Point)
    requires a != [] && b != []
    ensures Parity(a + b, p) == Xor(Xor(Parity(a, p), Crosses(a[|a| - 1], b[0], p)), Parity(b, p))
  {
    var x, y := a[|a| - 1], b[0];
    var s, t := a[..|a| - 1], b[1..];
    assert a == s + [x] && b == [y] + t;
    assert a + b == s + [x] + b;
    ParityJoin(s, x, b, p);
    assert [x] + b == [x] + [y] + t;
    ParityJoin([x], y, t, p);
    assert [x] + [y] == [x, y];
    ParityEdge(x, y, p);
  }

  /** Starting the polygon at another vertex changes nothing. */
  lemma InsideRotated(a: seq<Point>, b: seq<Point>, p: Point)
    ensures Inside(a + b, p) == Inside(b + a, p)
  {
    if a == [] || b == [] {
      assert a == [] ==> a + b == b && b + a == b;
      assert b == [] ==> a + b == a && b + a == a;
    } else {
      InsideIsChainAndEdge(a + b, p);
      InsideIsChainAndEdge(b + a, p);
      ParityConcat(a, b, p);
      ParityConcat(b, a, p);
    }
  }

  function Reversed(s: seq<Point>): (r: seq<Point>)
    ensures |r| == |s|
    ensures forall i :: 0 <= i < |s| ==> r[i] == s[|s| - 1 - i]
  {
    if s == [] then [] else Reversed(s[1..]) + [s[0]]
  }

  lemma {:induction false} ParityReversed(s: seq<Point>, p: Point)
    ensures Parity(Reversed(s), p) == Parity(s, p)
  {
    if |s| >= 2 {
      ParityReversed(s[1..], p);
      ParityConcat(Reversed(s[1..]), [s[0]], p);
      CrossesSymmetric(s[0], s[1], p);
    }
  }

  /** Walking the polygon the other way round changes nothing. */
  lemma InsideReversed(poly: seq<Point>, p: Point)
    ensures Inside(Reversed(poly), p) == Inside(poly, p)
  {
    if poly != [] {
      InsideIsChainAndEdge(poly, p);
      InsideIsChainAndEdge(Reversed(poly), p);
      ParityReversed(poly, p);
      CrossesSymmetric(poly[0], poly[|poly| - 1], p);
    }
  }

  lemma InsideTwoHalves(a: seq<Point>, b: seq<Point>, p: Point)
    requires a != [] && b != []
    ensures Inside(a + b, p) == Xor(Inside(a + [b[0]], p), Inside(b + [a[0]], p))
  {
    hide Inside, Parity, Crosses;
    var x, y := a[0], b[0];
    InsideIsChainAndEdge(a + b, p);
    InsideIsChainAndEdge(a + [y], p);
    InsideIsChainAndEdge(b + [x], p);
    ParityConcat(a, b, p);
    ParityConcat(a, [y], p);
    ParityConcat(b, [x], p);
    NoEdges(x, p);
    NoEdges(y, p);
    CrossesSymmetric(x, y, p);
  }

  lemma NoEdges(x: Point, p: Point)
    ensures !Parity([x], p)
  {
  }

  /** Cutting a polygon along a chord between its vertices i and j: the chord counts twice and cancels. */
  lemma InsideCut(poly: seq<Point>, i: nat, j: nat, p: Point)
    requires i < j < |poly|
    ensures Inside(poly, p) == Xor(Inside(poly[i..j + 1], p), Inside(poly[j..] + poly[..i + 1], p))
  {
    hide Inside;
    var a, b := poly[i..j], poly[j..] + poly[..i];
    InsideRotated(poly[..i], poly[i..], p);
    assert poly == poly[..i] + poly[i..];
    assert poly[i..] + poly[..i] == a + b;
    InsideTwoHalves(a, b, p);
    assert poly[i..j + 1] == a + [b[0]];
    assert poly[j..] + poly[..i + 1] == b + [a[0]];
  }

  /* ---- The bounding box ---- */

  /** p lies strictly above, below, left or right of every vertex. */
  predicate OutsideBox(poly: seq<Point>, p: Point)
  {
    || (forall v :: v in poly ==> v.lat < p.lat)
    || (forall v :: v in poly ==> p.lat < v.lat)
    || (forall v :: v in poly ==> p.lon < v.lon)
    || (forall v :: v in poly ==> v.lon < p.lon)
  }

  /** An edge meets the latitude of p between its ends. */
  lemma CrossingIsBetween(a: Point, b: Point, p: Point)
    requires Straddles(a, b, p)
    ensures (a.lon <= CrossingLon(a, b, p) <= b.lon) || (b.lon <= CrossingLon(a, b, p) <= a.lon)
  {
    var d, u, w := a.lat - b.lat, p.lat - b.lat, a.lon - b.lon;
    FractionBetween(w, u, d);
  }

  lemma FractionBetween(w: real, u: real, d: real)
    requires (0.0 <= u <= d && d != 0.0) || (d <= u <= 0.0 && d != 0.0)
    ensures (0.0 <= w * u / d <= w) || (w <= w * u / d <= 0.0)
  {
    var f := u / d;
    assert f * d == u;
    UnitFraction(f, u, d);
    assert w * u == (w * f) * d;
    Quotient(w * u, w * f, d);
    if w >= 0.0 {
      Between(w, f);
    } else {
      Between(-w, f);
      assert (-w) * f == -(w * f);
    }
  }

  lemma UnitFraction(f: real, u: real, d: real)
    requires f * d == u && d != 0.0 && ((0.0 <= u <= d) || (d <= u <= 0.0))
    ensures 0.0 <= f <= 1.0
  {
  }

  lemma Quotient(n: real, q: real, d: real)
    requires d != 0.0 && n == q * d
    ensures n / d == q
  {
    Cancel(n / d, q, d);
  }

  lemma Between(w: real, f: real)
    requires w >= 0.0 && 0.0 <= f <= 1.0
    ensures 0.0 <= w * f <= w
  {
  }

  predicate Below(v: Point, p: Point) { v.lat < p.lat }

  /** To the right of everything each straddling edge counts: an odd number of them separates the chain's ends. */
  lemma {:induction false} RightOfEverything(chain: seq<Point>, p: Point)
    requires chain != [] && forall v :: v in chain ==> v.lon < p.lon
    ensures Parity(chain, p) == Xor(Below(chain[0], p), Below(chain[|chain| - 1], p))
  {
    if |chain| >= 2 {
      RightOfEverything(chain[1..], p);
      var a, b := chain[1], chain[0];
      if Straddles(a, b, p) {
        CrossingIsBetween(a, b, p);
      }
    }
  }

  lemma {:induction false} NothingCrossed(chain: seq<Point>, p: Point)
    requires (forall v :: v in chain ==> v.lat < p.lat) || (forall v :: v in chain ==> p.lat < v.lat)
             || forall v :: v in chain ==> p.lon <= v.lon
    ensures !Parity(chain, p)
  {
    if |chain| >= 2 {
      NothingCrossed(chain[1..], p);
      var a, b := chain[1], chain[0];
      if Straddles(a, b, p) {
        CrossingIsBetween(a, b, p);
      }
    }
  }

  /** A point outside the bounding box is outside the polygon. */
  lemma OutsideBoxIsOutside(poly: seq<Point>, p: Point)
    requires OutsideBox(poly, p)
    ensures !Inside(poly, p)
  {
    if poly != [] {
      var chain := [poly[|poly| - 1]] + poly;
      assert forall v :: v in chain ==> v in poly;
      if forall v :: v in poly ==> v.lon < p.lon {
        RightOfEverything(chain, p);
      } else {
        NothingCrossed(chain, p);
      }
    }
  }

  /* ---- The code's own polygons: disabled points and the dateline ---- */

  /** Some two longitudes are more than half the globe apart. */
  ghost predicate WideSpan(lons: set<real>)
  {
    exists a, b :: a in lons && b in lons && a - b > 180.0
  }

  /** The longitudes that the offset looks at: point 0's, enabled or not, and those of the enabled points. */
  function OffsetLons(points: seq<PolygonPoint>): set<real>
    requires points != []
  {
    {points[0].lon} + EnabledLons(points)
  }

  function EnabledLons(points: seq<PolygonPoint>): set<real>
  {
    set q | q in points && q.enable :: q.lon
  }

  ghost function Offset(points: seq<PolygonPoint>): real
    requires points != []
  {
    if WideSpan(OffsetLons(points)) then 360.0 else 0.0
  }

  function ShiftAll(poly: seq<Point>, offset: real): (r: seq<Point>)
    ensures |r| == |poly|
  {
    seq(|poly|, i requires 0 <= i < |poly| => ShiftPoint(poly[i], offset))
  }

  /** The test that the code performs, with its offset. */
  ghost predicate InPolygon(points: seq<PolygonPoint>, lat: real, lon: real)
    requires points != []
  {
    InsideShifted(Enabled(points), Offset(points), lat, lon)
  }

  predicate InsideShifted(poly: seq<Point>, offset: real, lat: real, lon: real)
  {
    Inside(ShiftAll(poly, offset), Point(lat, Shift(lon, offset)))
  }

  /** Running minimum and maximum, from point 0 whether enabled or not. */
  method CalculateLonDatelineOffset(points: seq<PolygonPoint>) returns (offset: real)
    requires points != []
    ensures offset == Offset(points)
  {
    var min, max := points[0].lon, points[0].lon;
    for i := 0 to |points|
      invariant min in OffsetLons(points) && max in OffsetLons(points)
      invariant min <= points[0].lon <= max
      invariant forall k :: 0 <= k < i && points[k].enable ==> min <= points[k].lon <= max
    {
      var point := points[i];
      if point.enable {
        if point.lon < min { min := point.lon; }
        if point.lon > max { max := point.lon; }
      }
    }
    assert forall a :: a in OffsetLons(points) ==> min <= a <= max;
    var span := if min - max < 0.0 then max - min else min - max;
    offset := if span > 180.0 then 360.0 else 0.0;
  }

  method EnabledPoints(points: seq<PolygonPoint>) returns (enabled: seq<Point>)
    ensures enabled == Enabled(points)
  {
    enabled := [];
    for i := 0 to |points|
      invariant Enabled(points) == enabled + Enabled(points[i..])
    {
      var point := points[i];
      assert points[i..][1..] == points[i + 1..];
      if point.enable {
        enabled := enabled + [Point(point.lat, point.lon)];
      }
    }
  }

  /** The body of the edge loop: vertices i and j, shifted, against the shifted point. */
  method EdgeCrossed(i: Point, j: Point, offset: real, lat: real, pointLon: real) returns (crossed: bool)
    ensures crossed <==> Crosses(ShiftPoint(i, offset), ShiftPoint(j, offset), Point(lat, pointLon))
  {
    var iLon, jLon := i.lon, j.lon;
    if iLon < 0.0 { iLon := iLon + offset; }
    if jLon < 0.0 { jLon := jLon + offset; }
    assert ShiftPoint(i, offset) == Point(i.lat, iLon) && ShiftPoint(j, offset) == Point(j.lat, jLon);
    crossed := false;
    if (i.lat < lat && j.lat >= lat) || (j.lat < lat && i.lat >= lat) {
      var crossing := jLon + (iLon - jLon) * (lat - j.lat) / (i.lat - j.lat);
      assert crossing == CrossingLon(Point(i.lat, iLon), Point(j.lat, jLon), Point(lat, pointLon));
      hide CrossingLon;
      crossed := pointLon > crossing;
    }
  }

  lemma ParityFrom(chain: seq<Point>, i: nat, p: Point)
    requires i + 1 < |chain|
    ensures Parity(chain[i..], p) == Xor(Crosses(chain[i + 1], chain[i], p), Parity(chain[i + 1..], p))
  {
  }

  lemma OnePointLeft(chain: seq<Point>, p: Point)
    requires chain != []
    ensures !Parity(chain[|chain| - 1..], p) && Parity(chain[0..], p) == Parity(chain, p)
  {
  }

  /** The loop over the edges, with its lagging index j, toggling `oddNodes`. */
  method IsPointInPolygon(points: seq<PolygonPoint>, lat: real, lon: real) returns (oddNodes: bool)
    requires points != []
    ensures oddNodes <==> InPolygon(points, lat, lon)
  {
    oddNodes := false;
    var offset := CalculateLonDatelineOffset(points);
    var pointLon := if lon < 0.0 then lon + offset else lon;
    var poly := EnabledPoints(points);
    if poly == [] {
      return;
    }
    var j := |poly| - 1;
    ghost var shifted, p := ShiftAll(poly, offset), Point(lat, pointLon);
    ghost var chain := [shifted[j]] + shifted;
    OnePointLeft(chain, p);
    for i := 0 to |poly|
      invariant j == if i == 0 then |poly| - 1 else i - 1
      invariant Parity(chain, p) == Xor(oddNodes, Parity(chain[i..], p))
    {
      hide Parity, Crosses;
      var crossed := EdgeCrossed(poly[i], poly[j], offset, lat, pointLon);
      ParityFrom(chain, i, p);
      if crossed {
        oddNodes := !oddNodes;
      }
      j := i;
    }
  }

  /** Two lists of polygon points whose enabled vertices are the same closed chain: rotated, or reversed. */
  ghost predicate SameChain(a: seq<Point>, b: seq<Point>)
  {
    b == Reversed(a) || exists k :: 0 <= k <= |a| && b == a[k..] + a[..k]
  }

  lemma ShiftAllRotated(poly: seq<Point>, k: nat, offset: real)
    requires k <= |poly|
    ensures ShiftAll(poly[k..] + poly[..k], offset) == ShiftAll(poly, offset)[k..] + ShiftAll(poly, offset)[..k]
  {
  }

  lemma ShiftAllReversed(poly: seq<Point>, offset: real)
    ensures ShiftAll(Reversed(poly), offset) == Reversed(ShiftAll(poly, offset))
  {
  }

  /** With the same offset, the answer depends on the closed chain of enabled vertices only. */
  lemma SameChainSameAnswer(a: seq<Point>, b: seq<Point>, offset: real, lat: real, lon: real)
    requires SameChain(a, b)
    ensures InsideShifted(a, offset, lat, lon) == InsideShifted(b, offset, lat, lon)
  {
    var p, s := Point(lat, Shift(lon, offset)), ShiftAll(a, offset);
    if b == Reversed(a) {
      ShiftAllReversed(a, offset);
      InsideReversed(s, p);
    } else {
      var k :| 0 <= k <= |a| && b == a[k..] + a[..k];
      ShiftAllRotated(a, k, offset);
      InsideRotated(s[..k], s[k..], p);
      assert s == s[..k] + s[k..];
    }
  }

  function VertexLons(poly: seq<Point>): set<real>
  {
    set v | v in poly :: v.lon
  }

  lemma {:induction false} EnabledLonsAreVertices(points: seq<PolygonPoint>)
    ensures EnabledLons(points) == VertexLons(Enabled(points))
  {
    if points != [] {
      var head, tail := points[0], points[1..];
      EnabledLonsAreVertices(tail);
      assert points == [head] + tail;
      assert EnabledLons(points) == (if head.enable then {head.lon} else {}) + EnabledLons(tail);
      if head.enable {
        var v := Point(head.lat, head.lon);
        assert Enabled(points) == [v] + Enabled(tail);
        assert v in Enabled(points);
        assert VertexLons(Enabled(points)) == {v.lon} + VertexLons(Enabled(tail));
      } else {
        assert Enabled(points) == Enabled(tail);
      }
    }
  }

  /* ---- Which offset, and when it matters ---- */

  /** The offset that the enabled vertices alone call for. */
  ghost function OwnOffset(points: seq<PolygonPoint>): real
  {
    if WideSpan(EnabledLons(points)) then 360.0 else 0.0
  }

  /** Point 0 is enabled, or the enabled vertices are wide themselves, or none is more than half the globe from point 0. */
  ghost predicate FollowsVertices(points: seq<PolygonPoint>)
    requires points != []
  {
    || points[0].enable
    || WideSpan(EnabledLons(points))
    || forall x :: x in EnabledLons(points) ==> -180.0 <= x - points[0].lon <= 180.0
  }

  /** This is exactly when the offset is the vertices' own. */
  lemma OffsetFollowsVertices(points: seq<PolygonPoint>)
    requires points != []
    ensures Offset(points) == OwnOffset(points) <==> FollowsVertices(points)
  {
  }

  /** All longitudes on one side of Greenwich. */
  ghost predicate OneSided(lons: set<real>)
  {
    (forall x :: x in lons ==> 0.0 <= x < 180.0) || (forall x :: x in lons ==> -180.0 <= x < 0.0)
  }

  function Moved(p: Point, d: real): Point
  {
    Point(p.lat, p.lon + d)
  }

  lemma CrossesMoved(a: Point, b: Point, p: Point, d: real)
    ensures Crosses(Moved(a, d), Moved(b, d), Moved(p, d)) == Crosses(a, b, p)
  {
    if Straddles(a, b, p) {
      CrossingMoved(a, b, p, d);
    }
    hide CrossingLon;
  }

  lemma CrossingMoved(a: Point, b: Point, p: Point, d: real)
    requires a.lat != b.lat
    ensures CrossingLon(Moved(a, d), Moved(b, d), Moved(p, d)) == CrossingLon(a, b, p) + d
  {
    assert (a.lon + d) - (b.lon + d) == a.lon - b.lon;
  }

  lemma {:induction false} ParityMoved(chain: seq<Point>, moved: seq<Point>, p: Point, d: real)
    requires |moved| == |chain| && forall i :: 0 <= i < |chain| ==> moved[i] == Moved(chain[i], d)
    ensures Parity(moved, Moved(p, d)) == Parity(chain, p)
  {
    hide Crosses, Moved;
    if |chain| >= 2 {
      CrossesMoved(chain[1], chain[0], p, d);
      ParityMoved(chain[1..], moved[1..], p, d);
    }
  }

  lemma InsideMoved(poly: seq<Point>, moved: seq<Point>, p: Point, d: real)
    requires |moved| == |poly| && forall i :: 0 <= i < |poly| ==> moved[i] == Moved(poly[i], d)
    ensures Inside(moved, Moved(p, d)) == Inside(poly, p)
  {
    hide Moved, Parity;
    if poly != [] {
      ParityMoved([poly[|poly| - 1]] + poly, [moved[|poly| - 1]] + moved, p, d);
    }
  }

  lemma Shifted(poly: seq<Point>, offset: real)
    ensures (forall v :: v in poly ==> v.lon >= 0.0) ==> ShiftAll(poly, offset) == poly
    ensures (forall v :: v in poly ==> v.lon < 0.0) ==> forall i :: 0 <= i < |poly| ==> ShiftAll(poly, offset)[i] == Moved(poly[i], offset)
    ensures ShiftAll(poly, 0.0) == poly
  {
    assert forall i :: 0 <= i < |poly| ==> poly[i] in poly;
  }

  /** A polygon on one side of Greenwich gives the same answer with either offset. */
  lemma OneSidedIgnoresOffset(poly: seq<Point>, lat: real, lon: real)
    requires OneSided(VertexLons(poly)) && -180.0 <= lon < 180.0
    ensures InsideShifted(poly, 360.0, lat, lon) == InsideShifted(poly, 0.0, lat, lon)
  {
    var near, far := Point(lat, lon), Point(lat, Shift(lon, 360.0));
    assert forall v :: v in poly ==> v.lon in VertexLons(poly);
    hide Inside, ShiftAll, VertexLons;
    Shifted(poly, 0.0);
    Shifted(poly, 360.0);
    var moved := ShiftAll(poly, 360.0);
    assert lon < 0.0 ==> Moved(near, 360.0) == far;
    if forall v :: v in poly ==> 0.0 <= v.lon < 180.0 {
      if lon < 0.0 { EastOfGreenwich(poly, near, far); }
    } else if lon < 0.0 {
      InsideMoved(poly, moved, near, 360.0);
    } else {
      WestOfGreenwich(poly, moved, near);
    }
  }

  lemma EastOfGreenwich(poly: seq<Point>, near: Point, far: Point)
    requires forall v :: v in poly ==> near.lon < v.lon < far.lon
    ensures !Inside(poly, near) && !Inside(poly, far)
  {
    hide Inside;
    OutsideBoxIsOutside(poly, near);
    OutsideBoxIsOutside(poly, far);
  }

  lemma WestOfGreenwich(poly: seq<Point>, moved: seq<Point>, p: Point)
    requires 0.0 <= p.lon < 180.0 && forall v :: v in poly ==> -180.0 <= v.lon < 0.0
    requires |moved| == |poly| && forall i :: 0 <= i < |poly| ==> moved[i] == Moved(poly[i], 360.0)
    ensures !Inside(poly, p) && !Inside(moved, p)
  {
    hide Inside;
    forall v | v in moved ensures p.lon < v.lon {
      var i :| 0 <= i < |moved| && moved[i] == v;
      assert poly[i] in poly;
    }
    OutsideBoxIsOutside(poly, p);
    OutsideBoxIsOutside(moved, p);
  }

  /** The answer that the enabled vertices call for, whatever points are disabled. */
  ghost predicate OwnAnswer(points: seq<PolygonPoint>, lat: real, lon: real)
  {
    InsideShifted(Enabled(points), OwnOffset(points), lat, lon)
  }

  /** Either the offset is the vertices' own, or it does not matter to them. */
  ghost predicate OffsetDoesNoHarm(points: seq<PolygonPoint>, lon: real)
    requires points != []
  {
    FollowsVertices(points) || (OneSided(EnabledLons(points)) && -180.0 <= lon < 180.0)
  }

  lemma AnswerFollowsVertices(points: seq<PolygonPoint>, lat: real, lon: real)
    requires points != [] && OffsetDoesNoHarm(points, lon)
    ensures InPolygon(points, lat, lon) <==> OwnAnswer(points, lat, lon)
  {
    OffsetFollowsVertices(points);
    if !FollowsVertices(points) {
      EnabledLonsAreVertices(points);
      OneSidedIgnoresOffset(Enabled(points), lat, lon);
    }
    hide InsideShifted, OffsetLons, WideSpan;
  }

  /**
   * For a zone that by its own vertices contains a point of the Greenwich meridian, the answers are
   * the vertices' own everywhere exactly when the offset is; else that very point is thrown out.
   */
  lemma GreenwichTells(points: seq<PolygonPoint>, lat0: real)
    requires points != [] && OwnAnswer(points, lat0, 0.0)
    requires forall x :: x in EnabledLons(points) ==> -180.0 <= x < 180.0
    ensures (forall lat, lon :: -180.0 <= lon < 180.0 ==> (InPolygon(points, lat, lon) <==> OwnAnswer(points, lat, lon)))
            <==> FollowsVertices(points)
  {
    if FollowsVertices(points) {
      forall lat, lon ensures InPolygon(points, lat, lon) <==> OwnAnswer(points, lat, lon) {
        AnswerFollowsVertices(points, lat, lon);
      }
    } else {
      OffsetFollowsVertices(points);
      EnabledLonsAreVertices(points);
      GreenwichThrownOut(Enabled(points), lat0);
      assert !InPolygon(points, lat0, 0.0);
    }
  }

  lemma GreenwichThrownOut(poly: seq<Point>, lat: real)
    requires forall x :: x in VertexLons(poly) ==> -180.0 <= x < 180.0
    ensures !InsideShifted(poly, 360.0, lat, 0.0)
  {
    var moved, p := ShiftAll(poly, 360.0), Point(lat, 0.0);
    forall v | v in moved ensures p.lon <= v.lon {
      var i :| 0 <= i < |moved| && moved[i] == v;
      assert poly[i].lon in VertexLons(poly);
    }
    if poly != [] {
      var chain := [moved[|moved| - 1]] + moved;
      assert forall v :: v in chain ==> v in moved;
      NothingCrossed(chain, p);
    }
  }

  /** A zone without width has no such point, and a wrong offset does it no harm. */
  lemma OutAndBack(a: Point, b: Point, offset: real, lat: real, lon: real)
    ensures !InsideShifted([a, b], offset, lat, lon)
  {
    var s, p := ShiftAll([a, b], offset), Point(lat, Shift(lon, offset));
    assert s == [s[0], s[1]] && [s[1]] + s == [s[1], s[0], s[1]];
    assert [s[1], s[0], s[1]][1..] == [s[0], s[1]];
    ParityEdge(s[0], s[1], p);
    hide Crosses;
  }

  /** Two slanted triangles that meet in one point of the meridian. */
  const PINCHED: seq<Point> := [Point(0.0, -10.0), Point(10.0, 10.0), Point(8.0, 10.0), Point(2.0, -10.0)]

  lemma FourEdges(c: seq<Point>, p: Point)
    requires |c| == 4
    ensures Inside(c, p) == Xor(Xor(Crosses(c[0], c[3], p), Crosses(c[1], c[0], p)), Xor(Crosses(c[2], c[1], p), Crosses(c[3], c[2], p)))
  {
    hide Crosses;
    var chain := [c[3]] + c;
    assert chain == [c[3], c[0], c[1], c[2], c[3]];
    assert chain[1..] == [c[0], c[1], c[2], c[3]] && chain[1..][1..] == [c[1], c[2], c[3]];
    assert [c[1], c[2], c[3]][1..] == [c[2], c[3]] && [c[2], c[3]][1..] == [c[3]];
    assert Parity([c[2], c[3]], p) == Crosses(c[3], c[2], p);
    assert Parity([c[1], c[2], c[3]], p) == Xor(Crosses(c[2], c[1], p), Parity([c[2], c[3]], p));
    assert Parity(chain[1..], p) == Xor(Crosses(c[1], c[0], p), Parity([c[1], c[2], c[3]], p));
  }

  /** Containing no point of the meridian is not enough: this zone contains none, and the offset matters to it. */
  lemma PinchedZoneIsHarmed(lat: real)
    ensures !InsideShifted(PINCHED, 0.0, lat, 0.0)
    ensures InsideShifted(PINCHED, 0.0, 6.0, 3.0) && !InsideShifted(PINCHED, 360.0, 6.0, 3.0)
  {
    Shifted(PINCHED, 0.0);
    var far := [Point(0.0, 350.0), Point(10.0, 10.0), Point(8.0, 10.0), Point(2.0, 350.0)];
    assert ShiftAll(PINCHED, 360.0) == far;
    FourEdges(PINCHED, Point(lat, 0.0));
    FourEdges(PINCHED, Point(6.0, 3.0));
    FourEdges(far, Point(6.0, 3.0));
    hide Inside;
  }

  /** Where the offset does no harm, the answer depends on the closed chain of enabled vertices only. */
  lemma ChainIsAllThatMatters(a: seq<PolygonPoint>, b: seq<PolygonPoint>, lat: real, lon: real)
    requires a != [] && b != [] && OffsetDoesNoHarm(a, lon) && OffsetDoesNoHarm(b, lon)
    requires SameChain(Enabled(a), Enabled(b))
    ensures InPolygon(a, lat, lon) == InPolygon(b, lat, lon)
  {
    SameChainSameVertices(Enabled(a), Enabled(b));
    EnabledLonsAreVertices(a);
    EnabledLonsAreVertices(b);
    assert EnabledLons(a) == EnabledLons(b);
    AnswerFollowsVertices(a, lat, lon);
    AnswerFollowsVertices(b, lat, lon);
    hide InPolygon, InsideShifted, SameChain;
    SameChainSameAnswer(Enabled(a), Enabled(b), OwnOffset(a), lat, lon);
  }

  lemma SameChainSameVertices(a: seq<Point>, b: seq<Point>)
    requires SameChain(a, b)
    ensures forall v :: v in a <==> v in b
  {
    if b == Reversed(a) {
      forall v ensures v in a <==> v in b {
        if v in a { var i :| 0 <= i < |a| && a[i] == v; assert b[|a| - 1 - i] == v; }
        if v in b { var i :| 0 <= i < |b| && b[i] == v; assert a[|a| - 1 - i] == v; }
      }
    } else {
      var k :| 0 <= k <= |a| && b == a[k..] + a[..k];
      assert a == a[..k] + a[k..];
    }
  }

  /** A point outside the bounding box of the shifted enabled vertices is reported outside. */
  lemma OutsideBoxIsReportedOutside(points: seq<PolygonPoint>, lat: real, lon: real)
    requires points != []
    requires OutsideBox(ShiftAll(Enabled(points), Offset(points)), Point(lat, Shift(lon, Offset(points))))
    ensures !InPolygon(points, lat, lon)
  {
    OutsideBoxIsOutside(ShiftAll(Enabled(points), Offset(points)), Point(lat, Shift(lon, Offset(points))));
  }

  /** The square between latitudes 0 and 10 and longitudes -10 and 10. */
  const SQUARE: seq<PolygonPoint> := [
    PolygonPoint(0.0, -10.0, true), PolygonPoint(10.0, -10.0, true),
    PolygonPoint(10.0, 10.0, true), PolygonPoint(0.0, 10.0, true)]

  const CORNERS: seq<Point> := [Point(0.0, -10.0), Point(10.0, -10.0), Point(10.0, 10.0), Point(0.0, 10.0)]

  lemma SquareCorners()
    ensures Enabled(SQUARE) == CORNERS
  {
  }

  /** A disabled point 0 near the dateline throws the center of the square out of it. */
  lemma DisabledPointDecides()
    ensures var far := [PolygonPoint(0.0, 175.0, false)] + SQUARE;
            Enabled(far) == Enabled(SQUARE) && InPolygon(SQUARE, 5.0, 0.0) && !InPolygon(far, 5.0, 0.0)
  {
    var far := [PolygonPoint(0.0, 175.0, false)] + SQUARE;
    assert far[1..] == SQUARE;
    SquareCorners();
    SquareLons();
    FarIsWide(far);
    CenterOfCorners();
    GreenwichThrownOut(CORNERS, 5.0);
    hide InsideShifted, WideSpan, OffsetLons;
  }

  lemma SquareLons()
    ensures !WideSpan(OffsetLons(SQUARE))
    ensures forall x :: x in VertexLons(CORNERS) ==> -180.0 <= x < 180.0
  {
    assert forall q :: q in SQUARE ==> -10.0 <= q.lon <= 10.0;
  }

  lemma FarIsWide(far: seq<PolygonPoint>)
    requires far == [PolygonPoint(0.0, 175.0, false)] + SQUARE
    ensures WideSpan(OffsetLons(far))
  {
    assert far[0].lon in OffsetLons(far) && far[1] in far && far[1].enable && far[1].lon in EnabledLons(far);
    assert far[0].lon - far[1].lon > 180.0;
  }

  lemma CenterOfCorners()
    ensures InsideShifted(CORNERS, 0.0, 5.0, 0.0)
  {
  }

  /** The zone's offset, or one that does not matter to this part of it. */
  ghost predicate CutsAlike(part: seq<PolygonPoint>, offset: real, lon: real)
    requires part != []
  {
    Offset(part) == offset || (OneSided(EnabledLons(part)) && -180.0 <= lon < 180.0)
  }

  /**
   * Cutting a zone along a chord between two enabled vertices, whatever points are disabled in the
   * zone or its parts: the point is inside the zone if and only if it is inside exactly one part.
   */
  lemma CutZone(points: seq<PolygonPoint>, one: seq<PolygonPoint>, other: seq<PolygonPoint>, i: nat, j: nat, lat: real, lon: real)
    requires points != [] && one != [] && other != [] && i < j < |Enabled(points)|
    requires Enabled(one) == Enabled(points)[i..j + 1] && Enabled(other) == Enabled(points)[j..] + Enabled(points)[..i + 1]
    requires CutsAlike(one, Offset(points), lon) && CutsAlike(other, Offset(points), lon)
    ensures InPolygon(points, lat, lon) == Xor(InPolygon(one, lat, lon), InPolygon(other, lat, lon))
  {
    var poly, offset := Enabled(points), Offset(points);
    AnswerOfPart(one, offset, lat, lon);
    AnswerOfPart(other, offset, lat, lon);
    hide Enabled, Inside, ShiftAll, ShiftPoint, OffsetLons, WideSpan, Offset, CutsAlike;
    ShiftAllParts(poly, i, j, offset);
    InsideCut(ShiftAll(poly, offset), i, j, Point(lat, Shift(lon, offset)));
  }

  lemma AnswerOfPart(part: seq<PolygonPoint>, offset: real, lat: real, lon: real)
    requires part != [] && (offset == 0.0 || offset == 360.0) && CutsAlike(part, offset, lon)
    ensures InPolygon(part, lat, lon) <==> InsideShifted(Enabled(part), offset, lat, lon)
  {
    if Offset(part) != offset {
      EnabledLonsAreVertices(part);
      OneSidedIgnoresOffset(Enabled(part), lat, lon);
    }
    hide InsideShifted, OffsetLons, WideSpan;
  }

  lemma ShiftAllParts(poly: seq<Point>, i: nat, j: nat, offset: real)
    requires i < j < |poly|
    ensures var s := ShiftAll(poly, offset);
            && ShiftAll(poly[i..j + 1], offset) == s[i..j + 1]
            && ShiftAll(poly[j..] + poly[..i + 1], offset) == s[j..] + s[..i + 1]
  {
  }
}
