/** Boundary-inclusive point-in-polygon by even-odd ray casting.
  *
  * `Contains` is the value the loops of `ContainsInclusive` compute. Without repeated vertices it
  * does not depend on where the ring starts or on its direction, and on a rectangle it is the
  * closed-box test. `RepeatedVertices` says what a repeated vertex changes, `FanTriangles` what
  * the answer means for an arbitrary polygon.
  */
module PointInPolygon {
  import opened Segments
  import opened Cycles

  /** Tolerance of the boundary test; the lemmas hold for every non-negative tolerance. */
  const BOUNDARY_EPSILON: real := 0.000000001

  // ---------- The polygon's tests ----------

  /** Vertices with a duplicated closing vertex removed. */
  function OpenRing(vertices: seq<Point>): seq<Point> {
    var n := |vertices|;
    if n >= 2 && vertices[0] == vertices[n - 1] then vertices[..n - 1] else vertices
  }

  predicate OnSegmentWithin(a: Point, b: Point, p: Point, eps: real) {
    var cross := (b.x - a.x) * (p.y - a.y) - (b.y - a.y) * (p.x - a.x);
    if cross > eps || cross < -eps then false
    else if p.x < Min(a.x, b.x) - eps || p.x > Max(a.x, b.x) + eps then false
    else if p.y < Min(a.y, b.y) - eps || p.y > Max(a.y, b.y) + eps then false
    else true
  }

  /** Does the ray from p to the right cross the edge between vi and vj? */
  predicate Crosses(vi: Point, vj: Point, p: Point) {
    if (vi.y > p.y) != (vj.y > p.y) then
      p.x < (vj.x - vi.x) * (p.y - vi.y) / (vj.y - vi.y) + vi.x
    else false
  }

  // ---------- The value the loops compute ----------

  function RayTest(p: Point): (Point, Point) -> bool { (a, b) => Crosses(b, a, p) }

  function TouchTest(p: Point, eps: real): (Point, Point) -> bool { (a, b) => OnSegmentWithin(a, b, p, eps) }

  /** Containment for a ring without closing duplicate. */
  ghost predicate RingContains(v: seq<Point>, p: Point, eps: real) {
    |v| >= 3 && (SomeEdge(v, TouchTest(p, eps)) || RingParity(v, RayTest(p)))
  }

  ghost predicate Contains(vertices: seq<Point>, p: Point, eps: real) {
    RingContains(OpenRing(vertices), p, eps)
  }

  method ContainsInclusive(vertices: seq<Point>, p: Point, eps: real) returns (contained: bool)
    ensures contained <==> Contains(vertices, p, eps)
  {
    var ring := OpenRing(vertices);
    var n := |ring|;
    if n < 3 {
      return false;
    }
    ghost var touch, ray := TouchTest(p, eps), RayTest(p);
    for i := 0 to n
      invariant forall k: nat :: k < i ==> !touch(ring[k], ring[Next(k, n)])
    {
      NextIsMod(i, n);
      var a, b := ring[i], ring[(i + 1) % n];
      if OnSegmentWithin(a, b, p, eps) {
        assert touch(ring[i], ring[Next(i, n)]);
        return true;
      }
    }
    ghost var w := [ring[n - 1]] + ring;
    var inside := false;
    var i, j := 0, n - 1;
    while i < n
      invariant 0 <= i <= n && 0 <= j < n && ring[j] == w[i]
      invariant inside == PathParity(w[..i + 1], ray)
    {
      PathExtend(w, i, ray);
      if Crosses(ring[i], ring[j], p) {
        inside := !inside;
      }
      j, i := i, i + 1;
    }
    assert w[..n + 1] == w;
    return inside;
  }

  // ---------- The two edge tests are symmetric ----------

  /** Where an upward or downward edge meets the ray, by the side of the edge p lies on. */
  lemma CrossesBySide(a: Point, b: Point, p: Point)
    ensures Crosses(b, a, p) <==>
      (a.y <= p.y < b.y && Cross(p, a, b) > 0.0) || (b.y <= p.y < a.y && Cross(p, a, b) < 0.0)
  {
    if (b.y > p.y) != (a.y > p.y) {
      var h := a.y - b.y;
      var q := (a.x - b.x) * (p.y - b.y) / h;
      assert q * h == (a.x - b.x) * (p.y - b.y);
      var r := q + b.x - p.x;
      assert r * h == -Cross(p, a, b);
      SignRule(r, h);
    }
  }

  lemma RayTestSymmetric(p: Point)
    ensures Symmetric(RayTest(p))
  {
    forall a, b ensures Crosses(a, b, p) == Crosses(b, a, p) {
      CrossesBySide(a, b, p);
      CrossesBySide(b, a, p);
      assert Cross(p, b, a) == -Cross(p, a, b);
    }
  }

  lemma TouchTestSymmetric(p: Point, eps: real)
    ensures Symmetric(TouchTest(p, eps))
  {
    forall a, b ensures OnSegmentWithin(a, b, p, eps) == OnSegmentWithin(b, a, p, eps) {
      assert (b.x - a.x) * (p.y - a.y) - (b.y - a.y) * (p.x - a.x)
          == -((a.x - b.x) * (p.y - b.y) - (a.y - b.y) * (p.x - b.x));
    }
  }

  // ---------- Rotation and reversal ----------

  lemma RingContainsUnchanged(v: seq<Point>, k: nat, p: Point, eps: real)
    requires k <= |v|
    ensures RingContains(v[k..] + v[..k], p, eps) == RingContains(v, p, eps)
    ensures RingContains(Reverse(v), p, eps) == RingContains(v, p, eps)
  {
    RayTestSymmetric(p);
    TouchTestSymmetric(p, eps);
    RotateMany(v, k, RayTest(p));
    RotateMany(v, k, TouchTest(p, eps));
    if v != [] {
      ReverseParity(v, RayTest(p));
      ReverseSomeEdge(v, TouchTest(p, eps));
    }
  }

  /** No two consecutive vertices of the cycle coincide. */
  ghost predicate NoRepeats(v: seq<Point>) {
    forall i: nat :: i < |v| ==> v[i] != v[Next(i, |v|)]
  }

  lemma OpenRingsStay(v: seq<Point>, k: nat)
    requires |v| >= 2 && k <= |v| && NoRepeats(v)
    ensures OpenRing(v) == v
    ensures OpenRing(v[k..] + v[..k]) == v[k..] + v[..k]
    ensures OpenRing(Reverse(v)) == Reverse(v)
    ensures OpenRing(v + [v[0]]) == v
  {
    var n, w := |v|, v[k..] + v[..k];
    assert v[n - 1] != v[Next(n - 1, n)];
    if 0 < k < n {
      assert v[k - 1] != v[Next(k - 1, n)];
      assert w[0] == v[k] && w[n - 1] == v[k - 1];
    }
    assert (v + [v[0]])[..n] == v;
  }

  /** Start vertex, direction and an explicit closing vertex do not affect the answer. */
  lemma AnswerUnchangedByRotationAndReversal(v: seq<Point>, k: nat, p: Point, eps: real)
    requires |v| >= 2 && k <= |v| && NoRepeats(v)
    ensures Contains(v[k..] + v[..k], p, eps) == Contains(v, p, eps)
    ensures Contains(Reverse(v), p, eps) == Contains(v, p, eps)
    ensures Contains(v + [v[0]], p, eps) == Contains(v, p, eps)
  {
    OpenRingsStay(v, k);
    RingContainsUnchanged(v, k, p, eps);
  }

  // ---------- Rectangles ----------

  /** On an axis-aligned rectangle the answer lies between the closed box and the box widened
    * by the tolerance; with tolerance 0 it is the closed-box test. */
  lemma RectangleIsClosedBox(x0: real, y0: real, x1: real, y1: real, p: Point, eps: real)
    requires x0 <= x1 && y0 <= y1 && eps >= 0.0
    ensures var v := [Point(x0, y0), Point(x1, y0), Point(x1, y1), Point(x0, y1)];
      && (x0 <= p.x <= x1 && y0 <= p.y <= y1 ==> Contains(v + [v[0]], p, eps))
      && (Contains(v + [v[0]], p, eps) ==> x0 - eps <= p.x <= x1 + eps && y0 - eps <= p.y <= y1 + eps)
  {
    var v := [Point(x0, y0), Point(x1, y0), Point(x1, y1), Point(x0, y1)];
    assert (v + [v[0]])[..4] == v;
    RectangleParity(x0, y0, x1, y1, p);
    var touch := TouchTest(p, eps);
    if x0 <= p.x <= x1 && y0 <= p.y <= y1 {
      if p.x == x1 {
        EdgeBoxTouch(v[1], v[2], p, eps);
        assert touch(v[1], v[Next(1, 4)]);
      } else if p.y == y1 {
        EdgeBoxTouch(v[2], v[3], p, eps);
        assert touch(v[2], v[Next(2, 4)]);
      }
    }
    if i: nat :| i < 4 && touch(v[i], v[Next(i, 4)]) {
      TouchStaysInBox(v[i], v[Next(i, 4)], p, eps);
    }
  }

  lemma EdgeBoxTouch(a: Point, b: Point, p: Point, eps: real)
    requires eps >= 0.0 && OnSegment(a, p, b) && (a.x == b.x || a.y == b.y)
    ensures OnSegmentWithin(a, b, p, eps)
  {
    if a.x == b.x {
      assert (b.x - a.x) * (p.y - a.y) == 0.0 && (b.y - a.y) * (p.x - a.x) == 0.0;
    } else {
      assert (b.y - a.y) * (p.x - a.x) == 0.0 && (b.x - a.x) * (p.y - a.y) == 0.0;
    }
  }

  lemma TouchStaysInBox(a: Point, b: Point, p: Point, eps: real)
    requires OnSegmentWithin(a, b, p, eps)
    ensures Min(a.x, b.x) - eps <= p.x <= Max(a.x, b.x) + eps && Min(a.y, b.y) - eps <= p.y <= Max(a.y, b.y) + eps
  {
  }

  lemma RectangleParity(x0: real, y0: real, x1: real, y1: real, p: Point)
    requires x0 <= x1 && y0 <= y1
    ensures RingParity([Point(x0, y0), Point(x1, y0), Point(x1, y1), Point(x0, y1)], RayTest(p))
       <==> x0 <= p.x < x1 && y0 <= p.y < y1
  {
    var a, b, c, d := Point(x0, y0), Point(x1, y0), Point(x1, y1), Point(x0, y1);
    QuadParity(a, b, c, d, RayTest(p));
    VerticalEdge(x0, y1, y0, p);
    VerticalEdge(x1, y0, y1, p);
  }

  lemma VerticalEdge(x: real, ya: real, yb: real, p: Point)
    ensures Crosses(Point(x, yb), Point(x, ya), p) <==> (Min(ya, yb) <= p.y < Max(ya, yb) && p.x < x)
  {
    if (yb > p.y) != (ya > p.y) {
      assert (x - x) * (p.y - yb) == 0.0;
    }
  }

  lemma QuadParity(a: Point, b: Point, c: Point, d: Point, test: (Point, Point) -> bool)
    ensures RingParity([a, b, c, d], test) == (test(d, a) != (test(a, b) != (test(b, c) != test(c, d))))
  {
    PathCons(d, [a, b, c, d], test);
    PathCons(a, [b, c, d], test);
    PathCons(b, [c, d], test);
    PairPath(c, d, test);
    assert [a] + [b, c, d] == [a, b, c, d] && [b] + [c, d] == [b, c, d];
  }

  lemma TriangleEdges(a: Point, b: Point, c: Point, test: (Point, Point) -> bool)
    ensures RingParity([a, b, c], test) == (test(c, a) != (test(a, b) != test(b, c)))
    ensures SomeEdge([a, b, c], test) == (test(a, b) || test(b, c) || test(c, a))
  {
    var v := [a, b, c];
    PathCons(c, v, test);
    PathCons(a, [b, c], test);
    PairPath(b, c, test);
    assert [a] + [b, c] == v;
    assert Next(0, 3) == 1 && Next(1, 3) == 2 && Next(2, 3) == 0;
    if test(a, b) { assert test(v[0], v[Next(0, 3)]); }
    if test(b, c) { assert test(v[1], v[Next(1, 3)]); }
    if test(c, a) { assert test(v[2], v[Next(2, 3)]); }
  }
}
