/** Segment tests over real coordinates.
  *
  * `SegmentsIntersect` decides by orientation signs and bounding boxes; the theorem of this
  * module is that it agrees with the parametric meaning of "two closed segments share a point"
  * on every input, zero-length and collinear segments included.
  */
module Segments {

  datatype Point = Point(x: real, y: real)

  function Min(a: real, b: real): real { if a <= b then a else b }

  function Max(a: real, b: real): real { if a <= b then b else a }

  // ---------- The validator's tests ----------

  /** 0 collinear, 1 clockwise, 2 counter-clockwise. */
  function Orientation(p: Point, q: Point, r: Point): int {
    var val := (q.y - p.y) * (r.x - q.x) - (q.x - p.x) * (r.y - q.y);
    if val == 0.0 then 0 else if val > 0.0 then 1 else 2
  }

  /** Bounding-box test; it means "q is on segment pr" only for collinear p, q, r. */
  predicate OnSegment(p: Point, q: Point, r: Point) {
    && Min(p.x, r.x) <= q.x <= Max(p.x, r.x)
    && Min(p.y, r.y) <= q.y <= Max(p.y, r.y)
  }

  predicate SegmentsIntersect(p1: Point, p2: Point, p3: Point, p4: Point) {
    var o1 := Orientation(p1, p2, p3);
    var o2 := Orientation(p1, p2, p4);
    var o3 := Orientation(p3, p4, p1);
    var o4 := Orientation(p3, p4, p2);
    if o1 != o2 && o3 != o4 then true
    else if o1 == 0 && OnSegment(p1, p3, p2) then true
    else if o2 == 0 && OnSegment(p1, p4, p2) then true
    else if o3 == 0 && OnSegment(p3, p1, p4) then true
    else if o4 == 0 && OnSegment(p3, p2, p4) then true
    else false
  }

  // ---------- What they are meant to decide ----------

  /** The point at parameter t of the segment from p to q. */
  function At(p: Point, q: Point, t: real): Point {
    Point(p.x + t * (q.x - p.x), p.y + t * (q.y - p.y))
  }

  /** z is a point of the closed segment pq. */
  ghost predicate On(p: Point, q: Point, z: Point) {
    exists t: real :: 0.0 <= t <= 1.0 && At(p, q, t) == z
  }

  /** The closed segments p1p2 and p3p4 share a point. */
  ghost predicate Meet(p1: Point, p2: Point, p3: Point, p4: Point) {
    exists s: real, t: real :: 0.0 <= s <= 1.0 && 0.0 <= t <= 1.0 && At(p1, p2, s) == At(p3, p4, t)
  }

  /** Twice the signed area of the triangle p, q, r. */
  function Cross(p: Point, q: Point, r: Point): real {
    (q.x - p.x) * (r.y - p.y) - (q.y - p.y) * (r.x - p.x)
  }

  function SignClass(c: real): int {
    if c == 0.0 then 0 else if c < 0.0 then 1 else 2
  }

  /** The determinant of the two direction vectors; zero for parallel or zero-length segments. */
  function Det(p1: Point, p2: Point, p3: Point, p4: Point): real {
    (p2.x - p1.x) * (p4.y - p3.y) - (p2.y - p1.y) * (p4.x - p3.x)
  }

  lemma OrientationIsSignOfCross(p: Point, q: Point, r: Point)
    ensures Orientation(p, q, r) == SignClass(Cross(p, q, r))
  {
    assert (q.y - p.y) * (r.x - q.x) - (q.x - p.x) * (r.y - q.y) == -Cross(p, q, r);
  }

  // ---------- One segment ----------

  lemma SignRule(x: real, y: real)
    ensures x * y > 0.0 <==> (x > 0.0 && y > 0.0) || (x < 0.0 && y < 0.0)
    ensures x * y < 0.0 <==> (x > 0.0 && y < 0.0) || (x < 0.0 && y > 0.0)
  {
    if x > 0.0 && y > 0.0 {
      PositiveProduct(x, y);
    } else if x > 0.0 && y < 0.0 {
      PositiveProduct(x, -y);
    } else if x < 0.0 && y > 0.0 {
      PositiveProduct(-x, y);
    } else if x < 0.0 && y < 0.0 {
      PositiveProduct(-x, -y);
    } else {
      assert x == 0.0 || y == 0.0;
    }
  }

  lemma PositiveProduct(x: real, y: real)
    requires x > 0.0 && y > 0.0
    ensures x * y > 0.0
  {
  }

  lemma Scaled(t: real, d: real) returns (m: real)
    requires 0.0 <= t <= 1.0
    ensures m == t * d
    ensures d >= 0.0 ==> 0.0 <= m <= d
    ensures d <= 0.0 ==> d <= m <= 0.0
  {
    var u := 1.0 - t;
    m := t * d;
    assert u * d == d - t * d;
    if d > 0.0 {
      assert t * d >= 0.0 && u * d >= 0.0;
    } else {
      assert t * (-d) >= 0.0 && u * (-d) >= 0.0;
    }
  }

  lemma Between(a: real, b: real, t: real)
    requires 0.0 <= t <= 1.0
    ensures Min(a, b) <= a + t * (b - a) <= Max(a, b)
  {
    var m := Scaled(t, b - a);
  }

  lemma Ratio(num: real, den: real)
    requires (den > 0.0 && 0.0 <= num <= den) || (den < 0.0 && den <= num <= 0.0)
    ensures 0.0 <= num / den <= 1.0 && num / den * den == num
  {
  }

  /** A parameter found from one coordinate also fits the other when the three points are collinear. */
  lemma CollinearOther(dx: real, dy: real, ex: real, ey: real, t: real)
    requires dx != 0.0 && dx * ey == dy * ex && t * dx == ex
    ensures t * dy == ey
  {
    assert dx * (t * dy) == dy * (t * dx) == dy * ex == dx * ey;
    assert dx * (t * dy - ey) == 0.0;
  }

  /** On a line, the validator's box test is exactly membership in the closed segment. */
  lemma OnSegmentIsOn(p: Point, q: Point, r: Point)
    ensures Cross(p, r, q) == 0.0 && OnSegment(p, q, r) <==> On(p, r, q)
  {
    if Cross(p, r, q) == 0.0 && OnSegment(p, q, r) {
      BoxGivesOn(p, q, r);
    }
    if On(p, r, q) {
      var t: real :| 0.0 <= t <= 1.0 && At(p, r, t) == q;
      Between(p.x, r.x, t);
      Between(p.y, r.y, t);
      CrossAt(p, r, t);
    }
  }

  lemma BoxGivesOn(p: Point, q: Point, r: Point)
    requires Cross(p, r, q) == 0.0 && OnSegment(p, q, r)
    ensures On(p, r, q)
  {
    if p == r {
      EndpointsOn(p, r);
    } else {
      var t := LineParameter(p, r, q);
      if r.x != p.x {
        BoxParameter(p.x, r.x, t);
      } else {
        BoxParameter(p.y, r.y, t);
      }
    }
  }

  lemma BoxParameter(a: real, b: real, t: real)
    requires a != b && Min(a, b) <= a + t * (b - a) <= Max(a, b)
    ensures 0.0 <= t <= 1.0
  {
    var d := b - a;
    var m := t * d;
    assert a < b ==> 0.0 <= m <= d;
    assert a > b ==> d <= m <= 0.0;
    Ratio(m, d);
    assert m / d == t;
  }

  lemma CrossAt(p: Point, r: Point, t: real)
    ensures Cross(p, r, At(p, r, t)) == 0.0
  {
    var dx, dy := r.x - p.x, r.y - p.y;
    assert dx * (t * dy) == dy * (t * dx);
  }

  lemma OnReversed(p: Point, q: Point, z: Point)
    ensures On(p, q, z) <==> On(q, p, z)
  {
    if On(p, q, z) {
      var t: real :| 0.0 <= t <= 1.0 && At(p, q, t) == z;
      assert At(q, p, 1.0 - t) == z;
    }
    if On(q, p, z) {
      var t: real :| 0.0 <= t <= 1.0 && At(q, p, t) == z;
      assert At(p, q, 1.0 - t) == z;
    }
  }

  lemma EndpointsOn(p: Point, q: Point)
    ensures On(p, q, p) && On(p, q, q)
  {
    assert At(p, q, 0.0) == p;
    assert At(p, q, 1.0) == q;
  }

  lemma MeetIsCommonPoint(p1: Point, p2: Point, p3: Point, p4: Point)
    ensures Meet(p1, p2, p3, p4) <==> exists z :: On(p1, p2, z) && On(p3, p4, z)
  {
    if Meet(p1, p2, p3, p4) {
      var s: real, t: real :| 0.0 <= s <= 1.0 && 0.0 <= t <= 1.0 && At(p1, p2, s) == At(p3, p4, t);
      var z := At(p1, p2, s);
      assert On(p1, p2, z) && On(p3, p4, z);
    }
    if z :| On(p1, p2, z) && On(p3, p4, z) {
      var s: real :| 0.0 <= s <= 1.0 && At(p1, p2, s) == z;
      var t: real :| 0.0 <= t <= 1.0 && At(p3, p4, t) == z;
    }
  }

  // ---------- Two segments ----------

  /** Cramer's rule in the plane: u, v independent, w = s*u - t*v. */
  lemma Cramer(ux: real, uy: real, vx: real, vy: real, wx: real, wy: real, s: real, t: real)
    requires ux * vy - uy * vx != 0.0
    requires s * (ux * vy - uy * vx) == wx * vy - wy * vx
    requires t * (ux * vy - uy * vx) == wx * uy - wy * ux
    ensures s * ux - t * vx == wx && s * uy - t * vy == wy
  {
    var d := ux * vy - uy * vx;
    assert d * (s * ux - t * vx) == (s * d) * ux - (t * d) * vx;
    assert (wx * vy - wy * vx) * ux - (wx * uy - wy * ux) * vx == wx * d;
    assert d * (s * ux - t * vx - wx) == 0.0;
    assert d * (s * uy - t * vy) == (s * d) * uy - (t * d) * vy;
    assert (wx * vy - wy * vx) * uy - (wx * uy - wy * ux) * vy == wy * d;
    assert d * (s * uy - t * vy - wy) == 0.0;
  }

  /** Numbers of different sign class place the zero of their linear interpolation in [0, 1]. */
  lemma CrossingParameter(d1: real, d2: real)
    requires SignClass(d1) != SignClass(d2)
    ensures d1 != d2 && 0.0 <= d1 / (d1 - d2) <= 1.0 && d1 / (d1 - d2) * (d1 - d2) == d1
  {
    Ratio(d1, d1 - d2);
  }

  lemma ProperCrossingMeets(p1: Point, p2: Point, p3: Point, p4: Point)
    requires Orientation(p1, p2, p3) != Orientation(p1, p2, p4)
    requires Orientation(p3, p4, p1) != Orientation(p3, p4, p2)
    ensures Meet(p1, p2, p3, p4)
  {
    OrientationIsSignOfCross(p1, p2, p3);
    OrientationIsSignOfCross(p1, p2, p4);
    OrientationIsSignOfCross(p3, p4, p1);
    OrientationIsSignOfCross(p3, p4, p2);
    var d1, d2, d3, d4 := Cross(p1, p2, p3), Cross(p1, p2, p4), Cross(p3, p4, p1), Cross(p3, p4, p2);
    CrossingParameter(d1, d2);
    CrossingParameter(d3, d4);
    var s, t := d3 / (d3 - d4), d1 / (d1 - d2);
    var ux, uy, vx, vy, wx, wy := p2.x - p1.x, p2.y - p1.y, p4.x - p3.x, p4.y - p3.y, p3.x - p1.x, p3.y - p1.y;
    CrossDifferences(p1, p2, p3, p4);
    Cramer(ux, uy, vx, vy, wx, wy, s, t);
    assert At(p1, p2, s) == At(p3, p4, t);
  }

  /** The four cross products of two segments in terms of u = p2-p1, v = p4-p3, w = p3-p1. */
  lemma CrossDifferences(p1: Point, p2: Point, p3: Point, p4: Point)
    ensures var ux, uy, vx, vy, wx, wy := p2.x - p1.x, p2.y - p1.y, p4.x - p3.x, p4.y - p3.y, p3.x - p1.x, p3.y - p1.y;
      var d := Det(p1, p2, p3, p4);
      && d == ux * vy - uy * vx
      && Cross(p1, p2, p3) == ux * wy - uy * wx
      && Cross(p1, p2, p4) == Cross(p1, p2, p3) + d
      && Cross(p3, p4, p1) == wx * vy - wy * vx
      && Cross(p3, p4, p2) == Cross(p3, p4, p1) - d
  {
  }

  lemma CrossesScale(ux: real, uy: real, vx: real, vy: real, wx: real, wy: real, s: real, t: real)
    requires wx == s * ux - t * vx && wy == s * uy - t * vy
    ensures ux * wy - uy * wx == -t * (ux * vy - uy * vx)
    ensures wx * vy - wy * vx == s * (ux * vy - uy * vx)
  {
    assert ux * (s * uy - t * vy) - uy * (s * ux - t * vx) == -t * (ux * vy - uy * vx);
    assert (s * ux - t * vx) * vy - (s * uy - t * vy) * vx == s * (ux * vy - uy * vx);
  }

  /** Read backwards: at a common point the cross products are fixed multiples of u x v. */
  lemma MeetCrosses(p1: Point, p2: Point, p3: Point, p4: Point, s: real, t: real)
    requires At(p1, p2, s) == At(p3, p4, t)
    ensures var d := Det(p1, p2, p3, p4);
      && Cross(p1, p2, p3) == -t * d && Cross(p1, p2, p4) == (1.0 - t) * d
      && Cross(p3, p4, p1) == s * d && Cross(p3, p4, p2) == (s - 1.0) * d
  {
    CrossDifferences(p1, p2, p3, p4);
    var ux, uy, vx, vy, wx, wy := p2.x - p1.x, p2.y - p1.y, p4.x - p3.x, p4.y - p3.y, p3.x - p1.x, p3.y - p1.y;
    CrossesScale(ux, uy, vx, vy, wx, wy, s, t);
  }

  /** Two overlapping segments on one line: an endpoint of one lies on the other. */
  lemma CollinearMeetHasEndpoint(p1: Point, p2: Point, p3: Point, p4: Point)
    requires p1 != p2
    requires Cross(p1, p2, p3) == 0.0 && Cross(p1, p2, p4) == 0.0
    requires Meet(p1, p2, p3, p4)
    ensures On(p1, p2, p3) || On(p1, p2, p4) || On(p3, p4, p1)
  {
    var s: real, t: real :| 0.0 <= s <= 1.0 && 0.0 <= t <= 1.0 && At(p1, p2, s) == At(p3, p4, t);
    var a := LineParameter(p1, p2, p3);
    var b := LineParameter(p1, p2, p4);
    LineParameterAffine(p1, p2, a, b, t, s);
    if 0.0 <= a <= 1.0 {
      assert At(p1, p2, a) == p3;
    } else if 0.0 <= b <= 1.0 {
      assert At(p1, p2, b) == p4;
    } else {
      Between(a, b, t);
      var c := -a / (b - a);
      Ratio(-a, b - a);
      assert a + c * (b - a) == 0.0;
      StartParameter(p1, p2, a, b, c);
    }
  }

  lemma StartParameter(p: Point, q: Point, a: real, b: real, c: real)
    requires a + c * (b - a) == 0.0
    ensures At(At(p, q, a), At(p, q, b), c) == p
  {
    NestedAffine(p.x, q.x - p.x, a, b, c);
    NestedAffine(p.y, q.y - p.y, a, b, c);
  }

  lemma NestedAffine(x: real, dx: real, a: real, b: real, c: real)
    ensures (x + a * dx) + c * ((x + b * dx) - (x + a * dx)) == x + (a + c * (b - a)) * dx
  {
  }

  lemma LineParameter(p: Point, q: Point, z: Point) returns (t: real)
    requires p != q && Cross(p, q, z) == 0.0
    ensures At(p, q, t) == z
  {
    var dx, dy, ex, ey := q.x - p.x, q.y - p.y, z.x - p.x, z.y - p.y;
    if dx != 0.0 {
      t := ex / dx;
      CollinearOther(dx, dy, ex, ey, t);
    } else {
      t := ey / dy;
      CollinearOther(dy, dx, ey, ex, t);
    }
  }

  lemma LineParameterAffine(p: Point, q: Point, a: real, b: real, t: real, s: real)
    requires p != q
    requires At(p, q, s) == At(At(p, q, a), At(p, q, b), t)
    ensures s == a + t * (b - a)
  {
    var dx, dy := q.x - p.x, q.y - p.y;
    assert s * dx == (a + t * (b - a)) * dx;
    assert s * dy == (a + t * (b - a)) * dy;
    assert (s - (a + t * (b - a))) * dx == 0.0 && (s - (a + t * (b - a))) * dy == 0.0;
  }

  /** The orientation test decides exactly whether the two closed segments share a point. */
  lemma SegmentsIntersectCorrect(p1: Point, p2: Point, p3: Point, p4: Point)
    ensures SegmentsIntersect(p1, p2, p3, p4) <==> Meet(p1, p2, p3, p4)
  {
    OrientationIsSignOfCross(p1, p2, p3);
    OrientationIsSignOfCross(p1, p2, p4);
    OrientationIsSignOfCross(p3, p4, p1);
    OrientationIsSignOfCross(p3, p4, p2);
    OnSegmentIsOn(p1, p3, p2);
    OnSegmentIsOn(p1, p4, p2);
    OnSegmentIsOn(p3, p1, p4);
    OnSegmentIsOn(p3, p2, p4);
    EndpointsOn(p1, p2);
    EndpointsOn(p3, p4);
    MeetIsCommonPoint(p1, p2, p3, p4);
    if SegmentsIntersect(p1, p2, p3, p4) {
      if Orientation(p1, p2, p3) != Orientation(p1, p2, p4) && Orientation(p3, p4, p1) != Orientation(p3, p4, p2) {
        ProperCrossingMeets(p1, p2, p3, p4);
      }
    }
    if Meet(p1, p2, p3, p4) {
      MeetIsFound(p1, p2, p3, p4);
    }
  }

  lemma MeetIsFound(p1: Point, p2: Point, p3: Point, p4: Point)
    requires Meet(p1, p2, p3, p4)
    ensures
      || (Orientation(p1, p2, p3) != Orientation(p1, p2, p4) && Orientation(p3, p4, p1) != Orientation(p3, p4, p2))
      || On(p1, p2, p3) || On(p1, p2, p4) || On(p3, p4, p1)
  {
    var s: real, t: real :| 0.0 <= s <= 1.0 && 0.0 <= t <= 1.0 && At(p1, p2, s) == At(p3, p4, t);
    if p1 == p2 {
      PointMeets(p1, p3, p4, s, t);
    } else {
      ProperMeet(p1, p2, p3, p4, s, t);
    }
  }

  lemma PointMeets(p: Point, p3: Point, p4: Point, s: real, t: real)
    requires 0.0 <= t <= 1.0 && At(p, p, s) == At(p3, p4, t)
    ensures On(p3, p4, p)
  {
    DegenerateAt(p, s);
  }

  lemma DegenerateAt(p: Point, s: real)
    ensures At(p, p, s) == p
  {
  }

  lemma ProperMeet(p1: Point, p2: Point, p3: Point, p4: Point, s: real, t: real)
    requires p1 != p2 && 0.0 <= s <= 1.0 && 0.0 <= t <= 1.0 && At(p1, p2, s) == At(p3, p4, t)
    ensures
      || (Orientation(p1, p2, p3) != Orientation(p1, p2, p4) && Orientation(p3, p4, p1) != Orientation(p3, p4, p2))
      || On(p1, p2, p3) || On(p1, p2, p4) || On(p3, p4, p1)
  {
    var d := Det(p1, p2, p3, p4);
    MeetCrosses(p1, p2, p3, p4, s, t);
    if d != 0.0 {
      ProperOrientations(p1, p2, p3, p4, s, t, d);
    } else {
      CollinearMeetHasEndpoint(p1, p2, p3, p4);
    }
  }

  lemma ProperOrientations(p1: Point, p2: Point, p3: Point, p4: Point, s: real, t: real, d: real)
    requires 0.0 <= s <= 1.0 && 0.0 <= t <= 1.0 && d != 0.0
    requires Cross(p1, p2, p3) == -t * d && Cross(p1, p2, p4) == (1.0 - t) * d
    requires Cross(p3, p4, p1) == s * d && Cross(p3, p4, p2) == (s - 1.0) * d
    ensures Orientation(p1, p2, p3) != Orientation(p1, p2, p4) && Orientation(p3, p4, p1) != Orientation(p3, p4, p2)
  {
    OrientationIsSignOfCross(p1, p2, p3);
    OrientationIsSignOfCross(p1, p2, p4);
    OrientationIsSignOfCross(p3, p4, p1);
    OrientationIsSignOfCross(p3, p4, p2);
    OppositeSigns(t, d);
    OppositeSigns(s, d);
  }

  lemma OppositeSigns(t: real, d: real)
    requires 0.0 <= t <= 1.0 && d != 0.0
    ensures SignClass(-t * d) != SignClass((1.0 - t) * d)
    ensures SignClass(t * d) != SignClass((t - 1.0) * d)
  {
    SignRule(-t, d);
    SignRule(1.0 - t, d);
    SignRule(t, d);
    SignRule(t - 1.0, d);
  }
}
