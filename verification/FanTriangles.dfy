/** What even-odd containment means for an arbitrary polygon, self-intersecting ones included.
  *
  * A ring's crossing parity is the parity of the number of fan triangles from its first vertex
  * that cover the point. `Covers` is the half-open rule, by which a point of an edge lies on
  * exactly one of the edge's sides; off a triangle's boundary it is strict containment.
  */
module FanTriangles {
  import opened Segments
  import opened Cycles
  import opened PointInPolygon

  // ---------- The half-open rule ----------

  /** p, moved right by next to nothing and up by even less, is to the left of the directed edge ab. */
  predicate Left(a: Point, b: Point, p: Point) {
    var side := Cross(p, a, b);
    side > 0.0 || (side == 0.0 && (b.y < a.y || (b.y == a.y && b.x > a.x)))
  }

  /** The moved p is on the same side of all three directed edges. */
  predicate Covers(a: Point, b: Point, c: Point, p: Point) {
    || (Left(a, b, p) && Left(b, c, p) && Left(c, a, p))
    || (Left(b, a, p) && Left(c, b, p) && Left(a, c, p))
  }

  /** An edge that is not a point has p on exactly one side; a zero-length edge has no left side. */
  lemma OneSide(a: Point, b: Point, p: Point)
    ensures a != b ==> (Left(a, b, p) <==> !Left(b, a, p))
    ensures a == b ==> !Left(a, b, p)
  {
    assert Cross(p, b, a) == -Cross(p, a, b);
    assert a == b ==> Cross(p, a, b) == 0.0;
  }

  /** p is a combination of the corners weighted by the three cross products. */
  lemma CrossWeights(a: Point, b: Point, c: Point, p: Point)
    ensures Cross(p, b, c) * (a.y - p.y) + Cross(p, c, a) * (b.y - p.y) + Cross(p, a, b) * (c.y - p.y) == 0.0
  {
  }

  lemma ProductSigns(x: real, h: real)
    ensures x > 0.0 && h > 0.0 ==> x * h > 0.0
    ensures x > 0.0 && h < 0.0 ==> x * h < 0.0
    ensures x < 0.0 && h > 0.0 ==> x * h < 0.0
    ensures x < 0.0 && h < 0.0 ==> x * h > 0.0
    ensures x == 0.0 || h == 0.0 ==> x * h == 0.0
  {
    SignRule(x, h);
  }

  /** The sign of one weight from the other two, the corners' heights being known. */
  lemma ThirdWeight(x: real, y: real, z: real, ha: real, hb: real, hc: real)
    requires x * ha + y * hb + z * hc == 0.0
    ensures ha > 0.0 && hb <= 0.0 && hc <= 0.0 && y > 0.0 && z >= 0.0 ==>
      x > 0.0 || (x == 0.0 && hb == 0.0 && (z == 0.0 || hc == 0.0))
    ensures ha > 0.0 && hb <= 0.0 && hc <= 0.0 && y <= 0.0 && z < 0.0 ==>
      x < 0.0 || (x == 0.0 && hc == 0.0 && (y == 0.0 || hb == 0.0))
    ensures ha <= 0.0 && hb > 0.0 && hc > 0.0 && y >= 0.0 && z > 0.0 ==> x > 0.0
    ensures ha <= 0.0 && hb > 0.0 && hc > 0.0 && y < 0.0 && z <= 0.0 ==> x < 0.0
  {
    ProductSigns(x, ha);
    ProductSigns(y, hb);
    ProductSigns(z, hc);
  }

  /** With b at p's height, on which side of p it lies decides the weight of the edge ab. */
  lemma LevelCorner(a: Point, b: Point, p: Point)
    requires b.y == p.y && a.y != p.y
    ensures a.y > p.y ==> (Cross(p, a, b) > 0.0 <==> b.x < p.x) && (Cross(p, a, b) == 0.0 <==> b.x == p.x)
    ensures a.y < p.y ==> (Cross(p, a, b) > 0.0 <==> b.x > p.x) && (Cross(p, a, b) == 0.0 <==> b.x == p.x)
    ensures a.y > p.y ==> (Cross(p, b, a) > 0.0 <==> b.x > p.x) && (Cross(p, b, a) == 0.0 <==> b.x == p.x)
    ensures a.y < p.y ==> (Cross(p, b, a) > 0.0 <==> b.x < p.x) && (Cross(p, b, a) == 0.0 <==> b.x == p.x)
  {
    var h, g := a.y - p.y, b.x - p.x;
    assert Cross(p, b, a) == g * h && Cross(p, a, b) == -(g * h);
    ProductSigns(g, h);
  }

  // ---------- One triangle ----------

  lemma ThirdIsLeft(a: Point, b: Point, c: Point, p: Point)
    requires a.y > p.y && b.y <= p.y && c.y <= p.y && Cross(p, c, a) > 0.0 && Cross(p, a, b) >= 0.0
    ensures Left(b, c, p)
  {
    CrossWeights(a, b, c, p);
    ThirdWeight(Cross(p, b, c), Cross(p, c, a), Cross(p, a, b), a.y - p.y, b.y - p.y, c.y - p.y);
    if b.y == p.y { LevelCorner(a, b, p); }
    if c.y == p.y { LevelCorner(a, c, p); }
  }

  lemma ThirdIsRight(a: Point, b: Point, c: Point, p: Point)
    requires a.y > p.y && b.y <= p.y && c.y <= p.y && Cross(p, c, a) <= 0.0 && Cross(p, a, b) < 0.0
    ensures Left(c, b, p)
  {
    CrossWeights(a, b, c, p);
    ThirdWeight(Cross(p, b, c), Cross(p, c, a), Cross(p, a, b), a.y - p.y, b.y - p.y, c.y - p.y);
    assert Cross(p, c, b) == -Cross(p, b, c);
    if b.y == p.y { LevelCorner(a, b, p); }
    if c.y == p.y { LevelCorner(a, c, p); }
  }

  /** One corner above p's height, two not above: the two crossing tests decide. */
  lemma OneAboveCovers(a: Point, b: Point, c: Point, p: Point)
    requires a.y > p.y && b.y <= p.y && c.y <= p.y
    ensures (Cross(p, a, b) < 0.0) != (Cross(p, c, a) > 0.0) <==> Covers(a, b, c, p)
  {
    assert Cross(p, b, a) == -Cross(p, a, b) && Cross(p, a, c) == -Cross(p, c, a);
    if Cross(p, c, a) > 0.0 && Cross(p, a, b) >= 0.0 {
      ThirdIsLeft(a, b, c, p);
    }
    if Cross(p, c, a) <= 0.0 && Cross(p, a, b) < 0.0 {
      ThirdIsRight(a, b, c, p);
    }
  }

  /** One corner not above p's height, two above. */
  lemma OneBelowCovers(a: Point, b: Point, c: Point, p: Point)
    requires a.y <= p.y && b.y > p.y && c.y > p.y
    ensures (Cross(p, a, b) > 0.0) != (Cross(p, c, a) < 0.0) <==> Covers(a, b, c, p)
  {
    CrossWeights(a, b, c, p);
    ThirdWeight(Cross(p, b, c), Cross(p, c, a), Cross(p, a, b), a.y - p.y, b.y - p.y, c.y - p.y);
    assert Cross(p, b, a) == -Cross(p, a, b) && Cross(p, a, c) == -Cross(p, c, a) && Cross(p, c, b) == -Cross(p, b, c);
  }

  lemma NonNegativeSum(x: real, y: real, z: real, ha: real, hb: real, hc: real)
    requires x >= 0.0 && y >= 0.0 && z >= 0.0 && x * ha + y * hb + z * hc == 0.0
    requires (ha > 0.0 && hb > 0.0 && hc > 0.0) || (ha <= 0.0 && hb <= 0.0 && hc <= 0.0)
    ensures (ha == 0.0 || x == 0.0) && (hb == 0.0 || y == 0.0) && (hc == 0.0 || z == 0.0)
  {
    ProductSigns(x, ha);
    ProductSigns(y, hb);
    ProductSigns(z, hc);
  }

  /** With all corners on one side of p's height no orientation has p on the left throughout. */
  lemma NoLeftRound(a: Point, b: Point, c: Point, p: Point)
    requires (a.y > p.y && b.y > p.y && c.y > p.y) || (a.y <= p.y && b.y <= p.y && c.y <= p.y)
    ensures !(Left(a, b, p) && Left(b, c, p) && Left(c, a, p))
  {
    if Left(a, b, p) && Left(b, c, p) && Left(c, a, p) {
      CrossWeights(a, b, c, p);
      NonNegativeSum(Cross(p, b, c), Cross(p, c, a), Cross(p, a, b), a.y - p.y, b.y - p.y, c.y - p.y);
      if a.y < p.y && b.y == p.y == c.y {
        LevelCorner(a, b, p);
        LevelCorner(a, c, p);
      } else if b.y < p.y && c.y == p.y == a.y {
        LevelCorner(b, c, p);
        LevelCorner(b, a, p);
      } else if c.y < p.y && a.y == p.y == b.y {
        LevelCorner(c, a, p);
        LevelCorner(c, b, p);
      }
    }
  }

  /** A triangle's crossing parity is the half-open rule, for every point. */
  lemma ParityIsCovers(a: Point, b: Point, c: Point, p: Point)
    ensures RingParity([a, b, c], RayTest(p)) <==> Covers(a, b, c, p)
  {
    TriangleEdges(a, b, c, RayTest(p));
    CrossesBySide(a, b, p);
    CrossesBySide(b, c, p);
    CrossesBySide(c, a, p);
    var above := (if a.y > p.y then 1 else 0) + (if b.y > p.y then 1 else 0) + (if c.y > p.y then 1 else 0);
    if above == 1 {
      if a.y > p.y {
        OneAboveCovers(a, b, c, p);
      } else if b.y > p.y {
        OneAboveCovers(b, c, a, p);
      } else {
        OneAboveCovers(c, a, b, p);
      }
    } else if above == 2 {
      if a.y <= p.y {
        OneBelowCovers(a, b, c, p);
      } else if b.y <= p.y {
        OneBelowCovers(b, c, a, p);
      } else {
        OneBelowCovers(c, a, b, p);
      }
    } else {
      NoLeftRound(a, b, c, p);
      NoLeftRound(a, c, b, p);
    }
  }

  // ---------- Off the boundary the rule is strict containment ----------

  /** p is strictly on the same side of all three directed edges. */
  predicate StrictlyInside(a: Point, b: Point, c: Point, p: Point) {
    || (Cross(p, a, b) > 0.0 && Cross(p, b, c) > 0.0 && Cross(p, c, a) > 0.0)
    || (Cross(p, a, b) < 0.0 && Cross(p, b, c) < 0.0 && Cross(p, c, a) < 0.0)
  }

  ghost predicate OffTriangle(a: Point, b: Point, c: Point, p: Point) {
    !On(a, b, p) && !On(b, c, p) && !On(c, a, p)
  }

  /** Seen from a point of the line ab, the other two weights share the triangle's area. */
  lemma WeightsOnLine(a: Point, b: Point, c: Point, t: real)
    ensures Cross(At(a, b, t), b, c) == (1.0 - t) * Cross(a, b, c)
    ensures Cross(At(a, b, t), c, a) == t * Cross(a, b, c)
  {
  }

  /** A point on the line of an edge that the triangle covers lies on the edge. */
  lemma CoveredLevelPointIsOn(a: Point, b: Point, c: Point, p: Point)
    requires Left(a, b, p) && Left(b, c, p) && Left(c, a, p) && Cross(p, a, b) == 0.0
    ensures On(a, b, p)
  {
    OneSide(a, b, p);
    assert Cross(a, b, p) == Cross(p, a, b);
    var area := Cross(a, b, c);
    var t := LineParameter(a, b, p);
    WeightsOnLine(a, b, c, t);
    SignRule(1.0 - t, area);
    SignRule(t, area);
    assert At(a, b, t) == p;
  }

  /** Off its boundary a triangle covers exactly the points strictly inside. */
  lemma CoversIsStrict(a: Point, b: Point, c: Point, p: Point)
    requires OffTriangle(a, b, c, p)
    ensures Covers(a, b, c, p) <==> StrictlyInside(a, b, c, p)
  {
    assert Cross(p, b, a) == -Cross(p, a, b) && Cross(p, c, b) == -Cross(p, b, c) && Cross(p, a, c) == -Cross(p, c, a);
    OnReversed(a, b, p);
    OnReversed(b, c, p);
    OnReversed(c, a, p);
    if Left(a, b, p) && Left(b, c, p) && Left(c, a, p) {
      if Cross(p, a, b) == 0.0 { CoveredLevelPointIsOn(a, b, c, p); }
      if Cross(p, b, c) == 0.0 { CoveredLevelPointIsOn(b, c, a, p); }
      if Cross(p, c, a) == 0.0 { CoveredLevelPointIsOn(c, a, b, p); }
    }
    if Left(b, a, p) && Left(a, c, p) && Left(c, b, p) {
      if Cross(p, b, a) == 0.0 { CoveredLevelPointIsOn(b, a, c, p); }
      if Cross(p, a, c) == 0.0 { CoveredLevelPointIsOn(a, c, b, p); }
      if Cross(p, c, b) == 0.0 { CoveredLevelPointIsOn(c, b, a, p); }
    }
  }

  lemma ExactTouchIsOn(a: Point, b: Point, p: Point, eps: real)
    requires eps >= 0.0
    ensures On(a, b, p) ==> OnSegmentWithin(a, b, p, eps)
    ensures eps == 0.0 ==> (OnSegmentWithin(a, b, p, eps) <==> On(a, b, p))
  {
    OnSegmentIsOn(a, p, b);
  }

  ghost predicate NearTriangle(a: Point, b: Point, c: Point, p: Point, eps: real) {
    OnSegmentWithin(a, b, p, eps) || OnSegmentWithin(b, c, p, eps) || OnSegmentWithin(c, a, p, eps)
  }

  /** For every tolerance a triangle contains exactly the points near its edges and those strictly
    * inside; with tolerance 0 the former are its boundary. */
  lemma TriangleContains(a: Point, b: Point, c: Point, p: Point, eps: real)
    requires eps >= 0.0
    ensures RingContains([a, b, c], p, eps) <==> NearTriangle(a, b, c, p, eps) || StrictlyInside(a, b, c, p)
    ensures eps == 0.0 ==> (NearTriangle(a, b, c, p, eps) <==> !OffTriangle(a, b, c, p))
  {
    TriangleEdges(a, b, c, TouchTest(p, eps));
    ExactTouchIsOn(a, b, p, eps);
    ExactTouchIsOn(b, c, p, eps);
    ExactTouchIsOn(c, a, p, eps);
    if OffTriangle(a, b, c, p) {
      ParityIsCovers(a, b, c, p);
      CoversIsStrict(a, b, c, p);
    }
  }

  // ---------- Fans ----------

  /** How many triangles of the fan from v[0] cover p. */
  function CoverCount(v: seq<Point>, p: Point): nat {
    if |v| < 3 then 0
    else CoverCount(v[..|v| - 1], p) + if Covers(v[0], v[|v| - 2], v[|v| - 1], p) then 1 else 0
  }

  /** The last fan triangle counts, and flips the parity, iff it covers p. */
  lemma FanStep(v: seq<Point>, p: Point, u: seq<Point>) returns (hit: bool)
    requires |v| >= 3 && u == v[..|v| - 1]
    ensures CoverCount(v, p) == CoverCount(u, p) + if hit then 1 else 0
    ensures FanParity(v, RayTest(p)) == (FanParity(u, RayTest(p)) != hit)
  {
    var k := |v| - 1;
    hit := Covers(v[0], v[k - 1], v[k], p);
    ParityIsCovers(v[0], v[k - 1], v[k], p);
  }

  lemma OddStep(n: nat, m: nat, hit: bool)
    requires n == m + if hit then 1 else 0
    ensures n % 2 == 1 <==> (m % 2 == 1) != hit
  {
  }

  lemma {:induction false} FanParityIsCount(v: seq<Point>, p: Point, count: nat)
    requires count == CoverCount(v, p)
    ensures FanParity(v, RayTest(p)) <==> count % 2 == 1
  {
    if |v| >= 3 {
      var u := v[..|v| - 1];
      var hit := FanStep(v, p, u);
      FanParityIsCount(u, p, CoverCount(u, p));
      OddStep(count, CoverCount(u, p), hit);
    }
  }

  /** The answer for any polygon and any point: p is near an edge, or the number of fan triangles
    * covering p is odd. */
  lemma EvenOddCountsFanTriangles(v: seq<Point>, p: Point, eps: real)
    requires |v| >= 3
    ensures RingContains(v, p, eps) <==> SomeEdge(v, TouchTest(p, eps)) || CoverCount(v, p) % 2 == 1
  {
    RayTestSymmetric(p);
    RingIsFan(v, RayTest(p));
    FanParityIsCount(v, p, CoverCount(v, p));
  }

  /** How many triangles of the fan from v[0] strictly contain p. */
  function StrictCount(v: seq<Point>, p: Point): nat {
    if |v| < 3 then 0
    else StrictCount(v[..|v| - 1], p) + if StrictlyInside(v[0], v[|v| - 2], v[|v| - 1], p) then 1 else 0
  }

  ghost predicate OffFan(v: seq<Point>, p: Point) {
    forall k: nat :: 2 <= k < |v| ==> OffTriangle(v[0], v[k - 1], v[k], p)
  }

  /** Off the edges and chords of the fan the covering triangles are those strictly containing p. */
  lemma {:induction false} OffFanCountsAgree(v: seq<Point>, p: Point)
    requires OffFan(v, p)
    ensures CoverCount(v, p) == StrictCount(v, p)
  {
    if |v| >= 3 {
      var u, k := v[..|v| - 1], |v| - 1;
      forall i: nat | 2 <= i < |u| ensures OffTriangle(u[0], u[i - 1], u[i], p) {
        assert OffTriangle(v[0], v[i - 1], v[i], p);
      }
      OffFanCountsAgree(u, p);
      CoversIsStrict(v[0], v[k - 1], v[k], p);
    }
  }
}
