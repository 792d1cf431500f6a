/** What a repeated vertex does to point-in-polygon.
  *
  * A ring whose first and last vertices coincide loses its last one. If the coincidence is a
  * repeated vertex, where the ring starts decides whether the repeat is dropped; with a tolerance
  * the dropped zero-length edge can matter, for it touches the whole tolerance box of the vertex.
  */
module RepeatedVertices {
  import opened Segments
  import opened Cycles
  import opened PointInPolygon

  /** The ring that starts at vertex k. */
  function Turn(v: seq<Point>, k: nat): seq<Point>
    requires k <= |v|
  {
    v[k..] + v[..k]
  }

  /** The ring without vertex i, starting after it. */
  function Without(v: seq<Point>, i: nat): seq<Point>
    requires i < |v|
  {
    v[i + 1..] + v[..i]
  }

  predicate Repeats(v: seq<Point>, i: nat)
    requires i < |v|
  {
    v[i] == v[Next(i, |v|)]
  }

  /** Some start vertex gives another answer for some point. */
  ghost predicate StartMatters(v: seq<Point>, eps: real) {
    exists k: nat, p: Point :: k <= |v| && Contains(Turn(v, k), p, eps) != Contains(v, p, eps)
  }

  /** p is within tolerance of a repeated vertex, and the ring without the repeat does not contain it. */
  ghost predicate Exposed(v: seq<Point>, i: nat, p: Point, eps: real) {
    i < |v| && Repeats(v, i) && OnSegmentWithin(v[i], v[i], p, eps) && !RingContains(Without(v, i), p, eps)
  }

  /** Three vertices of which exactly two coincide: where the duplicate stands decides whether it
    * is taken for a closing vertex, which leaves too few vertices to contain anything. */
  predicate HalfCollapsed(v: seq<Point>) {
    |v| == 3 && (v[0] == v[1] || v[1] == v[2] || v[2] == v[0]) && !(v[0] == v[1] == v[2])
  }

  // ---------- Dropping one of two equal neighbours ----------

  lemma DegenerateTriangleParity(a: Point, b: Point, p: Point)
    ensures !RingParity([a, b, a], RayTest(p))
  {
    RayTestSymmetric(p);
    TriangleEdges(a, b, a, RayTest(p));
    CrossesBySide(a, a, p);
  }

  lemma DropParity(v: seq<Point>, p: Point)
    requires |v| >= 4 && v[0] == v[|v| - 1]
    ensures RingParity(v, RayTest(p)) == RingParity(v[..|v| - 1], RayTest(p))
  {
    var n := |v|;
    RayTestSymmetric(p);
    ChordSplit(v, 0, n - 2, RayTest(p));
    assert v[0..n - 2 + 1] == v[..n - 1];
    assert v[..0 + 1] + v[n - 2..] == [v[0], v[n - 2], v[0]];
    DegenerateTriangleParity(v[0], v[n - 2], p);
  }

  /** Dropping the last of two equal ends removes exactly the zero-length edge. */
  lemma DropEdge(v: seq<Point>, test: (Point, Point) -> bool)
    requires |v| >= 4 && v[0] == v[|v| - 1]
    ensures SomeEdge(v, test) <==> SomeEdge(v[..|v| - 1], test) || test(v[0], v[0])
  {
    var n, w := |v|, v[..|v| - 1];
    if i: nat :| i < n && test(v[i], v[Next(i, n)]) {
      if i < n - 1 {
        assert test(w[i], w[Next(i, n - 1)]);
      }
    }
    if i: nat :| i < n - 1 && test(w[i], w[Next(i, n - 1)]) {
      assert test(v[i], v[Next(i, n)]);
    }
    if test(v[0], v[0]) {
      assert test(v[n - 1], v[Next(n - 1, n)]);
    }
  }

  lemma TurnKeepsRing(v: seq<Point>, k: nat, w: seq<Point>, p: Point, eps: real)
    requires k <= |v| && w == Turn(v, k)
    ensures RingContains(w, p, eps) == RingContains(v, p, eps)
  {
    RingContainsUnchanged(v, k, p, eps);
  }

  lemma TurnEnds(v: seq<Point>, i: nat, w: seq<Point>)
    requires i < |v| && w == Turn(v, i + 1)
    ensures |w| == |v| && w[0] == v[Next(i, |v|)] && w[|v| - 1] == v[i] && w[..|v| - 1] == Without(v, i)
  {
  }

  /** A repeated vertex adds to a ring exactly the tolerance box of the vertex. */
  lemma RepeatAddsBox(v: seq<Point>, i: nat, p: Point, eps: real)
    requires |v| >= 4 && i < |v| && Repeats(v, i)
    ensures RingContains(v, p, eps) <==> RingContains(Without(v, i), p, eps) || OnSegmentWithin(v[i], v[i], p, eps)
  {
    var w := Turn(v, i + 1);
    TurnEnds(v, i, w);
    TurnKeepsRing(v, i + 1, w, p, eps);
    DropParity(w, p);
    DropEdge(w, TouchTest(p, eps));
  }

  lemma ContainsByEnds(w: seq<Point>, p: Point, eps: real)
    requires |w| >= 2
    ensures Contains(w, p, eps) ==
      if w[|w| - 1] == w[0] then RingContains(w[..|w| - 1], p, eps) else RingContains(w, p, eps)
  {
  }

  /** The answer for the ring started after vertex i. */
  lemma ContainsFrom(v: seq<Point>, i: nat, p: Point, eps: real)
    requires |v| >= 2 && i < |v|
    ensures Contains(Turn(v, i + 1), p, eps) ==
      if Repeats(v, i) then RingContains(Without(v, i), p, eps) else RingContains(v, p, eps)
  {
    var w := Turn(v, i + 1);
    TurnEnds(v, i, w);
    ContainsByEnds(w, p, eps);
    if !Repeats(v, i) {
      TurnKeepsRing(v, i + 1, w, p, eps);
    }
  }

  // ---------- When the start vertex matters ----------

  lemma StartAtEnds(v: seq<Point>)
    ensures Turn(v, 0) == v == Turn(v, |v|)
  {
  }

  /** A ring all of whose vertices repeat is one point, many times. */
  lemma {:induction false} AllRepeatsAreEqual(v: seq<Point>, j: nat)
    requires j < |v| && forall i: nat :: i < |v| ==> Repeats(v, i)
    ensures v[j] == v[0]
  {
    if j > 0 {
      AllRepeatsAreEqual(v, j - 1);
      assert Repeats(v, j - 1);
    }
  }

  lemma OnePointTouches(v: seq<Point>, i: nat, p: Point, eps: real)
    requires |v| >= 4 && i < |v| && (forall j: nat :: j < |v| ==> v[j] == v[0]) && OnSegmentWithin(v[i], v[i], p, eps)
    ensures RingContains(Without(v, i), p, eps)
  {
    var w := Without(v, i);
    assert w[0] == v[0] && w[1] == v[0];
    assert TouchTest(p, eps)(w[0], w[Next(0, |w|)]);
  }

  lemma ExposedMatters(v: seq<Point>, i: nat, p: Point, eps: real)
    requires |v| >= 4 && Exposed(v, i, p, eps)
    ensures StartMatters(v, eps)
  {
    RepeatAddsBox(v, i, p, eps);
    ContainsFrom(v, i, p, eps);
    if Contains(v, p, eps) {
      assert Contains(Turn(v, i + 1), p, eps) != Contains(v, p, eps);
    } else if forall j: nat :: j < |v| ==> Repeats(v, j) {
      forall j: nat | j < |v| ensures v[j] == v[0] {
        AllRepeatsAreEqual(v, j);
      }
      OnePointTouches(v, i, p, eps);
    } else {
      var j: nat :| j < |v| && !Repeats(v, j);
      ContainsFrom(v, j, p, eps);
      assert Contains(Turn(v, j + 1), p, eps) != Contains(v, p, eps);
    }
  }

  /** Every answer is that of the whole ring or of the ring without one repeat. */
  lemma AnswerOfTurn(v: seq<Point>, k: nat, p: Point, eps: real) returns (i: nat)
    requires |v| >= 2 && k <= |v|
    ensures i < |v| && Contains(Turn(v, k), p, eps) ==
      if Repeats(v, i) then RingContains(Without(v, i), p, eps) else RingContains(v, p, eps)
  {
    i := if k == 0 then |v| - 1 else k - 1;
    StartAtEnds(v);
    ContainsFrom(v, i, p, eps);
  }

  /** Two different answers expose the repeat that one of them dropped. */
  lemma ChangeIsExposed(v: seq<Point>, k: nat, p: Point, eps: real) returns (i: nat)
    requires |v| >= 4 && k <= |v| && Contains(Turn(v, k), p, eps) != Contains(v, p, eps)
    ensures Exposed(v, i, p, eps)
  {
    StartAtEnds(v);
    var i1 := AnswerOfTurn(v, k, p, eps);
    var i2 := AnswerOfTurn(v, 0, p, eps);
    if Repeats(v, i1) {
      RepeatAddsBox(v, i1, p, eps);
    }
    if Repeats(v, i2) {
      RepeatAddsBox(v, i2, p, eps);
    }
    i := if Repeats(v, i1) && !RingContains(Without(v, i1), p, eps) then i1 else i2;
  }

  /** A triangle with two equal vertices: one start makes the repeat look like a closing vertex. */
  lemma RepeatedVertexBreaksRotation(a: Point, b: Point, eps: real)
    requires a != b && eps >= 0.0
    ensures Contains([a, a, b], a, eps) && !Contains([a, b, a], a, eps)
  {
    var v := [a, a, b];
    assert TouchTest(a, eps)(v[0], v[Next(0, 3)]);
    assert OpenRing(v) == v;
    assert |OpenRing([a, b, a])| == 2;
  }

  lemma HalfCollapsedMatters(v: seq<Point>, eps: real)
    requires HalfCollapsed(v) && eps >= 0.0
    ensures StartMatters(v, eps)
  {
    var a, b, c := v[0], v[1], v[2];
    assert v == [a, b, c];
    if a == b {
      RepeatedVertexBreaksRotation(a, c, eps);
      assert Turn(v, 1) == [a, c, a];
    } else if b == c {
      RepeatedVertexBreaksRotation(b, a, eps);
      assert Turn(v, 2) == [b, a, b];
      assert Turn(v, 1) == [b, b, a];
      var k: nat := if Contains(v, b, eps) then 2 else 1;
      assert Contains(Turn(v, k), b, eps) != Contains(v, b, eps);
    } else {
      RepeatedVertexBreaksRotation(a, b, eps);
      assert Turn(v, 2) == [a, a, b];
    }
  }

  lemma ThreeVertices(v: seq<Point>, k: nat, p: Point, eps: real, constant: bool, whole: bool)
    requires |v| == 3 && k <= 3 && !HalfCollapsed(v)
    requires constant == (v[0] == v[1] == v[2]) && whole == RingContains(v, p, eps)
    ensures Contains(Turn(v, k), p, eps) == (!constant && whole)
  {
    var i := AnswerOfTurn(v, k, p, eps);
    assert |Without(v, i)| == 2;
  }

  lemma FewVertices(v: seq<Point>, eps: real)
    requires |v| <= 3 && !HalfCollapsed(v)
    ensures !StartMatters(v, eps)
  {
    forall k: nat, p: Point | k <= |v| ensures Contains(Turn(v, k), p, eps) == Contains(v, p, eps) {
      if |v| == 3 {
        StartAtEnds(v);
        var whole := RingContains(v, p, eps);
        var constant := v[0] == v[1] == v[2];
        ThreeVertices(v, k, p, eps, constant, whole);
        ThreeVertices(v, 0, p, eps, constant, whole);
      }
    }
  }

  /** Exactly when the start vertex matters, for every tolerance: some point near a repeated vertex
    * is outside the ring without the repeat, or the ring is a half-collapsed triangle. */
  lemma StartMattersIff(v: seq<Point>, eps: real)
    requires eps >= 0.0
    ensures StartMatters(v, eps) <==>
      if |v| >= 4 then exists i: nat, p: Point :: Exposed(v, i, p, eps) else HalfCollapsed(v)
  {
    if |v| >= 4 {
      if i: nat, p: Point :| Exposed(v, i, p, eps) {
        ExposedMatters(v, i, p, eps);
      }
      if StartMatters(v, eps) {
        var k: nat, p: Point :| k <= |v| && Contains(Turn(v, k), p, eps) != Contains(v, p, eps);
        var i := ChangeIsExposed(v, k, p, eps);
      }
    } else if HalfCollapsed(v) {
      HalfCollapsedMatters(v, eps);
    } else {
      FewVertices(v, eps);
    }
  }

  // ---------- A check on the edges beside a repeated vertex ----------

  predicate Short(a: Point, b: Point) {
    (Max(a.x, b.x) - Min(a.x, b.x)) + (Max(a.y, b.y) - Min(a.y, b.y)) <= 1.0
  }

  lemma BoundedProduct(d: real, e: real, eps: real) returns (m: real)
    requires -eps <= e <= eps
    ensures m == d * e
    ensures -((if d < 0.0 then -d else d) * eps) <= m <= (if d < 0.0 then -d else d) * eps
  {
    m := d * e;
    if d < 0.0 {
      assert -d * (eps - e) >= 0.0 && -d * (eps + e) >= 0.0;
    } else {
      assert d * (eps - e) >= 0.0 && d * (eps + e) >= 0.0;
    }
  }

  /** The cross product of a short vector with one inside the tolerance box. */
  lemma CrossIsSmall(dx: real, dy: real, ex: real, ey: real, eps: real) returns (m: real)
    requires -eps <= ex <= eps && -eps <= ey <= eps
    requires (if dx < 0.0 then -dx else dx) + (if dy < 0.0 then -dy else dy) <= 1.0
    ensures m == dx * ey - dy * ex && -eps <= m <= eps
  {
    var m1 := BoundedProduct(dx, ey, eps);
    var m2 := BoundedProduct(dy, ex, eps);
    var s, t := if dx < 0.0 then -dx else dx, if dy < 0.0 then -dy else dy;
    assert (1.0 - s - t) * eps >= 0.0;
    m := m1 - m2;
  }

  lemma BoxOf(a: Point, p: Point, eps: real)
    requires OnSegmentWithin(a, a, p, eps)
    ensures -eps <= p.x - a.x <= eps && -eps <= p.y - a.y <= eps
  {
    TouchStaysInBox(a, a, p, eps);
  }

  /** A short edge touches the whole tolerance box of its first end. */
  lemma ShortEdgeCoversBox(a: Point, b: Point, p: Point, eps: real)
    requires Short(a, b) && OnSegmentWithin(a, a, p, eps)
    ensures OnSegmentWithin(a, b, p, eps)
  {
    BoxOf(a, p, eps);
    var m := CrossIsSmall(b.x - a.x, b.y - a.y, p.x - a.x, p.y - a.y, eps);
  }

  /** Before or after the repeated vertex i there is a short edge. */
  predicate ShortBeside(v: seq<Point>, i: nat)
    requires i < |v|
  {
    var j := Next(i, |v|);
    Short(v[j], v[Next(j, |v|)]) || Short(v[if i == 0 then |v| - 1 else i - 1], v[i])
  }

  lemma ShortEdgeHidesRepeat(v: seq<Point>, i: nat, p: Point, eps: real)
    requires |v| >= 4 && i < |v| && Repeats(v, i) && ShortBeside(v, i) && OnSegmentWithin(v[i], v[i], p, eps)
    ensures RingContains(Without(v, i), p, eps)
  {
    var n, w, touch := |v|, Without(v, i), TouchTest(p, eps);
    var j, h := Next(i, n), if i == 0 then n - 1 else i - 1;
    assert w[0] == v[j] && w[1] == v[Next(j, n)] && w[n - 2] == v[h];
    if Short(v[j], v[Next(j, n)]) {
      ShortEdgeCoversBox(w[0], w[1], p, eps);
      assert touch(w[0], w[Next(0, n - 1)]);
    } else {
      ShortEdgeCoversBox(v[i], v[h], p, eps);
      TouchTestSymmetric(p, eps);
      assert touch(v[i], v[h]) == touch(v[h], v[i]);
      assert touch(w[n - 2], w[Next(n - 2, n - 1)]);
    }
  }

  /** Repeats beside an edge of at most one unit are harmless for every tolerance. */
  lemma ShortEdgesMakeStartIrrelevant(v: seq<Point>, eps: real)
    requires |v| >= 4 && eps >= 0.0
    requires forall i: nat :: i < |v| && Repeats(v, i) ==> ShortBeside(v, i)
    ensures !StartMatters(v, eps)
  {
    StartMattersIff(v, eps);
    if i: nat, p: Point :| Exposed(v, i, p, eps) {
      ShortEdgeHidesRepeat(v, i, p, eps);
    }
  }

  lemma LongLeg(leg: real, eps: real) returns (m: real)
    requires leg > 1.0 && eps > 0.0
    ensures m == leg * eps && m > eps
  {
    m := leg * eps;
    assert (leg - 1.0) * eps > 0.0;
  }

  /** Just outside the corner of a right triangle no edge is near and none is crossed. */
  lemma OutsideTheCorner(leg: real, eps: real, a: Point, b: Point, c: Point, p: Point)
    requires leg > 1.0 && eps > 0.0 && p == Point(-eps, -eps)
    requires a == Point(0.0, 0.0) && b == Point(leg, 0.0) && c == Point(0.0, leg)
    ensures !OnSegmentWithin(a, b, p, eps) && !OnSegmentWithin(b, c, p, eps) && !OnSegmentWithin(c, a, p, eps)
    ensures !Crosses(b, a, p) && !Crosses(c, b, p) && !Crosses(a, c, p)
  {
    var m := LongLeg(leg, eps);
    assert (b.x - a.x) * (p.y - a.y) - (b.y - a.y) * (p.x - a.x) == -m;
    assert (a.x - c.x) * (p.y - c.y) - (a.y - c.y) * (p.x - c.x) == -m;
    assert (c.x - b.x) * (p.y - b.y) - (c.y - b.y) * (p.x - b.x) == m + m + leg * leg;
    assert leg * leg > 0.0;
  }

  /** The bound is sharp: with legs longer than one unit the repeat at the corner of a right triangle
    * is exposed at every positive tolerance. */
  lemma LongEdgesExposeRepeat(leg: real, eps: real)
    requires leg > 1.0 && eps > 0.0
    ensures var a, p := Point(0.0, 0.0), Point(-eps, -eps);
      var v := [a, a, Point(leg, 0.0), Point(0.0, leg)];
      Contains(v, p, eps) && !Contains(Turn(v, 1), p, eps)
  {
    var a, b, c, p := Point(0.0, 0.0), Point(leg, 0.0), Point(0.0, leg), Point(-eps, -eps);
    var v := [a, a, b, c];
    assert TouchTest(p, eps)(v[0], v[Next(0, 4)]);
    assert OpenRing(v) == v;
    assert Turn(v, 1) == [a, b, c, a];
    assert OpenRing([a, b, c, a]) == [a, b, c];
    TriangleEdges(a, b, c, TouchTest(p, eps));
    TriangleEdges(a, b, c, RayTest(p));
    OutsideTheCorner(leg, eps, a, b, c, p);
  }

  /** A four-vertex zone, at the engine's tolerance, whose answer depends on the start vertex. */
  lemma RepeatMattersAtTheEngineTolerance()
    ensures var v := [Point(0.0, 0.0), Point(0.0, 0.0), Point(100.0, 0.0), Point(0.0, 100.0)];
      !HalfCollapsed(v) && StartMatters(v, 0.000000001)
  {
    LongEdgesExposeRepeat(100.0, BOUNDARY_EPSILON);
    var v := [Point(0.0, 0.0), Point(0.0, 0.0), Point(100.0, 0.0), Point(0.0, 100.0)];
    var p := Point(-BOUNDARY_EPSILON, -BOUNDARY_EPSILON);
    assert Contains(v, p, BOUNDARY_EPSILON) && !Contains(Turn(v, 1), p, BOUNDARY_EPSILON);
  }

  lemma FirstVertexTouches(w: seq<Point>, p: Point)
    requires |w| >= 3 && w[0] == p
    ensures RingContains(w, p, 0.0)
  {
    assert TouchTest(p, 0.0)(w[0], w[Next(0, |w|)]);
  }

  lemma WithoutStartsAfter(v: seq<Point>, i: nat)
    requires |v| >= 2 && i < |v|
    ensures Without(v, i)[0] == v[Next(i, |v|)]
  {
  }

  lemma NothingExposedExactly(v: seq<Point>, i: nat, p: Point)
    requires |v| >= 4
    ensures !Exposed(v, i, p, 0.0)
  {
    if i < |v| && Repeats(v, i) && OnSegmentWithin(v[i], v[i], p, 0.0) {
      BoxOf(v[i], p, 0.0);
      WithoutStartsAfter(v, i);
      FirstVertexTouches(Without(v, i), p);
    }
  }

  /** With tolerance 0 the start vertex never matters, repeated vertices or not, except in a
    * triangle of which exactly two vertices coincide. */
  lemma ExactStartMattersIff(v: seq<Point>)
    ensures StartMatters(v, 0.0) <==> HalfCollapsed(v)
  {
    StartMattersIff(v, 0.0);
    if |v| >= 4 {
      forall i: nat, p: Point ensures !Exposed(v, i, p, 0.0) {
        NothingExposedExactly(v, i, p);
      }
    }
  }

  // ---------- Direction ----------

  lemma ReverseKeepsRing(v: seq<Point>, p: Point, eps: real)
    ensures RingContains(Reverse(v), p, eps) == RingContains(v, p, eps)
  {
    RingContainsUnchanged(v, 0, p, eps);
  }

  /** Reversal drops the first vertex where the ring itself drops the last, and they coincide. */
  lemma ReverseKeepsClosed(v: seq<Point>, p: Point, eps: real)
    requires |v| >= 2 && v[0] == v[|v| - 1]
    ensures RingContains(Reverse(v)[..|v| - 1], p, eps) == RingContains(v[..|v| - 1], p, eps)
  {
    var n := |v|;
    var u, w := v[..n - 1], v[1..];
    assert Reverse(v)[..n - 1] == Reverse(w);
    assert w == Turn(u, 1);
    ReverseKeepsRing(w, p, eps);
    TurnKeepsRing(u, 1, w, p, eps);
  }

  /** The direction of a ring never matters, repeated vertices or not. */
  lemma DirectionNeverMatters(v: seq<Point>, p: Point, eps: real)
    ensures Contains(Reverse(v), p, eps) == Contains(v, p, eps)
  {
    if |v| >= 2 {
      ContainsByEnds(v, p, eps);
      ContainsByEnds(Reverse(v), p, eps);
      if v[0] == v[|v| - 1] {
        ReverseKeepsClosed(v, p, eps);
      } else {
        ReverseKeepsRing(v, p, eps);
      }
    }
  }
}
