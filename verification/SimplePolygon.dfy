/** The zone validator: is a closed ring a simple polygon?
  *
  * The validator loops over edge pairs; adjacent edges are checked by `CollinearOverlap`, which
  * sees only one of the two ways two collinear edges can fold back. The theorem
  * `AcceptIffSimple` is therefore about the whole loop: the fold that one pair misses is
  * always caught by another pair.
  */
module SimplePolygon {
  import opened Segments
  import opened Cycles

  /** Result of the two ring predicates. */
  datatype GeometryCheck = GeometryCheck(isClosed: bool, isValid: bool)

  predicate Adjacent(i: nat, j: nat, n: nat) { j == Next(i, n) || i == Next(j, n) }

  // ---------- What simple means ----------

  /** z lies on edge i of the cycle v. */
  ghost predicate OnEdge(v: seq<Point>, i: nat, z: Point)
    requires i < |v|
  {
    On(v[i], v[Next(i, |v|)], z)
  }

  ghost predicate EdgesProper(v: seq<Point>) {
    forall i: nat :: i < |v| ==> v[i] != v[Next(i, |v|)]
  }

  ghost predicate NeighboursShareVertexOnly(v: seq<Point>) {
    forall i: nat, z: Point :: i < |v| && OnEdge(v, i, z) && OnEdge(v, Next(i, |v|), z) ==> z == v[Next(i, |v|)]
  }

  ghost predicate OthersDisjoint(v: seq<Point>) {
    forall i: nat, j: nat, z: Point ::
      i < |v| && j < |v| && i != j && !Adjacent(i, j, |v|) ==> !(OnEdge(v, i, z) && OnEdge(v, j, z))
  }

  /** Edges are proper, neighbours share exactly their vertex, all other pairs are disjoint. */
  ghost predicate Simple(v: seq<Point>) {
    |v| >= 3 && EdgesProper(v) && NeighboursShareVertexOnly(v) && OthersDisjoint(v)
  }

  /** The boundary walked once: edge i at parameter t in [0, 1). */
  function BoundaryAt(v: seq<Point>, i: nat, t: real): Point
    requires i < |v|
  {
    At(v[i], v[Next(i, |v|)], t)
  }

  /** An independent reading of "simple closed curve": the walk visits no point twice. */
  ghost predicate InjectiveBoundary(v: seq<Point>) {
    && |v| >= 3
    && forall i: nat, j: nat, s: real, t: real ::
         i < |v| && j < |v| && 0.0 <= s < 1.0 && 0.0 <= t < 1.0 && BoundaryAt(v, i, s) == BoundaryAt(v, j, t)
         ==> i == j && s == t
  }

  // ---------- The pair test ----------

  predicate CollinearOverlap(a1: Point, a2: Point, b1: Point, b2: Point) {
    if Orientation(a1, a2, b1) == 0 && Orientation(a1, a2, b2) == 0 then
      var sharedAtEnd := a2 == b1;
      var sharedAtStart := a1 == b2;
      if sharedAtEnd && OnSegment(a1, b2, a2) then true
      else if sharedAtStart && OnSegment(b1, a2, b2) then true
      else false
    else false
  }

  predicate PairRejected(v: seq<Point>, i: nat, j: nat)
    requires i < j < |v|
  {
    var n := |v|;
    if j == i + 1 || (i == 0 && j == n - 1)
    then CollinearOverlap(v[i], v[Next(i, n)], v[j], v[Next(j, n)])
    else SegmentsIntersect(v[i], v[Next(i, n)], v[j], v[Next(j, n)])
  }

  ghost predicate Accepted(v: seq<Point>) {
    forall i: nat, j: nat :: i < j < |v| ==> !PairRejected(v, i, j)
  }

  // ---------- What the adjacent test sees ----------

  lemma OverlapOfConsecutive(a: Point, b: Point, c: Point)
    ensures CollinearOverlap(a, b, b, c) <==> On(a, b, c)
    ensures CollinearOverlap(b, c, a, b) <==> On(a, b, c)
  {
    OrientationIsSignOfCross(a, b, b);
    OrientationIsSignOfCross(a, b, c);
    OrientationIsSignOfCross(b, c, a);
    OrientationIsSignOfCross(b, c, b);
    OnSegmentIsOn(a, c, b);
    assert Cross(b, c, a) == Cross(a, b, c);
  }

  /** The overlooked fold: b runs back over a and beyond, so the pair test stays silent. */
  lemma OverlapMissesTheOtherFold(a: Point, b: Point, c: Point)
    requires a == Point(1.0, 0.0) && b == Point(0.0, 0.0) && c == Point(2.0, 0.0)
    ensures On(b, c, a) && !CollinearOverlap(a, b, b, c)
  {
    assert !CollinearOverlap(a, b, b, c) by {
      assert c.x > Max(a.x, b.x) && a != c;
    }
    assert On(b, c, a) by {
      assert At(b, c, 0.5) == a;
    }
  }

  /** Two edges leaving c that meet elsewhere fold onto each other, one way or the other. */
  lemma CommonPointFolds(a: Point, c: Point, b: Point, z: Point)
    requires On(a, c, z) && On(c, b, z) && z != c
    ensures On(a, c, b) || On(c, b, a)
  {
    OnReversed(a, c, z);
    OnReversed(a, c, b);
    var s: real :| 0.0 <= s <= 1.0 && At(c, a, s) == z;
    var t: real :| 0.0 <= t <= 1.0 && At(c, b, t) == z;
    if s <= t {
      ScaledPoint(c, a, b, s, t);
    } else {
      ScaledPoint(c, b, a, t, s);
    }
  }

  lemma ScaledPoint(c: Point, a: Point, b: Point, s: real, t: real)
    requires 0.0 < s <= t && At(c, a, s) == At(c, b, t)
    ensures On(c, a, b)
  {
    var r := s / t;
    assert r * t == s && 0.0 <= r <= 1.0;
    Unscale(a.x - c.x, b.x - c.x, s, t, r);
    Unscale(a.y - c.y, b.y - c.y, s, t, r);
    assert At(c, a, r) == b;
  }

  lemma Unscale(dx: real, ex: real, s: real, t: real, r: real)
    requires t > 0.0 && r * t == s && s * dx == t * ex
    ensures r * dx == ex
  {
    assert t * (r * dx) == (r * t) * dx;
    assert t * (r * dx - ex) == 0.0;
  }

  // ---------- From index pairs to the cycle ----------

  /** The vertex two steps after edge i's start lies on edge i: the fold the pair test sees. */
  ghost predicate FoldsBack(v: seq<Point>, i: nat)
    requires i < |v|
  {
    OnEdge(v, i, v[Next(Next(i, |v|), |v|)])
  }

  ghost predicate EdgesMeet(v: seq<Point>, i: nat, j: nat)
    requires i < |v| && j < |v|
  {
    exists z :: OnEdge(v, i, z) && OnEdge(v, j, z)
  }

  lemma PairMeaning(v: seq<Point>, i: nat, j: nat)
    requires |v| >= 3 && i < j < |v|
    ensures PairRejected(v, i, j) <==>
      if j == i + 1 then FoldsBack(v, i) else if i == 0 && j == |v| - 1 then FoldsBack(v, j) else EdgesMeet(v, i, j)
  {
    var n := |v|;
    if j == i + 1 {
      OverlapOfConsecutive(v[i], v[j], v[Next(j, n)]);
    } else if i == 0 && j == n - 1 {
      OverlapOfConsecutive(v[j], v[i], v[Next(i, n)]);
    } else {
      SegmentsIntersectCorrect(v[i], v[Next(i, n)], v[j], v[Next(j, n)]);
      MeetIsCommonPoint(v[i], v[Next(i, n)], v[j], v[Next(j, n)]);
      if z :| On(v[i], v[Next(i, n)], z) && On(v[j], v[Next(j, n)], z) {
        assert OnEdge(v, i, z) && OnEdge(v, j, z);
      }
    }
  }

  /** The loop accepts iff no edge is folded back onto and no two non-adjacent edges meet. */
  lemma AcceptedOnCycle(v: seq<Point>)
    requires |v| >= 3
    ensures Accepted(v) <==>
      && (forall i: nat :: i < |v| ==> !FoldsBack(v, i))
      && (forall i: nat, j: nat :: i < j < |v| && !Adjacent(i, j, |v|) ==> !EdgesMeet(v, i, j))
  {
    var n := |v|;
    forall i: nat, j: nat | i < j < n
      ensures PairRejected(v, i, j) <==>
        if j == i + 1 then FoldsBack(v, i) else if i == 0 && j == n - 1 then FoldsBack(v, j) else EdgesMeet(v, i, j)
    {
      PairMeaning(v, i, j);
    }
    if Accepted(v) {
      forall i: nat | i < n ensures !FoldsBack(v, i) {
        if i + 1 < n {
          assert !PairRejected(v, i, i + 1);
        } else {
          assert !PairRejected(v, 0, i);
        }
      }
    }
  }

  /** The fold that `CollinearOverlap` misses makes another pair of the loop reject. */
  lemma ForwardFoldIsCaught(v: seq<Point>, i: nat)
    requires |v| >= 3 && i < |v|
    requires OnEdge(v, Next(i, |v|), v[i])
    ensures !Accepted(v)
  {
    var n := |v|;
    AcceptedOnCycle(v);
    var j := Next(i, n);
    if n == 3 {
      assert FoldsBack(v, j);
    } else {
      var h := if i == 0 then n - 1 else i - 1;
      EndpointsOn(v[h], v[i]);
      assert OnEdge(v, h, v[i]) && OnEdge(v, j, v[i]);
      if h < j {
        assert EdgesMeet(v, h, j);
      } else {
        assert EdgesMeet(v, j, h);
      }
    }
  }

  lemma AcceptedIsSimple(v: seq<Point>)
    requires |v| >= 3 && Accepted(v)
    ensures Simple(v)
  {
    var n := |v|;
    AcceptedOnCycle(v);
    forall i: nat | i < n ensures v[i] != v[Next(i, n)] {
      var h := if i == 0 then n - 1 else i - 1;
      EndpointsOn(v[h], v[i]);
      assert !FoldsBack(v, h);
    }
    forall i: nat, z: Point | i < n && OnEdge(v, i, z) && OnEdge(v, Next(i, n), z)
      ensures z == v[Next(i, n)]
    {
      var j := Next(i, n);
      if z != v[j] {
        CommonPointFolds(v[i], v[j], v[Next(j, n)], z);
        assert !FoldsBack(v, i);
        ForwardFoldIsCaught(v, i);
      }
    }
    forall i: nat, j: nat, z: Point | i < n && j < n && i != j && !Adjacent(i, j, n)
      ensures !(OnEdge(v, i, z) && OnEdge(v, j, z))
    {
      assert !EdgesMeet(v, if i < j then i else j, if i < j then j else i);
    }
  }

  lemma SimpleIsAccepted(v: seq<Point>)
    requires Simple(v)
    ensures Accepted(v)
  {
    var n := |v|;
    AcceptedOnCycle(v);
    forall i: nat | i < n ensures !FoldsBack(v, i) {
      var j := Next(i, n);
      var k := Next(j, n);
      EndpointsOn(v[j], v[k]);
      assert OnEdge(v, j, v[k]);
    }
  }

  /** The edge-pair loop accepts exactly the simple polygons. */
  lemma AcceptIffSimple(v: seq<Point>)
    requires |v| >= 3
    ensures Accepted(v) <==> Simple(v)
  {
    if Accepted(v) {
      AcceptedIsSimple(v);
    }
    if Simple(v) {
      SimpleIsAccepted(v);
    }
  }

  // ---------- The validator ----------

  /** Closed, at least three vertices, and simple. */
  ghost predicate ValidRing(ring: seq<Point>) {
    |ring| >= 4 && ring[0] == ring[|ring| - 1] && Simple(ring[..|ring| - 1])
  }

  method IsSimplePolygon(ring: seq<Point>, isClosed: bool) returns (valid: bool)
    ensures valid <==> isClosed && |ring| >= 4 && Simple(ring[..|ring| - 1])
  {
    if !isClosed {
      return false;
    }
    var pts := if |ring| == 0 then [] else ring[..|ring| - 1];
    var n := |pts|;
    if n < 3 {
      return false;
    }
    AcceptIffSimple(pts);
    for i := 0 to n
      invariant forall h: nat, j: nat :: h < i && h < j < n ==> !PairRejected(pts, h, j)
    {
      NextIsMod(i, n);
      var a1, a2 := pts[i], pts[(i + 1) % n];
      for j := i + 1 to n
        invariant forall h: nat, k: nat :: h < i && h < k < n ==> !PairRejected(pts, h, k)
        invariant forall k: nat :: i < k < j ==> !PairRejected(pts, i, k)
      {
        NextIsMod(j, n);
        var b1, b2 := pts[j], pts[(j + 1) % n];
        var adjacent := j == i + 1 || (i == 0 && j == n - 1);
        if adjacent {
          if CollinearOverlap(a1, a2, b1, b2) {
            assert PairRejected(pts, i, j);
            return false;
          }
          continue;
        }
        if SegmentsIntersect(a1, a2, b1, b2) {
          assert PairRejected(pts, i, j);
          return false;
        }
      }
    }
    return true;
  }

  method Check(ring: seq<Point>) returns (check: GeometryCheck)
    ensures check.isClosed <==> |ring| >= 4 && ring[0] == ring[|ring| - 1]
    ensures check.isValid <==> ValidRing(ring)
  {
    var isClosed := |ring| >= 4 && ring[0] == ring[|ring| - 1];
    var isValid := IsSimplePolygon(ring, isClosed);
    check := GeometryCheck(isClosed, isValid);
  }

  // ---------- Simple means: the boundary is an injective closed curve ----------

  lemma SimpleIsInjective(v: seq<Point>)
    requires Simple(v)
    ensures InjectiveBoundary(v)
  {
    var n := |v|;
    forall i: nat, j: nat, s: real, t: real |
      i < n && j < n && 0.0 <= s < 1.0 && 0.0 <= t < 1.0 && BoundaryAt(v, i, s) == BoundaryAt(v, j, t)
      ensures i == j && s == t
    {
      var z := BoundaryAt(v, i, s);
      assert OnEdge(v, i, z) && OnEdge(v, j, z);
      if i == j {
        SameParameter(v[i], v[Next(i, n)], s, t);
      } else if j == Next(i, n) {
        EndOnlyAtOne(v[i], v[j], s);
      } else if i == Next(j, n) {
        EndOnlyAtOne(v[j], v[i], t);
      }
    }
  }

  lemma SameParameter(p: Point, q: Point, s: real, t: real)
    requires p != q && At(p, q, s) == At(p, q, t)
    ensures s == t
  {
    assert (s - t) * (q.x - p.x) == 0.0 && (s - t) * (q.y - p.y) == 0.0;
  }

  lemma EndOnlyAtOne(p: Point, q: Point, s: real)
    requires p != q && s != 1.0
    ensures At(p, q, s) != q
  {
    if At(p, q, s) == q {
      assert At(p, q, 1.0) == q;
      SameParameter(p, q, s, 1.0);
    }
  }

  /** Every point of edge i is visited by the walk on edge i or at the start of the next edge. */
  lemma Visit(v: seq<Point>, i: nat, z: Point) returns (k: nat, t: real)
    requires i < |v| && OnEdge(v, i, z)
    ensures k < |v| && 0.0 <= t < 1.0 && BoundaryAt(v, k, t) == z
    ensures k == i || (k == Next(i, |v|) && t == 0.0 && z == v[k])
  {
    var s: real :| 0.0 <= s <= 1.0 && At(v[i], v[Next(i, |v|)], s) == z;
    if s < 1.0 {
      k, t := i, s;
    } else {
      k, t := Next(i, |v|), 0.0;
    }
  }

  lemma InjectiveIsSimple(v: seq<Point>)
    requires InjectiveBoundary(v)
    ensures Simple(v)
  {
    var n := |v|;
    forall i: nat | i < n ensures v[i] != v[Next(i, n)] {
      assert BoundaryAt(v, i, 0.0) == v[i] && BoundaryAt(v, Next(i, n), 0.0) == v[Next(i, n)];
    }
    forall i: nat, z: Point | i < n && OnEdge(v, i, z) && OnEdge(v, Next(i, n), z)
      ensures z == v[Next(i, n)]
    {
      var k, s := Visit(v, i, z);
      var l, t := Visit(v, Next(i, n), z);
    }
    forall i: nat, j: nat, z: Point | i < n && j < n && i != j && !Adjacent(i, j, n)
      ensures !(OnEdge(v, i, z) && OnEdge(v, j, z))
    {
      if OnEdge(v, i, z) && OnEdge(v, j, z) {
        var k, s := Visit(v, i, z);
        var l, t := Visit(v, j, z);
      }
    }
  }

  /** The validator accepts exactly the rings whose boundary walk visits no point twice. */
  lemma AcceptIffInjective(v: seq<Point>)
    requires |v| >= 3
    ensures Accepted(v) <==> InjectiveBoundary(v)
  {
    AcceptIffSimple(v);
    if Simple(v) {
      SimpleIsInjective(v);
    }
    if InjectiveBoundary(v) {
      InjectiveIsSimple(v);
    }
  }

  // ---------- The answer does not depend on where the ring starts or its direction ----------

  function Close(v: seq<Point>): seq<Point>
    requires |v| >= 1
  {
    v + [v[0]]
  }

  /** The edge of v that edge i of the reversed cycle walks backwards. */
  function MirrorEdge(i: nat, n: nat): nat
    requires i < n
  {
    if i == n - 1 then n - 1 else n - 2 - i
  }

  lemma ReversedEdge(v: seq<Point>, i: nat, z: Point)
    requires i < |v|
    ensures OnEdge(Reverse(v), i, z) <==> OnEdge(v, MirrorEdge(i, |v|), z)
  {
    var m := MirrorEdge(i, |v|);
    OnReversed(v[m], v[Next(m, |v|)], z);
  }

  lemma ReverseKeepsSimple(v: seq<Point>)
    requires Simple(v)
    ensures Simple(Reverse(v))
  {
    var n, w := |v|, Reverse(v);
    forall i: nat | i < n ensures w[i] != w[Next(i, n)] {
      var m := MirrorEdge(i, n);
      assert v[m] != v[Next(m, n)];
    }
    forall i: nat, z: Point | i < n && OnEdge(w, i, z) && OnEdge(w, Next(i, n), z)
      ensures z == w[Next(i, n)]
    {
      ReversedEdge(v, i, z);
      ReversedEdge(v, Next(i, n), z);
      var m := MirrorEdge(Next(i, n), n);
      assert Next(m, n) == MirrorEdge(i, n);
    }
    forall i: nat, j: nat, z: Point | i < n && j < n && i != j && !Adjacent(i, j, n)
      ensures !(OnEdge(w, i, z) && OnEdge(w, j, z))
    {
      ReversedEdge(v, i, z);
      ReversedEdge(v, j, z);
      assert !Adjacent(MirrorEdge(i, n), MirrorEdge(j, n), n);
    }
  }

  lemma RotateOneKeepsSimple(v: seq<Point>)
    requires |v| >= 1
    ensures Simple(v) ==> Simple(v[1..] + [v[0]])
  {
    if Simple(v) {
      var n, w := |v|, v[1..] + [v[0]];
      SimpleIsInjective(v);
      forall i: nat, t: real | i < n ensures BoundaryAt(w, i, t) == BoundaryAt(v, Next(i, n), t) {
      }
      InjectiveIsSimple(w);
    }
  }

  lemma {:induction false} RotateKeepsSimple(v: seq<Point>, k: nat)
    requires k <= |v| && Simple(v)
    ensures Simple(v[k..] + v[..k])
  {
    if k == 0 {
      assert v[0..] + v[..0] == v;
    } else {
      RotateKeepsSimple(v, k - 1);
      var w := v[k - 1..] + v[..k - 1];
      RotateOneKeepsSimple(w);
      assert w[1..] + [w[0]] == v[k..] + v[..k];
    }
  }

  lemma RotateIff(v: seq<Point>, k: nat)
    requires k <= |v|
    ensures Simple(v[k..] + v[..k]) <==> Simple(v)
  {
    var w := v[k..] + v[..k];
    if Simple(v) {
      RotateKeepsSimple(v, k);
    }
    if Simple(w) {
      RotateKeepsSimple(w, |v| - k);
      assert w[|v| - k..] + w[..|v| - k] == v;
    }
  }

  lemma ReverseIff(v: seq<Point>)
    ensures Simple(Reverse(v)) <==> Simple(v)
  {
    if Simple(v) {
      ReverseKeepsSimple(v);
    }
    if Simple(Reverse(v)) {
      ReverseKeepsSimple(Reverse(v));
      assert Reverse(Reverse(v)) == v;
    }
  }

  /** Rotating or reversing a closed ring leaves the validator's answer unchanged. */
  lemma AnswerUnchangedByRotationAndReversal(v: seq<Point>, k: nat)
    requires |v| >= 1 && k <= |v|
    ensures ValidRing(Close(v[k..] + v[..k])) <==> ValidRing(Close(v))
    ensures ValidRing(Close(Reverse(v))) <==> ValidRing(Close(v))
  {
    CloseDropsBack(v);
    CloseDropsBack(v[k..] + v[..k]);
    CloseDropsBack(Reverse(v));
    RotateIff(v, k);
    ReverseIff(v);
  }

  lemma CloseDropsBack(v: seq<Point>)
    requires |v| >= 1
    ensures ValidRing(Close(v)) <==> Simple(v)
  {
    assert Close(v)[..|v|] == v;
  }
}
