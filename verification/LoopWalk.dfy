/** Walking a closed loop by arc length.
  *
  * `Walk` is the value the segment loop of a simulation tick computes, heading included. Its
  * meaning is fixed by arc length: positions on the loop are the reals in [0, Total), and
  * walking d adds d modulo the loop length. Composition and full loops follow.
  */
module LoopWalk {
  import opened Cycles
  import opened Segments

  /** Length and compass bearing between two points; the trigonometry behind them is arbitrary. */
  datatype Metric = Metric(metres: (Point, Point) -> real, bearing: (Point, Point) -> real)

  ghost predicate NonNegative(m: Metric) {
    forall a, b :: m.metres(a, b) >= 0.0
  }

  /** Segment i runs from vertex i to vertex i + 1, the last one back to vertex 0. */
  datatype Track = Track(lens: seq<real>, bearings: seq<real>)

  datatype Place = Place(seg: nat, frac: real, heading: real)

  ghost predicate IsLoop(t: Track) {
    |t.lens| >= 1 && |t.bearings| == |t.lens| && forall i :: 0 <= i < |t.lens| ==> t.lens[i] > 0.0
  }

  ghost predicate OnLoop(t: Track, p: Place) {
    p.seg < |t.lens| && 0.0 <= p.frac < 1.0
  }

  /** A zero-length segment counts as one metre. */
  function SegmentLength(m: Metric, a: Point, b: Point): real {
    var metres := m.metres(a, b);
    if metres == 0.0 then 1.0 else metres
  }

  function TrackOf(route: seq<Point>, m: Metric): Track {
    Track(
      seq(|route|, i requires 0 <= i < |route| => SegmentLength(m, route[i], route[Next(i, |route|)])),
      seq(|route|, i requires 0 <= i < |route| => m.bearing(route[i], route[Next(i, |route|)])))
  }

  function Remaining(t: Track, p: Place): real
    requires p.seg < |t.lens|
  {
    t.lens[p.seg] * (1.0 - p.frac)
  }

  /** The start of the segment after p's. */
  function NextVertex(t: Track, p: Place): Place
    requires p.seg < |t.lens| == |t.bearings|
  {
    Place(Next(p.seg, |t.lens|), 0.0, t.bearings[p.seg])
  }

  function Along(t: Track, p: Place, d: real): Place
    requires p.seg < |t.lens| == |t.bearings| && t.lens[p.seg] > 0.0
  {
    p.(frac := p.frac + d / t.lens[p.seg], heading := t.bearings[p.seg])
  }

  // ---------- Termination ----------

  function Shortest(lens: seq<real>): real
    requires lens != []
  {
    if |lens| == 1 then lens[0] else Min(lens[0], Shortest(lens[1..]))
  }

  lemma {:induction false} ShortestIsLowerBound(lens: seq<real>, i: nat)
    requires i < |lens| && forall j :: 0 <= j < |lens| ==> lens[j] > 0.0
    ensures 0.0 < Shortest(lens) <= lens[i]
  {
    if |lens| > 1 {
      ShortestIsLowerBound(lens[1..], if i > 0 then i - 1 else 0);
    }
  }

  lemma QuotientSign(a: real, m: real)
    requires m > 0.0
    ensures a >= 0.0 ==> a / m >= 0.0
    ensures a > 0.0 ==> a / m > 0.0
  {
    var q := a / m;
    assert q * m == a;
    if q < 0.0 {
      PositiveProduct(-q, m);
    }
  }

  lemma SameFraction(f: real, g: real, len: real)
    requires len > 0.0 && f * len == g * len
    ensures f == g
  {
    if f < g {
      PositiveProduct(g - f, len);
    } else if g < f {
      PositiveProduct(f - g, len);
    }
  }

  lemma QuotientIs(x: real, a: real, m: real)
    requires m > 0.0 && x * m == a
    ensures a / m == x
  {
    var y := a / m;
    assert y * m == a;
    SameFraction(x, y, m);
  }

  lemma QuotientDifference(a: real, b: real, m: real)
    requires m > 0.0
    ensures a / m - b / m == (a - b) / m
  {
    var x, y := a / m, b / m;
    assert x * m == a && y * m == b;
    assert (x - y) * m == a - b;
    QuotientIs(x - y, a - b, m);
  }

  lemma FloorFalls(a: real, b: real, m: real)
    requires m > 0.0 && 0.0 <= b && b <= a
    ensures 0 <= (b / m).Floor <= (a / m).Floor
    ensures b + m <= a ==> (b / m).Floor < (a / m).Floor
  {
    QuotientSign(b, m);
    QuotientDifference(a, b, m);
    QuotientSign(a - b, m);
    if b + m <= a {
      QuotientDifference(a - b, m, m);
      QuotientIs(1.0, m, m);
      QuotientSign(a - b - m, m);
      assert a / m >= b / m + 1.0;
    }
  }

  /** Bounds the segments still to enter: one per shortest length, one more when p is inside one. */
  ghost function Fuel(t: Track, p: Place, d: real): int
    requires IsLoop(t)
  {
    ShortestIsLowerBound(t.lens, 0);
    if d <= 0.0 then 0 else (d / Shortest(t.lens)).Floor + if p.frac > 0.0 then 2 else 1
  }

  lemma RemainingBounds(t: Track, p: Place)
    requires IsLoop(t) && OnLoop(t, p)
    ensures 0.0 < Remaining(t, p)
    ensures p.frac == 0.0 ==> Remaining(t, p) == t.lens[p.seg]
  {
    PositiveProduct(t.lens[p.seg], 1.0 - p.frac);
  }

  lemma FuelFalls(t: Track, p: Place, d: real)
    requires IsLoop(t) && OnLoop(t, p) && d > 0.0 && d >= Remaining(t, p)
    ensures 0 <= Fuel(t, NextVertex(t, p), d - Remaining(t, p)) < Fuel(t, p, d)
  {
    var rem := Remaining(t, p);
    RemainingBounds(t, p);
    ShortestIsLowerBound(t.lens, p.seg);
    FloorFalls(d, d - rem, Shortest(t.lens));
  }

  // ---------- The walk ----------

  ghost function Walk(t: Track, p: Place, d: real): Place
    requires IsLoop(t) && OnLoop(t, p)
    decreases Fuel(t, p, d)
  {
    if d <= 0.0 then p
    else if d < Remaining(t, p) then Along(t, p, d)
    else
      FuelFalls(t, p, d);
      Walk(t, NextVertex(t, p), d - Remaining(t, p))
  }

  /** How often the walk passes vertex 0. */
  ghost function Laps(t: Track, p: Place, d: real): nat
    requires IsLoop(t) && OnLoop(t, p)
    decreases Fuel(t, p, d)
  {
    if d <= 0.0 || d < Remaining(t, p) then 0
    else
      FuelFalls(t, p, d);
      (if p.seg + 1 == |t.lens| then 1 else 0) + Laps(t, NextVertex(t, p), d - Remaining(t, p))
  }

  lemma SmallerFactor(q: real, r: real, len: real)
    requires len > 0.0 && q * len < r * len
    ensures q < r
  {
    if q > r {
      PositiveProduct(q - r, len);
    }
  }

  lemma Fraction(len: real, frac: real, d: real)
    requires len > 0.0 && 0.0 < d < len * (1.0 - frac)
    ensures d / len > 0.0 && frac + d / len < 1.0
    ensures (frac + d / len) * len == frac * len + d
  {
    QuotientSign(d, len);
    var q := d / len;
    assert q * len == d;
    SmallerFactor(q, 1.0 - frac, len);
  }

  lemma AlongStaysInside(t: Track, p: Place, d: real)
    requires IsLoop(t) && OnLoop(t, p) && 0.0 < d < Remaining(t, p)
    ensures OnLoop(t, Along(t, p, d)) && Along(t, p, d).frac > 0.0
    ensures Along(t, p, d).frac * t.lens[p.seg] == p.frac * t.lens[p.seg] + d
  {
    Fraction(t.lens[p.seg], p.frac, d);
  }

  /** The fraction stays in [0, 1). */
  lemma {:induction false} WalkStaysOnLoop(t: Track, p: Place, d: real)
    requires IsLoop(t) && OnLoop(t, p)
    ensures OnLoop(t, Walk(t, p, d))
    decreases Fuel(t, p, d)
  {
    if d <= 0.0 {
    } else if d < Remaining(t, p) {
      AlongStaysInside(t, p, d);
    } else {
      FuelFalls(t, p, d);
      WalkStaysOnLoop(t, NextVertex(t, p), d - Remaining(t, p));
    }
  }

  // ---------- One turn of the segment loop ----------

  function StepPlace(t: Track, p: Place, d: real): Place
    requires IsLoop(t) && p.seg < |t.lens|
  {
    if d < Remaining(t, p) then Along(t, p, d) else NextVertex(t, p)
  }

  function StepLeft(t: Track, p: Place, d: real): real
    requires p.seg < |t.lens|
  {
    if d < Remaining(t, p) then 0.0 else d - Remaining(t, p)
  }

  /** A turn of the loop leaves the rest of the walk to do, and less of it. */
  lemma WalkStep(t: Track, p: Place, d: real)
    requires IsLoop(t) && OnLoop(t, p) && d > 0.0
    ensures OnLoop(t, StepPlace(t, p, d)) && Walk(t, StepPlace(t, p, d), StepLeft(t, p, d)) == Walk(t, p, d)
    ensures 0 <= Fuel(t, StepPlace(t, p, d), StepLeft(t, p, d)) < Fuel(t, p, d)
  {
    if d < Remaining(t, p) {
      AlongStaysInside(t, p, d);
      ShortestIsLowerBound(t.lens, 0);
      FloorFalls(d, 0.0, Shortest(t.lens));
    } else {
      FuelFalls(t, p, d);
    }
  }

  // ---------- Arc length ----------

  function Prefix(lens: seq<real>, i: nat): real
    requires i <= |lens|
  {
    if i == 0 then 0.0 else Prefix(lens, i - 1) + lens[i - 1]
  }

  function Total(t: Track): real { Prefix(t.lens, |t.lens|) }

  /** Distance of p from vertex 0 along the loop. */
  function Arc(t: Track, p: Place): real
    requires p.seg < |t.lens|
  {
    Prefix(t.lens, p.seg) + p.frac * t.lens[p.seg]
  }

  lemma {:induction false} PrefixGrows(t: Track, i: nat, j: nat)
    requires IsLoop(t) && i <= j <= |t.lens|
    ensures 0.0 <= Prefix(t.lens, i) <= Prefix(t.lens, j)
  {
    if i < j {
      PrefixGrows(t, i, j - 1);
    } else if i > 0 {
      PrefixGrows(t, i - 1, i - 1);
    }
  }

  lemma InnerProduct(f: real, len: real) returns (part: real)
    requires 0.0 <= f < 1.0 && len > 0.0
    ensures part == f * len && 0.0 <= part < len
  {
    part := f * len;
    PositiveProduct(1.0 - f, len);
    if f > 0.0 {
      PositiveProduct(f, len);
    }
  }

  lemma ArcWithinSegment(t: Track, p: Place)
    requires IsLoop(t) && OnLoop(t, p)
    ensures Prefix(t.lens, p.seg) <= Arc(t, p) < Prefix(t.lens, p.seg + 1)
  {
    var part := InnerProduct(p.frac, t.lens[p.seg]);
    assert Arc(t, p) == Prefix(t.lens, p.seg) + part;
  }

  lemma ArcIsBelowTotal(t: Track, p: Place)
    requires IsLoop(t) && OnLoop(t, p)
    ensures 0.0 <= Arc(t, p) < Total(t)
  {
    ArcWithinSegment(t, p);
    PrefixGrows(t, 0, p.seg);
    PrefixGrows(t, p.seg + 1, |t.lens|);
  }

  /** Arc length names places: no two places of the loop share it. */
  lemma ArcIsInjective(t: Track, p: Place, q: Place)
    requires IsLoop(t) && OnLoop(t, p) && OnLoop(t, q) && Arc(t, p) == Arc(t, q)
    ensures SameSpot(p, q)
  {
    ArcWithinSegment(t, p);
    ArcWithinSegment(t, q);
    if p.seg < q.seg {
      PrefixGrows(t, p.seg + 1, q.seg);
    } else if q.seg < p.seg {
      PrefixGrows(t, q.seg + 1, p.seg);
    } else {
      SameFraction(p.frac, q.frac, t.lens[p.seg]);
    }
  }

  lemma NextVertexArc(t: Track, p: Place)
    requires IsLoop(t) && OnLoop(t, p)
    ensures Arc(t, NextVertex(t, p)) + (if p.seg + 1 == |t.lens| then Total(t) else 0.0) == Arc(t, p) + Remaining(t, p)
  {
    var len := t.lens[p.seg];
    assert p.frac * len + len * (1.0 - p.frac) == len;
    assert Arc(t, NextVertex(t, p)) == Prefix(t.lens, NextVertex(t, p).seg);
  }

  /** k loop lengths. */
  function Loops(t: Track, k: nat): real {
    if k == 0 then 0.0 else Total(t) + Loops(t, k - 1)
  }

  lemma {:induction false} LoopsAdd(t: Track, j: nat, k: nat)
    ensures Loops(t, j + k) == Loops(t, j) + Loops(t, k)
  {
    if j > 0 {
      LoopsAdd(t, j - 1, k);
    }
  }

  lemma {:induction false} LoopsGrow(t: Track, k: nat)
    requires Total(t) >= 0.0
    ensures Loops(t, k) >= 0.0
  {
    if k > 0 {
      LoopsGrow(t, k - 1);
    }
  }

  /** Walking d advances the arc length by d, less a loop length for every lap. */
  lemma {:induction false} WalkAddsArc(t: Track, p: Place, d: real, w: Place)
    requires IsLoop(t) && OnLoop(t, p) && d >= 0.0 && w == Walk(t, p, d)
    ensures OnLoop(t, w) && Arc(t, w) + Loops(t, Laps(t, p, d)) == Arc(t, p) + d
    decreases Fuel(t, p, d)
  {
    if d <= 0.0 {
    } else if d < Remaining(t, p) {
      AlongStaysInside(t, p, d);
    } else {
      FuelFalls(t, p, d);
      WalkAddsArc(t, NextVertex(t, p), d - Remaining(t, p), w);
      NextVertexArc(t, p);
    }
  }

  lemma SameRemainder(t: Track, a: real, b: real, j: nat, k: nat)
    requires 0.0 <= a < Total(t) && 0.0 <= b < Total(t) && a + Loops(t, j) == b + Loops(t, k)
    ensures a == b && j == k
  {
    if k > j {
      LoopsAdd(t, j, k - j);
      LoopsGrow(t, k - j - 1);
    } else if j > k {
      LoopsAdd(t, k, j - k);
      LoopsGrow(t, j - k - 1);
    }
  }

  /** q is d further along the loop than p, after some number of laps. */
  ghost predicate IsAhead(t: Track, p: Place, d: real, q: Place)
    requires IsLoop(t) && OnLoop(t, p) && OnLoop(t, q)
  {
    exists k: nat :: Arc(t, q) + Loops(t, k) == Arc(t, p) + d
  }

  ghost predicate SameSpot(p: Place, q: Place) { p.seg == q.seg && p.frac == q.frac }

  /** Walking d ends at the one spot that is d further along the loop. */
  lemma WalkIsArcLength(t: Track, p: Place, d: real, q: Place)
    requires IsLoop(t) && OnLoop(t, p) && OnLoop(t, q) && d >= 0.0
    ensures IsAhead(t, p, d, q) <==> SameSpot(q, Walk(t, p, d))
  {
    var w := Walk(t, p, d);
    WalkAddsArc(t, p, d, w);
    if IsAhead(t, p, d, q) {
      var k: nat :| Arc(t, q) + Loops(t, k) == Arc(t, p) + d;
      ArcIsBelowTotal(t, q);
      ArcIsBelowTotal(t, w);
      SameRemainder(t, Arc(t, q), Arc(t, w), k, Laps(t, p, d));
      ArcIsInjective(t, q, w);
    }
    if SameSpot(q, w) {
      SameSpotArc(t, q, w);
      assert Arc(t, q) + Loops(t, Laps(t, p, d)) == Arc(t, p) + d;
    }
  }

  lemma SameSpotArc(t: Track, p: Place, q: Place)
    requires p.seg < |t.lens| && SameSpot(p, q)
    ensures Arc(t, p) == Arc(t, q)
  {
  }

  // ---------- Heading ----------

  /** The segment an arriving vehicle has just been on. */
  function Arrived(t: Track, seg: nat, frac: real): nat
    requires seg < |t.lens|
  {
    if frac > 0.0 then seg else if seg > 0 then seg - 1 else |t.lens| - 1
  }

  /** A vehicle that moved faces along the segment it has just been on. */
  lemma {:induction false} WalkFacesForward(t: Track, p: Place, d: real, w: Place)
    requires IsLoop(t) && OnLoop(t, p) && d > 0.0 && w == Walk(t, p, d)
    ensures OnLoop(t, w) && w.heading == t.bearings[Arrived(t, w.seg, w.frac)]
    decreases Fuel(t, p, d)
  {
    if d < Remaining(t, p) {
      AlongStaysInside(t, p, d);
    } else {
      FuelFalls(t, p, d);
      var q, left := NextVertex(t, p), d - Remaining(t, p);
      if left > 0.0 {
        WalkFacesForward(t, q, left, w);
      }
    }
  }

  // ---------- Composition and full loops ----------

  /** Two walks in a row are one walk of the summed distance, heading included. */
  lemma WalksCompose(t: Track, p: Place, d1: real, d2: real)
    requires IsLoop(t) && OnLoop(t, p) && d1 >= 0.0 && d2 >= 0.0
    ensures OnLoop(t, Walk(t, p, d1)) && Walk(t, Walk(t, p, d1), d2) == Walk(t, p, d1 + d2)
  {
    var mid := Walk(t, p, d1);
    WalkAddsArc(t, p, d1, mid);
    var end := Walk(t, mid, d2);
    WalkAddsArc(t, mid, d2, end);
    LoopsAdd(t, Laps(t, p, d1), Laps(t, mid, d2));
    assert Arc(t, end) + Loops(t, Laps(t, p, d1) + Laps(t, mid, d2)) == Arc(t, p) + (d1 + d2);
    WalkIsArcLength(t, p, d1 + d2, end);
    if d2 > 0.0 {
      WalkFacesForward(t, mid, d2, end);
      WalkFacesForward(t, p, d1 + d2, Walk(t, p, d1 + d2));
    }
  }

  /** A walk ends where it began exactly when it is a whole number of loops. */
  lemma ReturnsAfterFullLoops(t: Track, p: Place, d: real)
    requires IsLoop(t) && OnLoop(t, p) && d >= 0.0
    ensures SameSpot(p, Walk(t, p, d)) <==> exists k: nat :: d == Loops(t, k)
  {
    WalkIsArcLength(t, p, d, p);
    if k: nat :| d == Loops(t, k) {
      assert Arc(t, p) + Loops(t, k) == Arc(t, p) + d;
    }
    if SameSpot(p, Walk(t, p, d)) {
      var k: nat :| Arc(t, p) + Loops(t, k) == Arc(t, p) + d;
      assert d == Loops(t, k);
    }
  }

  /** Ticks of distances ds, one after the other. */
  ghost function Walks(t: Track, p: Place, ds: seq<real>): Place
    requires IsLoop(t) && OnLoop(t, p)
    ensures OnLoop(t, Walks(t, p, ds))
  {
    if ds == [] then p
    else
      WalkStaysOnLoop(t, Walks(t, p, ds[..|ds| - 1]), ds[|ds| - 1]);
      Walk(t, Walks(t, p, ds[..|ds| - 1]), ds[|ds| - 1])
  }

  function Sum(ds: seq<real>): real {
    if ds == [] then 0.0 else Sum(ds[..|ds| - 1]) + ds[|ds| - 1]
  }

  /** However a distance is cut into ticks, the vehicle ends in the same place with the same heading. */
  lemma {:induction false} TicksAreOneWalk(t: Track, p: Place, ds: seq<real>)
    requires IsLoop(t) && OnLoop(t, p) && forall i :: 0 <= i < |ds| ==> ds[i] >= 0.0
    ensures Sum(ds) >= 0.0 && Walks(t, p, ds) == Walk(t, p, Sum(ds))
  {
    if ds != [] {
      var init, last := ds[..|ds| - 1], ds[|ds| - 1];
      TicksAreOneWalk(t, p, init);
      WalksCompose(t, p, Sum(init), last);
    }
  }

  // ---------- Loop time ----------

  /** The sum of the true segment lengths up to vertex i. */
  function Metres(route: seq<Point>, m: Metric, i: nat): real
    requires i <= |route|
  {
    if i == 0 then 0.0 else Metres(route, m, i - 1) + m.metres(route[i - 1], route[Next(i - 1, |route|)])
  }

  /** The number of zero-length segments before vertex i. */
  function Degenerate(route: seq<Point>, m: Metric, i: nat): nat
    requires i <= |route|
  {
    if i == 0 then 0
    else Degenerate(route, m, i - 1) + if m.metres(route[i - 1], route[Next(i - 1, |route|)]) == 0.0 then 1 else 0
  }

  lemma TrackIsLoop(route: seq<Point>, m: Metric)
    requires route != [] && NonNegative(m)
    ensures IsLoop(TrackOf(route, m)) && |TrackOf(route, m).lens| == |route|
  {
    var t := TrackOf(route, m);
    forall i | 0 <= i < |t.lens| ensures t.lens[i] > 0.0 {
      assert m.metres(route[i], route[Next(i, |route|)]) >= 0.0;
    }
  }

  /** The loop is longer than the route by one metre for every zero-length segment. */
  lemma {:induction false} PrefixIsMetres(route: seq<Point>, m: Metric, i: nat)
    requires i <= |route|
    ensures Prefix(TrackOf(route, m).lens, i) == Metres(route, m, i) + Degenerate(route, m, i) as real
  {
    if i > 0 {
      PrefixIsMetres(route, m, i - 1);
    }
  }

  method RouteLength(route: seq<Point>, m: Metric) returns (total: real)
    ensures total == Metres(route, m, |route|)
    ensures Total(TrackOf(route, m)) == total + Degenerate(route, m, |route|) as real
  {
    PrefixIsMetres(route, m, |route|);
    total := 0.0;
    for i := 0 to |route|
      invariant total == Metres(route, m, i)
    {
      NextIsMod(i, |route|);
      total := total + m.metres(route[i], route[(i + 1) % |route|]);
    }
  }

  function LoopSpeed(length: real, loopSeconds: real): real
    requires loopSeconds > 0.0
  {
    Max(8.0, length / loopSeconds)
  }

  /** The least speed of at least 8 that covers the length in the target time. */
  lemma LoopSpeedIsLeast(length: real, loopSeconds: real, speed: real)
    requires loopSeconds > 0.0
    ensures speed >= LoopSpeed(length, loopSeconds) <==> speed >= 8.0 && speed * loopSeconds >= length
  {
    var q := length / loopSeconds;
    assert q * loopSeconds == length;
    if speed >= q {
      assert (speed - q) * loopSeconds >= 0.0;
    } else {
      PositiveProduct(q - speed, loopSeconds);
    }
  }

  lemma TargetDistance(length: real, loopSeconds: real) returns (d: real)
    requires loopSeconds > 0.0 && length / loopSeconds >= 8.0
    ensures d == LoopSpeed(length, loopSeconds) * loopSeconds && d == length
  {
    var speed := length / loopSeconds;
    assert LoopSpeed(length, loopSeconds) == speed;
    d := speed * loopSeconds;
  }

  /** A walk of at most one loop returns exactly when it is one loop. */
  lemma ReturnsAfterOneLoopIff(t: Track, p: Place, d: real)
    requires IsLoop(t) && OnLoop(t, p) && 0.0 < d <= Total(t)
    ensures SameSpot(p, Walk(t, p, d)) <==> d == Total(t)
  {
    ReturnsAfterFullLoops(t, p, d);
    assert Loops(t, 1) == Total(t);
    if k: nat :| d == Loops(t, k) {
      if k > 1 {
        LoopsGrow(t, k - 1);
      }
    }
  }

  /** A vehicle above the minimum speed is back where it started after the target time exactly when
    * its route has no zero-length segment. */
  lemma LoopTakesTargetTime(route: seq<Point>, m: Metric, t: Track, p: Place, loopSeconds: real, d: real)
    requires route != [] && NonNegative(m) && loopSeconds > 0.0
    requires t == TrackOf(route, m) && IsLoop(t) && OnLoop(t, p)
    requires Metres(route, m, |route|) / loopSeconds >= 8.0
    requires d == LoopSpeed(Metres(route, m, |route|), loopSeconds) * loopSeconds
    ensures d > 0.0 && (SameSpot(p, Walk(t, p, d)) <==> Degenerate(route, m, |route|) == 0)
  {
    var e := TargetDistance(Metres(route, m, |route|), loopSeconds);
    PrefixIsMetres(route, m, |route|);
    ArcIsBelowTotal(t, p);
    var k := Degenerate(route, m, |route|);
    assert Total(t) == d + k as real;
    ReturnsAfterOneLoopIff(t, p, d);
  }
}
