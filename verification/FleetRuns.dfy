/** Simulated vehicles over whole runs of ticks.
  *
  * A tick moves every vehicle along its loop and reports the zones it entered or left, in zone
  * order. The theorems say where a vehicle is after any number of ticks and what the log of its
  * zone events means.
  */
module FleetRuns {
  import opened Segments
  import opened Cycles
  import opened PointInPolygon
  import opened LoopWalk

  datatype Zone = Zone(id: string, zoneLabel: string, ring: seq<Point>)

  datatype ZoneEventType = Enter | Exit

  datatype Frame =
    | Position(vehicleId: string, at: Point, heading: int, speed: int)
    | ZoneEvent(vehicleId: string, zoneId: string, kind: ZoneEventType, zoneLabel: string)

  datatype Spec = Spec(vehicleId: string, speed: real, route: seq<Point>)

  /** A vehicle's fields. */
  datatype Vehicle = Vehicle(spec: Spec, place: Place, at: Point, inside: set<string>)

  /** The zones, and how distances and bearings are measured. */
  datatype Setting = Setting(metric: Metric, zones: seq<Zone>)

  ghost predicate DistinctIds(zones: seq<Zone>) {
    forall i, j :: 0 <= i < j < |zones| ==> zones[i].id != zones[j].id
  }

  ghost predicate Sound(world: Setting) {
    NonNegative(world.metric) && DistinctIds(world.zones)
  }

  // ---------- Zones ----------

  /** Even-odd containment in a ring whose last position repeats its first. */
  ghost predicate InRing(p: Point, ring: seq<Point>) {
    ring != [] && RingParity(ring[..|ring| - 1], RayTest(p))
  }

  function Ids(zones: seq<Zone>): set<string> {
    set i | 0 <= i < |zones| :: zones[i].id
  }

  ghost function ZonesAt(zones: seq<Zone>, p: Point): set<string> {
    set i | 0 <= i < |zones| && InRing(p, zones[i].ring) :: zones[i].id
  }

  /** On a rectangle the even-odd test is the half-open box test. */
  lemma RectangleZoneIsHalfOpenBox(x0: real, x1: real, y0: real, y1: real, p: Point)
    requires x0 < x1 && y0 < y1
    ensures InRing(p, [Point(x0, y1), Point(x1, y1), Point(x1, y0), Point(x0, y0), Point(x0, y1)])
      <==> x0 <= p.x < x1 && y0 <= p.y < y1
  {
    var nw, ne, se, sw := Point(x0, y1), Point(x1, y1), Point(x1, y0), Point(x0, y0);
    var ring, v := [nw, ne, se, sw, nw], [sw, se, ne, nw];
    assert ring[..4] == Reverse(v);
    RayTestSymmetric(p);
    ReverseParity(v, RayTest(p));
    RectangleParity(x0, y0, x1, y1, p);
  }

  // ---------- One tick ----------

  ghost predicate OnRoute(v: Vehicle, world: Setting) {
    && v.spec.speed >= 0.0 && v.spec.route != [] && v.place.seg < |v.spec.route| && 0.0 <= v.place.frac < 1.0
    && v.inside == ZonesAt(world.zones, v.at)
  }

  function PointAt(route: seq<Point>, place: Place): Point
    requires place.seg < |route|
  {
    var a, b := route[place.seg], route[Next(place.seg, |route|)];
    Point(a.x + (b.x - a.x) * place.frac, a.y + (b.y - a.y) * place.frac)
  }

  function Distance(speed: real, dtMs: real): real { speed * (dtMs / 1000.0) }

  /** Rounding half up. */
  function Round(x: real): int { (x + 0.5).Floor }

  /** The events of a vehicle that was inside the zones `was` and is now at p: one for each zone
    * whose membership changed, in zone order. */
  ghost function Crossings(vehicleId: string, zones: seq<Zone>, was: set<string>, p: Point): seq<Frame> {
    if zones == [] then []
    else
      var z := zones[|zones| - 1];
      Crossings(vehicleId, zones[..|zones| - 1], was, p)
      + if InRing(p, z.ring) && z.id !in was then [ZoneEvent(vehicleId, z.id, Enter, z.zoneLabel)]
        else if !InRing(p, z.ring) && z.id in was then [ZoneEvent(vehicleId, z.id, Exit, z.zoneLabel)]
        else []
  }

  ghost function Ticked(v: Vehicle, world: Setting, dtMs: real): Vehicle
    requires OnRoute(v, world) && Sound(world)
    ensures OnRoute(Ticked(v, world, dtMs), world)
  {
    var t := TrackOf(v.spec.route, world.metric);
    TrackIsLoop(v.spec.route, world.metric);
    WalkStaysOnLoop(t, v.place, Distance(v.spec.speed, dtMs));
    var place := Walk(t, v.place, Distance(v.spec.speed, dtMs));
    var at := PointAt(v.spec.route, place);
    Vehicle(v.spec, place, at, ZonesAt(world.zones, at))
  }

  ghost function PositionFrame(v: Vehicle): Frame {
    Position(v.spec.vehicleId, v.at, Round(v.place.heading), Round(v.spec.speed * 3.6))
  }

  /** What a tick reports about v: its new position, then its zone events. */
  ghost function Report(v: Vehicle, world: Setting, dtMs: real): seq<Frame>
    requires OnRoute(v, world) && Sound(world)
  {
    var next := Ticked(v, world, dtMs);
    [PositionFrame(next)] + Crossings(v.spec.vehicleId, world.zones, v.inside, next.at)
  }

  // ---------- What a tick reports ----------

  lemma NextOnRoute(v: Vehicle, world: Setting, dtMs: real, next: Vehicle)
    requires OnRoute(v, world) && Sound(world) && next == Ticked(v, world, dtMs)
    ensures next.spec == v.spec && next.place.seg < |v.spec.route| && 0.0 <= next.place.frac < 1.0
    ensures Next(next.place.seg, |v.spec.route|) == (next.place.seg + 1) % |v.spec.route|
  {
    NextIsMod(next.place.seg, |v.spec.route|);
  }

  lemma PointAtIsAt(a: Point, b: Point, route: seq<Point>, place: Place)
    requires place.seg < |route| && a == route[place.seg] && b == route[Next(place.seg, |route|)]
    ensures PointAt(route, place) == At(a, b, place.frac)
  {
    var at, f := PointAt(route, place), place.frac;
    var dx, dy := b.x - a.x, b.y - a.y;
    Commutes(dx, f);
    Commutes(dy, f);
    assert at.x == a.x + dx * f && at.y == a.y + dy * f;
    assert At(a, b, f) == Point(a.x + f * dx, a.y + f * dy);
  }

  lemma Commutes(x: real, y: real)
    ensures x * y == y * x
  {
  }

  lemma AtIsEven(a: Point, b: Point, f: real, g: real)
    ensures At(a, b, g).x - At(a, b, f).x == (g - f) * (b.x - a.x)
    ensures At(a, b, g).y - At(a, b, f).y == (g - f) * (b.y - a.y)
  {
    Distributes(f, g, b.x - a.x);
    Distributes(f, g, b.y - a.y);
  }

  lemma Distributes(f: real, g: real, d: real)
    ensures g * d - f * d == (g - f) * d
  {
  }

  /** The reported point is on the segment of the vehicle's place, and at its start when the place is. */
  lemma TickIsOnSegment(v: Vehicle, world: Setting, dtMs: real, next: Vehicle)
    requires OnRoute(v, world) && Sound(world) && next == Ticked(v, world, dtMs)
    ensures var n := |v.spec.route|;
      && next.place.seg < n
      && On(v.spec.route[next.place.seg], v.spec.route[(next.place.seg + 1) % n], next.at)
      && (next.place.frac == 0.0 ==> next.at == v.spec.route[next.place.seg])
  {
    NextOnRoute(v, world, dtMs, next);
    var a, b := v.spec.route[next.place.seg], v.spec.route[(next.place.seg + 1) % |v.spec.route|];
    PointAtIsAt(a, b, v.spec.route, next.place);
  }

  /** Along a segment the point moves evenly: two ticks that end on one segment of a route, at fractions
    * f and g, report points that differ by g - f times the edge. */
  lemma TicksAreEven(v: Vehicle, world: Setting, dtMs: real, next: Vehicle,
      w: Vehicle, other: Setting, dsMs: real, past: Vehicle)
    requires OnRoute(v, world) && Sound(world) && next == Ticked(v, world, dtMs)
    requires OnRoute(w, other) && Sound(other) && past == Ticked(w, other, dsMs)
    requires v.spec.route == w.spec.route && next.place.seg == past.place.seg
    ensures next.place.seg < |v.spec.route|
    ensures var a, b := v.spec.route[next.place.seg], v.spec.route[(next.place.seg + 1) % |v.spec.route|];
      && past.at.x - next.at.x == (past.place.frac - next.place.frac) * (b.x - a.x)
      && past.at.y - next.at.y == (past.place.frac - next.place.frac) * (b.y - a.y)
  {
    NextOnRoute(v, world, dtMs, next);
    var a, b := v.spec.route[next.place.seg], v.spec.route[(next.place.seg + 1) % |v.spec.route|];
    PointAtIsAt(a, b, v.spec.route, next.place);
    PointAtIsAt(a, b, v.spec.route, past.place);
    AtIsEven(a, b, next.place.frac, past.place.frac);
  }

  /** A tick covers speed times seconds along the loop. */
  lemma TickCoversDistance(v: Vehicle, world: Setting, dtMs: real, next: Vehicle, t: Track)
    requires OnRoute(v, world) && Sound(world) && next == Ticked(v, world, dtMs) && dtMs >= 0.0
    requires t == TrackOf(v.spec.route, world.metric)
    ensures |t.lens| == |v.spec.route| && next.place.seg < |t.lens|
    ensures exists laps: nat :: Arc(t, next.place) + Loops(t, laps) == Arc(t, v.place) + v.spec.speed * dtMs / 1000.0
  {
    TrackIsLoop(v.spec.route, world.metric);
    var d := Distance(v.spec.speed, dtMs);
    DistanceIsNonNegative(v.spec.speed, dtMs);
    WalkAddsArc(t, v.place, d, next.place);
    assert d == v.spec.speed * dtMs / 1000.0;
  }

  /** A vehicle that moved faces along the segment it has just been on. */
  lemma TickFacesForward(v: Vehicle, world: Setting, dtMs: real, next: Vehicle)
    requires OnRoute(v, world) && Sound(world) && next == Ticked(v, world, dtMs)
    requires v.spec.speed > 0.0 && dtMs > 0.0
    ensures var n := |v.spec.route|;
      var seg := if next.place.frac > 0.0 then next.place.seg else (next.place.seg + n - 1) % n;
      next.place.heading == world.metric.bearing(v.spec.route[seg], v.spec.route[(seg + 1) % n])
  {
    var t, n := TrackOf(v.spec.route, world.metric), |v.spec.route|;
    TrackIsLoop(v.spec.route, world.metric);
    NextOnRoute(v, world, dtMs, next);
    PositiveProduct(v.spec.speed, dtMs / 1000.0);
    WalkFacesForward(t, v.place, Distance(v.spec.speed, dtMs), next.place);
    var seg := Arrived(t, next.place.seg, next.place.frac);
    PreviousIsMod(next.place.seg, n);
    NextIsMod(seg, n);
    assert t.bearings[seg] == world.metric.bearing(v.spec.route[seg], v.spec.route[Next(seg, n)]);
  }

  lemma PreviousIsMod(i: nat, n: nat)
    requires i < n
    ensures (i + n - 1) % n == if i > 0 then i - 1 else n - 1
  {
    if i > 0 {
      assert i + n - 1 == (i - 1) + n;
    }
  }

  /** h is the whole number nearest to x; halves go up. */
  predicate Nearest(h: int, x: real) { h as real - 0.5 <= x < h as real + 0.5 }

  /** The membership of zone z changes, and f says so. */
  ghost predicate TellsChange(f: Frame, vehicleId: string, z: Zone, was: set<string>, p: Point) {
    && f == ZoneEvent(vehicleId, z.id, if InRing(p, z.ring) then Enter else Exit, z.zoneLabel)
    && InRing(p, z.ring) != (z.id in was)
  }

  /** The frames tell the changed zones, whose positions in the list are at, in the list's order. */
  ghost predicate TellsChanges(frames: seq<Frame>, at: seq<nat>, vehicleId: string, zones: seq<Zone>,
      was: set<string>, p: Point)
  {
    && |at| == |frames| && (forall j, k :: 0 <= j < k < |at| ==> at[j] < at[k])
    && (forall k :: 0 <= k < |at| ==> at[k] < |zones| && TellsChange(frames[k], vehicleId, zones[at[k]], was, p))
    && (forall i :: 0 <= i < |zones| && InRing(p, zones[i].ring) != (zones[i].id in was) ==> i in at)
  }

  lemma {:induction false} CrossingsTellChanges(vehicleId: string, zones: seq<Zone>, was: set<string>, p: Point)
      returns (at: seq<nat>)
    ensures TellsChanges(Crossings(vehicleId, zones, was, p), at, vehicleId, zones, was, p)
  {
    at := [];
    if zones != [] {
      var n := |zones| - 1;
      at := CrossingsTellChanges(vehicleId, zones[..n], was, p);
      if InRing(p, zones[n].ring) != (zones[n].id in was) {
        at := at + [n];
      }
    }
  }

  /** A tick reports the vehicle's point, rounded heading and speed in km/h, then every zone whose
    * membership changed, once each and in zone order. */
  lemma ReportTells(v: Vehicle, world: Setting, dtMs: real, next: Vehicle) returns (at: seq<nat>)
    requires OnRoute(v, world) && Sound(world) && next == Ticked(v, world, dtMs)
    ensures var frames := Report(v, world, dtMs);
      && frames != [] && frames[0].Position?
      && frames[0].vehicleId == v.spec.vehicleId && frames[0].at == next.at
      && Nearest(frames[0].heading, next.place.heading) && Nearest(frames[0].speed, 3.6 * v.spec.speed)
      && TellsChanges(frames[1..], at, v.spec.vehicleId, world.zones, v.inside, next.at)
  {
    at := CrossingsTellChanges(v.spec.vehicleId, world.zones, v.inside, next.at);
  }

  // ---------- Runs of ticks ----------

  ghost function Ridden(v: Vehicle, world: Setting, dts: seq<real>): Vehicle
    requires OnRoute(v, world) && Sound(world)
    ensures OnRoute(Ridden(v, world, dts), world)
  {
    if dts == [] then v else Ticked(Ridden(v, world, dts[..|dts| - 1]), world, dts[|dts| - 1])
  }

  /** The log of a vehicle's frames over a run of ticks. */
  ghost function Log(v: Vehicle, world: Setting, dts: seq<real>): seq<Frame>
    requires OnRoute(v, world) && Sound(world)
  {
    if dts == [] then []
    else Log(v, world, dts[..|dts| - 1]) + Report(Ridden(v, world, dts[..|dts| - 1]), world, dts[|dts| - 1])
  }

  lemma DistanceAdds(speed: real, a: real, b: real)
    ensures Distance(speed, a) + Distance(speed, b) == Distance(speed, a + b)
  {
    var x, y := a / 1000.0, b / 1000.0;
    assert (a + b) / 1000.0 == x + y;
    assert speed * (x + y) == speed * x + speed * y;
  }

  lemma DistanceIsNonNegative(speed: real, dtMs: real)
    requires speed >= 0.0 && dtMs >= 0.0
    ensures Distance(speed, dtMs) >= 0.0
  {
  }

  /** The distances of the ticks. */
  function Distances(speed: real, dts: seq<real>): (ds: seq<real>)
    ensures |ds| == |dts|
  {
    seq(|dts|, i requires 0 <= i < |dts| => Distance(speed, dts[i]))
  }

  lemma {:induction false} DistancesSum(speed: real, dts: seq<real>)
    ensures Sum(Distances(speed, dts)) == Distance(speed, Sum(dts))
  {
    if dts != [] {
      var init, last := dts[..|dts| - 1], dts[|dts| - 1];
      DistancesSum(speed, init);
      assert Distances(speed, dts)[..|init|] == Distances(speed, init);
      DistanceAdds(speed, Sum(init), last);
    }
  }

  lemma {:induction false} RideIsWalks(v: Vehicle, world: Setting, dts: seq<real>, t: Track)
    requires OnRoute(v, world) && Sound(world)
    requires t == TrackOf(v.spec.route, world.metric) && IsLoop(t) && OnLoop(t, v.place)
    ensures Ridden(v, world, dts).spec == v.spec
    ensures Ridden(v, world, dts).place == Walks(t, v.place, Distances(v.spec.speed, dts))
  {
    if dts != [] {
      var init := dts[..|dts| - 1];
      RideIsWalks(v, world, init, t);
      assert Distances(v.spec.speed, dts)[..|init|] == Distances(v.spec.speed, init);
    }
  }

  /** However time is cut into ticks, a vehicle ends where one walk of the whole distance takes it. */
  lemma RideIsOneWalk(v: Vehicle, world: Setting, dts: seq<real>, t: Track)
    requires OnRoute(v, world) && Sound(world) && forall i :: 0 <= i < |dts| ==> dts[i] >= 0.0
    requires t == TrackOf(v.spec.route, world.metric)
    ensures IsLoop(t) && OnLoop(t, v.place)
    ensures Ridden(v, world, dts).spec == v.spec
    ensures Ridden(v, world, dts).place == Walk(t, v.place, Distance(v.spec.speed, Sum(dts)))
  {
    TrackIsLoop(v.spec.route, world.metric);
    var ds := Distances(v.spec.speed, dts);
    forall i | 0 <= i < |ds| ensures ds[i] >= 0.0 {
      DistanceIsNonNegative(v.spec.speed, dts[i]);
    }
    RideIsWalks(v, world, dts, t);
    TicksAreOneWalk(t, v.place, ds);
    DistancesSum(v.spec.speed, dts);
  }

  /** However time is cut into ticks, they are one tick: place, heading, position and zones. */
  lemma RideIsOneTick(v: Vehicle, world: Setting, dts: seq<real>)
    requires OnRoute(v, world) && Sound(world) && forall i :: 0 <= i < |dts| ==> dts[i] >= 0.0
    ensures dts != [] ==> Ridden(v, world, dts) == Ticked(v, world, Sum(dts))
  {
    RideIsOneWalk(v, world, dts, TrackOf(v.spec.route, world.metric));
  }

  // ---------- What the log means ----------

  ghost function Replay(start: set<string>, log: seq<Frame>): set<string> {
    if log == [] then start
    else
      var rest, f := Replay(start, log[..|log| - 1]), log[|log| - 1];
      if f.Position? then rest else if f.kind.Enter? then rest + {f.zoneId} else rest - {f.zoneId}
  }

  /** The kinds of one zone's events, in order. */
  ghost function Kinds(log: seq<Frame>, z: string): seq<ZoneEventType> {
    if log == [] then []
    else
      var f := log[|log| - 1];
      Kinds(log[..|log| - 1], z) + if f.ZoneEvent? && f.zoneId == z then [f.kind] else []
  }

  /** Kinds alternate, beginning with Exit for a zone the vehicle starts in. */
  ghost predicate Alternates(kinds: seq<ZoneEventType>, startsInside: bool) {
    forall k :: 0 <= k < |kinds| ==> kinds[k] == if (k % 2 == 0) == startsInside then Exit else Enter
  }

  /** The log explains whether the vehicle is in zone z: replaying gives `now`, and the zone's events
    * alternate and end on the side `now` says. */
  ghost predicate Explains(start: set<string>, log: seq<Frame>, z: string, now: bool) {
    && (z in Replay(start, log) <==> now)
    && Alternates(Kinds(log, z), z in start)
    && (now <==> (z in start) != (|Kinds(log, z)| % 2 == 1))
  }

  lemma LogEntry(start: set<string>, log: seq<Frame>, f: Frame, z: string, before: bool, now: bool)
    requires Explains(start, log, z, before)
    requires if f.ZoneEvent? && f.zoneId == z then before != now && (f.kind.Enter? <==> now) else before == now
    ensures Explains(start, log + [f], z, now)
  {
    assert (log + [f])[..|log|] == log;
  }

  /** One tick's events settle each zone of the list by the vehicle's new point. */
  lemma {:induction false} CrossingsExplain(start: set<string>, log: seq<Frame>, vehicleId: string, zones: seq<Zone>,
      was: set<string>, p: Point, z: string)
    requires DistinctIds(zones) && Explains(start, log, z, z in was)
    ensures Explains(start, log + Crossings(vehicleId, zones, was, p), z,
      if z in Ids(zones) then z in ZonesAt(zones, p) else z in was)
  {
    if zones == [] {
      assert log + [] == log;
    } else {
      var init, last := zones[..|zones| - 1], zones[|zones| - 1];
      CrossingsExplain(start, log, vehicleId, init, was, p, z);
      LastZone(zones, p, z);
      var earlier, all := Crossings(vehicleId, init, was, p), Crossings(vehicleId, zones, was, p);
      var before := if z in Ids(init) then z in ZonesAt(init, p) else z in was;
      var now := if z in Ids(zones) then z in ZonesAt(zones, p) else z in was;
      if InRing(p, last.ring) == (last.id in was) {
        assert log + all == log + earlier;
      } else {
        var f := ZoneEvent(vehicleId, last.id, if InRing(p, last.ring) then Enter else Exit, last.zoneLabel);
        assert log + all == (log + earlier) + [f];
        LogEntry(start, log + earlier, f, z, before, now);
      }
    }
  }

  lemma LastZone(zones: seq<Zone>, p: Point, z: string)
    requires DistinctIds(zones) && zones != []
    ensures var init, last := zones[..|zones| - 1], zones[|zones| - 1];
      && (z in Ids(zones) <==> z in Ids(init) || z == last.id)
      && last.id !in Ids(init)
      && (z in ZonesAt(zones, p) <==> z in ZonesAt(init, p) || (z == last.id && InRing(p, last.ring)))
      && ZonesAt(init, p) <= Ids(init)
  {
    var n := |zones| - 1;
    var init := zones[..n];
    forall i | 0 <= i < n ensures init[i].id == zones[i].id != zones[n].id && init[i].ring == zones[i].ring {
    }
    if z in Ids(zones) && z != zones[n].id {
      var i :| 0 <= i < |zones| && zones[i].id == z;
      assert init[i].id == z;
    }
    if z in Ids(init) {
      var i :| 0 <= i < n && init[i].id == z;
      assert zones[i].id == z;
    }
    if z in ZonesAt(zones, p) {
      var i :| 0 <= i < |zones| && InRing(p, zones[i].ring) && zones[i].id == z;
      if i < n {
        assert init[i].id == z && InRing(p, init[i].ring);
      }
    }
    if z in ZonesAt(init, p) {
      var i :| 0 <= i < n && InRing(p, init[i].ring) && init[i].id == z;
      assert zones[i].id == z && InRing(p, zones[i].ring);
    }
  }

  lemma TickExplains(start: set<string>, log: seq<Frame>, v: Vehicle, world: Setting, dtMs: real, z: string)
    requires OnRoute(v, world) && Sound(world) && Explains(start, log, z, z in v.inside)
    ensures Explains(start, log + Report(v, world, dtMs), z, z in Ticked(v, world, dtMs).inside)
  {
    var next := Ticked(v, world, dtMs);
    var f := PositionFrame(next);
    LogEntry(start, log, f, z, z in v.inside, z in v.inside);
    CrossingsExplain(start, log + [f], v.spec.vehicleId, world.zones, v.inside, next.at, z);
    assert log + Report(v, world, dtMs) == (log + [f]) + Crossings(v.spec.vehicleId, world.zones, v.inside, next.at);
    if z !in Ids(world.zones) {
      assert z !in ZonesAt(world.zones, v.at) && z !in ZonesAt(world.zones, next.at);
    }
  }

  /** After any run, replaying a vehicle's log gives exactly the zones that contain its point, and
    * each zone's events alternate, beginning with Enter unless the vehicle starts inside. */
  lemma {:induction false} RideLogIsExplained(v: Vehicle, world: Setting, dts: seq<real>, z: string)
    requires OnRoute(v, world) && Sound(world)
    ensures Ridden(v, world, dts).inside == ZonesAt(world.zones, Ridden(v, world, dts).at)
    ensures Explains(v.inside, Log(v, world, dts), z, z in Ridden(v, world, dts).inside)
  {
    if dts != [] {
      var init, last := dts[..|dts| - 1], dts[|dts| - 1];
      RideLogIsExplained(v, world, init, z);
      TickExplains(v.inside, Log(v, world, init), Ridden(v, world, init), world, last, z);
    }
  }
}
