/** The simulated fleet, updated in place by `Tick`.
  *
  * Trigonometry is an arbitrary `Metric`; the random start of a vehicle is a parameter. Each tick
  * is proved to do what `FleetRuns.Ticked` and `FleetRuns.Report` say of every vehicle.
  */
module FleetSimulationObject {
  import opened Sequences
  import opened Segments
  import opened Cycles
  import opened PointInPolygon
  import opened LoopWalk
  import opened FleetRuns

  /** The even-odd loop over the ring without its closing position. */
  method PointInRing(p: Point, ring: seq<Point>) returns (inside: bool)
    ensures inside <==> InRing(p, ring)
  {
    inside := false;
    var n := |ring| - 1;
    if n > 0 {
      ghost var open, ray := ring[..n], RayTest(p);
      ghost var w := [open[n - 1]] + open;
      var i, j := 0, n - 1;
      while i < n
        invariant 0 <= i <= n && 0 <= j < n && ring[j] == w[i]
        invariant inside == PathParity(w[..i + 1], ray)
      {
        PathExtend(w, i, ray);
        if Crosses(ring[i], ring[j], p) {
          inside := !inside;
        }
        j, i := i, i + 1;
      }
      assert w[..n + 1] == w;
    } else if n == 0 {
      assert ring[..0] == [];
    }
  }

  class SimVehicle {
    const spec: Spec
    const world: Setting
    var segIndex: nat
    var segFrac: real
    var heading: real
    var at: Point
    var inside: set<string>

    ghost function View(): Vehicle
      reads this
    {
      Vehicle(spec, Place(segIndex, segFrac, heading), at, inside)
    }

    ghost predicate Valid()
      reads this
    {
      Sound(world) && OnRoute(View(), world)
    }

    /** A vehicle starts on a vertex of its route, with a random fraction of the segment ahead. */
    constructor (spec: Spec, world: Setting, startIndex: nat, startFrac: real)
      requires Sound(world) && spec.speed >= 0.0 && startIndex < |spec.route| && 0.0 <= startFrac < 1.0
      ensures Valid() && this.spec == spec && this.world == world
      ensures segIndex == startIndex && segFrac == startFrac && at == spec.route[startIndex]
    {
      this.spec := spec;
      this.world := world;
      segIndex := startIndex;
      segFrac := startFrac;
      NextIsMod(startIndex, |spec.route|);
      heading := world.metric.bearing(spec.route[startIndex], spec.route[(startIndex + 1) % |spec.route|]);
      at := spec.route[startIndex];
      inside := {};
      new;
      var entered := UpdateZones();
    }

    /** The segment walk. */
    method Advance(distance: real)
      requires Valid()
      modifies this`segIndex, this`segFrac, this`heading
      ensures var t := TrackOf(spec.route, world.metric);
        && IsLoop(t) && OnLoop(t, old(View()).place)
        && View().place == Walk(t, old(View()).place, distance)
    {
      TrackIsLoop(spec.route, world.metric);
      ghost var t := TrackOf(spec.route, world.metric);
      ghost var end := Walk(t, View().place, distance);
      var remaining := distance;
      while remaining > 0.0
        invariant OnLoop(t, View().place) && Walk(t, View().place, remaining) == end
        invariant View().inside == old(View().inside) && View().at == old(View().at)
        decreases Fuel(t, View().place, remaining)
      {
        WalkStep(t, View().place, remaining);
        remaining := AdvanceInSegment(remaining, t);
      }
    }

    /** One turn of the walk: to the point `remaining` ahead on this segment, or to the next vertex. */
    method AdvanceInSegment(remaining: real, ghost t: Track) returns (left: real)
      requires Valid() && t == TrackOf(spec.route, world.metric) && IsLoop(t)
      modifies this`segIndex, this`segFrac, this`heading
      ensures View().place == StepPlace(t, old(View()).place, remaining)
      ensures left == StepLeft(t, old(View()).place, remaining)
    {
      var route := spec.route;
      NextIsMod(segIndex, |route|);
      var a, b := route[segIndex], route[(segIndex + 1) % |route|];
      var segLen := SegmentLength(world.metric, a, b);
      assert segLen == t.lens[segIndex] && world.metric.bearing(a, b) == t.bearings[segIndex];
      var segRemain := segLen * (1.0 - segFrac);
      if remaining < segRemain {
        segFrac := segFrac + remaining / segLen;
        left := 0.0;
      } else {
        left := remaining - segRemain;
        segIndex := (segIndex + 1) % |route|;
        segFrac := 0.0;
      }
      heading := world.metric.bearing(a, b);
    }

    /** The Enter/Exit diff against the zones, in zone order. */
    method UpdateZones() returns (events: seq<Frame>)
      requires DistinctIds(world.zones)
      modifies this`inside
      ensures events == Crossings(spec.vehicleId, world.zones, old(inside), at)
      ensures inside == (old(inside) - Ids(world.zones)) + ZonesAt(world.zones, at)
    {
      var zones := world.zones;
      events := [];
      for i := 0 to |zones|
        invariant events == Crossings(spec.vehicleId, zones[..i], old(inside), at)
        invariant inside == (old(inside) - Ids(zones[..i])) + ZonesAt(zones[..i], at)
      {
        var z := zones[i];
        var isIn := PointInRing(at, z.ring);
        assert zones[..i + 1][..i] == zones[..i];
        LastZones(zones[..i + 1], old(inside), inside, at);
        var was := z.id in inside;
        if isIn && !was {
          inside := inside + {z.id};
          events := events + [ZoneEvent(spec.vehicleId, z.id, Enter, z.zoneLabel)];
        } else if !isIn && was {
          inside := inside - {z.id};
          events := events + [ZoneEvent(spec.vehicleId, z.id, Exit, z.zoneLabel)];
        }
      }
      assert zones[..|zones|] == zones;
    }

    /** Interpolates the vehicle's point on its segment. */
    method Locate()
      requires segIndex < |spec.route|
      modifies this`at
      ensures at == PointAt(spec.route, View().place)
    {
      var route := spec.route;
      NextIsMod(segIndex, |route|);
      var a, b := route[segIndex], route[(segIndex + 1) % |route|];
      at := Point(a.x + (b.x - a.x) * segFrac, a.y + (b.y - a.y) * segFrac);
    }

    /** Moves the vehicle and reports what happened. */
    method Tick(dtMs: real) returns (frames: seq<Frame>)
      requires Valid()
      modifies this`segIndex, this`segFrac, this`heading, this`at, this`inside
      ensures Valid() && View() == Ticked(old(View()), world, dtMs)
      ensures frames == Report(old(View()), world, dtMs)
    {
      ghost var before := View();
      ghost var next := Ticked(before, world, dtMs);
      Advance(Distance(spec.speed, dtMs));
      assert View().place == next.place;
      Locate();
      assert at == next.at;
      frames := [Position(spec.vehicleId, at, Round(heading), Round(spec.speed * 3.6))];
      assert frames == [PositionFrame(next)];
      var events := UpdateZones();
      frames := frames + events;
      ZonesAreListed(world.zones, before.at);
      assert inside == next.inside;
    }
  }

  lemma ZonesAreListed(zones: seq<Zone>, p: Point)
    ensures ZonesAt(zones, p) <= Ids(zones)
  {
  }

  /** Visiting the last zone of the list settles its membership and no other. */
  lemma LastZones(zones: seq<Zone>, was: set<string>, inside: set<string>, p: Point)
    requires DistinctIds(zones) && zones != []
    requires inside == (was - Ids(zones[..|zones| - 1])) + ZonesAt(zones[..|zones| - 1], p)
    ensures var z := zones[|zones| - 1];
      && (z.id in inside <==> z.id in was)
      && (was - Ids(zones)) + ZonesAt(zones, p) == if InRing(p, z.ring) then inside + {z.id} else inside - {z.id}
  {
    var z := zones[|zones| - 1];
    LastZone(zones, p, z.id);
    var next := (was - Ids(zones)) + ZonesAt(zones, p);
    forall x ensures x in next <==> x in if InRing(p, z.ring) then inside + {z.id} else inside - {z.id} {
      LastZone(zones, p, x);
    }
  }

  class FleetSimulation {
    const vehicles: seq<SimVehicle>

    ghost predicate Valid()
      reads this, vehicles
    {
      NoDuplicates(vehicles) && forall i :: 0 <= i < |vehicles| ==> vehicles[i].Valid()
    }

    constructor (vehicles: seq<SimVehicle>)
      requires NoDuplicates(vehicles) && forall i :: 0 <= i < |vehicles| ==> vehicles[i].Valid()
      ensures Valid() && this.vehicles == vehicles
    {
      this.vehicles := vehicles;
    }

    ghost function Views(): seq<Vehicle>
      reads this, vehicles
    {
      seq(|vehicles|, i requires 0 <= i < |vehicles| reads this, vehicles => vehicles[i].View())
    }

    ghost function Worlds(): seq<Setting> {
      seq(|vehicles|, i requires 0 <= i < |vehicles| => vehicles[i].world)
    }

    /** The first i vehicles have ticked from views; the others have not. */
    ghost predicate Progress(views: seq<Vehicle>, dtMs: real, i: nat)
      reads this, vehicles
    {
      && |views| == |vehicles|
      && (forall k :: 0 <= k < |views| ==> Sound(vehicles[k].world) && OnRoute(views[k], vehicles[k].world))
      && (forall k :: 0 <= k < |views| ==>
        vehicles[k].View() == if k < i then Ticked(views[k], vehicles[k].world, dtMs) else views[k])
    }

    method TickVehicle(i: nat, dtMs: real, ghost views: seq<Vehicle>) returns (report: seq<Frame>)
      requires i < |vehicles| && NoDuplicates(vehicles) && Progress(views, dtMs, i)
      modifies vehicles[i]
      ensures Progress(views, dtMs, i + 1)
      ensures report == Report(views[i], vehicles[i].world, dtMs)
    {
      assert vehicles[i].View() == views[i];
      report := vehicles[i].Tick(dtMs);
      forall k | 0 <= k < |views|
        ensures vehicles[k].View() == if k < i + 1 then Ticked(views[k], vehicles[k].world, dtMs) else views[k]
      {
        if k < i {
          assert vehicles[k] != vehicles[i];
        } else if k > i {
          assert vehicles[i] != vehicles[k];
        }
      }
    }

    /** One tick for every vehicle, in fleet order; no vehicle's result depends on another's. */
    method Tick(dtMs: real) returns (frames: seq<Frame>)
      requires Valid()
      modifies vehicles
      ensures Valid()
      ensures forall i :: 0 <= i < |vehicles| ==>
        vehicles[i].View() == Ticked(old(vehicles[i].View()), vehicles[i].world, dtMs)
      ensures frames == Reports(old(Views()), Worlds(), dtMs)
    {
      frames := [];
      ghost var views, worlds := Views(), Worlds();
      for i := 0 to |vehicles|
        invariant Progress(views, dtMs, i)
        invariant frames == Reports(views[..i], worlds[..i], dtMs)
      {
        var report := TickVehicle(i, dtMs, views);
        frames := frames + report;
        ReportsAppend(views, worlds, i, dtMs);
      }
      assert views[..|vehicles|] == views && worlds[..|vehicles|] == worlds;
      forall i | 0 <= i < |vehicles|
        ensures vehicles[i].View() == Ticked(old(vehicles[i].View()), vehicles[i].world, dtMs)
      {
        assert views[i] == old(vehicles[i].View());
      }
    }
  }

  lemma ReportsAppend(views: seq<Vehicle>, worlds: seq<Setting>, i: nat, dtMs: real)
    requires i < |views| == |worlds|
    requires forall k :: 0 <= k < |views| ==> Sound(worlds[k]) && OnRoute(views[k], worlds[k])
    ensures Reports(views[..i + 1], worlds[..i + 1], dtMs)
      == Reports(views[..i], worlds[..i], dtMs) + Report(views[i], worlds[i], dtMs)
  {
    assert views[..i + 1][..i] == views[..i] && worlds[..i + 1][..i] == worlds[..i];
  }

  ghost function Reports(views: seq<Vehicle>, worlds: seq<Setting>, dtMs: real): seq<Frame>
    requires |views| == |worlds|
    requires forall i :: 0 <= i < |views| ==> Sound(worlds[i]) && OnRoute(views[i], worlds[i])
  {
    if views == [] then []
    else
      var n := |views| - 1;
      Reports(views[..n], worlds[..n], dtMs) + Report(views[n], worlds[n], dtMs)
  }
}
