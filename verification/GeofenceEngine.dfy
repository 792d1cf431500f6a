/** The engine and its membership store, updated in place.
  *
  * Zones are visited in arbitrary order, as Go iterates its maps. `OnAcceptedPing` is proved
  * to do what `GeofenceRuns.Evaluates` says of a ping, so the theorems over runs apply to any
  * sequence of calls.
  */
module GeofenceEngine {
  import opened Sequences
  import opened GeofenceRuns

  class MemoryMembership {
    var inside: map<VehicleId, map<ZoneId, bool>>

    /** Zones a vehicle is recorded as inside. */
    ghost function Zones(v: VehicleId): set<ZoneId>
      reads this
    {
      if v in inside then set z | z in inside[v] && inside[v][z] else {}
    }

    constructor ()
      ensures forall v :: Zones(v) == {}
    {
      inside := map[];
    }

    method InsideZones(v: VehicleId) returns (out: set<ZoneId>)
      ensures out == Zones(v)
    {
      out := {};
      if v !in inside {
        return;
      }
      var todo := inside[v].Keys;
      while todo != {}
        invariant todo <= inside[v].Keys
        invariant out == set z | z in inside[v].Keys - todo && inside[v][z]
      {
        var z :| z in todo;
        if inside[v][z] {
          out := out + {z};
        }
        todo := todo - {z};
      }
    }

    method Set(v: VehicleId, z: ZoneId, isInside: bool)
      modifies this
      ensures Zones(v) == if isInside then old(Zones(v)) + {z} else old(Zones(v)) - {z}
      ensures forall w :: w != v ==> Zones(w) == old(Zones(w))
    {
      var zones := if v in inside then inside[v] else map[];
      inside := inside[v := zones[z := isInside]];
    }
  }

  // ---------- Sorting a batch ----------

  /** No two events of the batch are for the same zone. */
  ghost predicate DistinctZones(events: seq<ZoneEvent>) {
    forall i, j :: 0 <= i < j < |events| ==> events[i].zone != events[j].zone
  }

  /** Position of e in a batch sorted by zone id. */
  function SortedInsert(sorted: seq<ZoneEvent>, e: ZoneEvent): seq<ZoneEvent> {
    if sorted == [] then [e]
    else if StringLess(e.zone, sorted[0].zone) then [e] + sorted
    else [sorted[0]] + SortedInsert(sorted[1..], e)
  }

  lemma {:induction false} InsertKeepsElements(sorted: seq<ZoneEvent>, e: ZoneEvent, x: ZoneEvent)
    ensures x in SortedInsert(sorted, e) <==> x in sorted || x == e
  {
    if sorted != [] && !StringLess(e.zone, sorted[0].zone) {
      InsertKeepsElements(sorted[1..], e, x);
      assert sorted == [sorted[0]] + sorted[1..];
    }
  }

  lemma {:induction false} InsertKeepsOrder(sorted: seq<ZoneEvent>, e: ZoneEvent)
    requires StrictlySorted(sorted, ByZone)
    requires forall x :: x in sorted ==> x.zone != e.zone
    ensures StrictlySorted(SortedInsert(sorted, e), ByZone)
  {
    if sorted != [] {
      if StringLess(e.zone, sorted[0].zone) {
        forall i | 0 <= i < |sorted| ensures ByZone(e, sorted[i]) {
          if i > 0 {
            assert ByZone(sorted[0], sorted[i]);
            StringLessIsTransitive(e.zone, sorted[0].zone, sorted[i].zone);
          }
        }
      } else {
        var rest := sorted[1..];
        assert sorted[0] in sorted;
        forall x | x in rest ensures x.zone != e.zone {
          assert x in sorted;
        }
        InsertKeepsOrder(rest, e);
        StringLessIsTotal(e.zone, sorted[0].zone);
        var tail := SortedInsert(rest, e);
        forall j | 0 <= j < |tail| ensures ByZone(sorted[0], tail[j]) {
          InsertKeepsElements(rest, e, tail[j]);
          if tail[j] in rest {
            var k :| 0 <= k < |rest| && rest[k] == tail[j];
            assert ByZone(sorted[0], sorted[k + 1]);
          }
        }
      }
    }
  }

  /** The library sort, on batches with one event per zone. */
  method SortByZone(events: seq<ZoneEvent>) returns (sorted: seq<ZoneEvent>)
    requires DistinctZones(events)
    ensures StrictlySorted(sorted, ByZone) && Ascends(sorted) && Elements(sorted) == Elements(events)
  {
    sorted := [];
    for i := 0 to |events|
      invariant StrictlySorted(sorted, ByZone)
      invariant forall x :: x in sorted <==> x in events[..i]
    {
      var e := events[i];
      assert events[..i + 1] == events[..i] + [e];
      forall x | x in sorted ensures x.zone != e.zone {
        var k :| 0 <= k < i && events[..i][k] == x;
        assert events[k].zone != events[i].zone;
      }
      InsertKeepsOrder(sorted, e);
      forall x ensures x in SortedInsert(sorted, e) <==> x in sorted || x == e {
        InsertKeepsElements(sorted, e, x);
      }
      sorted := SortedInsert(sorted, e);
    }
    assert events[..|events|] == events;
    AscendingIsSorted(sorted);
  }

  // ---------- The engine ----------

  /** What the loops have collected after visiting the zones in entered and exited. */
  ghost predicate Collected(events: seq<ZoneEvent>, p: Ping, current: map<ZoneId, Label>, entered: set<ZoneId>,
      exited: set<ZoneId>)
    requires entered <= current.Keys
  {
    && DistinctZones(events)
    && (forall e :: e in events ==> e.zone in entered + exited)
    && (forall z :: z in entered ==> EnterEvent(p, current, z) in events)
    && (forall z :: z in exited ==> ExitEvent(p, z) in events)
    && (forall e :: e in events ==>
      (e.zone in entered && e == EnterEvent(p, current, e.zone)) || (e.zone in exited && e == ExitEvent(p, e.zone)))
  }

  lemma CollectEnter(events: seq<ZoneEvent>, p: Ping, current: map<ZoneId, Label>, entered: set<ZoneId>, z: ZoneId)
    requires entered <= current.Keys && Collected(events, p, current, entered, {}) && z in current && z !in entered
    ensures Collected(events + [EnterEvent(p, current, z)], p, current, entered + {z}, {})
  {
    DistinctAppend(events, EnterEvent(p, current, z));
  }

  lemma CollectExit(events: seq<ZoneEvent>, p: Ping, current: map<ZoneId, Label>, entered: set<ZoneId>,
      exited: set<ZoneId>, z: ZoneId)
    requires entered <= current.Keys && Collected(events, p, current, entered, exited) && z !in current && z !in exited
    ensures Collected(events + [ExitEvent(p, z)], p, current, entered, exited + {z})
  {
    DistinctAppend(events, ExitEvent(p, z));
  }

  lemma DistinctAppend(events: seq<ZoneEvent>, e: ZoneEvent)
    requires DistinctZones(events) && forall x :: x in events ==> x.zone != e.zone
    ensures DistinctZones(events + [e])
  {
    forall i, j | 0 <= i < j < |events + [e]| ensures (events + [e])[i].zone != (events + [e])[j].zone {
      assert events[i] in events;
    }
  }

  lemma CollectedAll(events: seq<ZoneEvent>, p: Ping, current: map<ZoneId, Label>, prior: set<ZoneId>)
    requires Collected(events, p, current, current.Keys - prior, prior - current.Keys)
    ensures Elements(events) == Changes(p, current, prior)
  {
    forall e ensures e in Elements(events) <==> e in Changes(p, current, prior) {
      if e in Elements(events) {
        assert e in events;
      }
      if e in Changes(p, current, prior) {
        assert e in events;
      }
    }
  }

  class Engine {
    const members: MemoryMembership
    /** The outcome of the i-th publish attempt. */
    const ask: Oracle
    /** Every publish attempt so far. */
    var published: seq<ZoneEvent>
    /** What arrived in the queue. */
    var received: seq<ZoneEvent>

    constructor (members: MemoryMembership, ask: Oracle)
      ensures this.members == members && this.ask == ask && published == [] && received == []
    {
      this.members := members;
      this.ask := ask;
      published, received := [], [];
    }

    /** The enter loop: zones containing the ping that the vehicle was not inside. */
    method EmitEnters(p: Ping, current: map<ZoneId, Label>, prior: set<ZoneId>) returns (events: seq<ZoneEvent>)
      requires prior == members.Zones(p.vehicle)
      modifies members
      ensures Collected(events, p, current, current.Keys - prior, {})
      ensures members.Zones(p.vehicle) == prior + current.Keys
      ensures forall w :: w != p.vehicle ==> members.Zones(w) == old(members.Zones(w))
    {
      events := [];
      var todo := current.Keys;
      while todo != {}
        invariant todo <= current.Keys
        invariant Collected(events, p, current, current.Keys - todo - prior, {})
        invariant members.Zones(p.vehicle) == prior + (current.Keys - todo)
        invariant forall w :: w != p.vehicle ==> members.Zones(w) == old(members.Zones(w))
      {
        var z :| z in todo;
        ghost var entered := current.Keys - todo - prior;
        todo := todo - {z};
        if z !in prior {
          CollectEnter(events, p, current, entered, z);
          assert current.Keys - todo - prior == entered + {z};
          events := events + [EnterEvent(p, current, z)];
          members.Set(p.vehicle, z, true);
        } else {
          assert current.Keys - todo - prior == entered;
        }
      }
      assert current.Keys - todo - prior == current.Keys - prior;
    }

    /** The exit loop: zones the vehicle was inside that no longer contain the ping. */
    method EmitExits(p: Ping, current: map<ZoneId, Label>, prior: set<ZoneId>, enters: seq<ZoneEvent>)
        returns (events: seq<ZoneEvent>)
      requires Collected(enters, p, current, current.Keys - prior, {})
      requires members.Zones(p.vehicle) == prior + current.Keys
      modifies members
      ensures Collected(events, p, current, current.Keys - prior, prior - current.Keys)
      ensures members.Zones(p.vehicle) == current.Keys
      ensures forall w :: w != p.vehicle ==> members.Zones(w) == old(members.Zones(w))
    {
      events := enters;
      var todo := prior;
      while todo != {}
        invariant todo <= prior
        invariant Collected(events, p, current, current.Keys - prior, prior - todo - current.Keys)
        invariant members.Zones(p.vehicle) == current.Keys + todo
        invariant forall w :: w != p.vehicle ==> members.Zones(w) == old(members.Zones(w))
      {
        var z :| z in todo;
        ghost var exited := prior - todo - current.Keys;
        todo := todo - {z};
        if z in current {
          assert prior - todo - current.Keys == exited;
          continue;
        }
        CollectExit(events, p, current, current.Keys - prior, exited, z);
        assert prior - todo - current.Keys == exited + {z};
        events := events + [ExitEvent(p, z)];
        members.Set(p.vehicle, z, false);
      }
      assert prior - todo - current.Keys == prior - current.Keys;
    }

    method Publish(event: ZoneEvent) returns (ok: bool)
      modifies this`published, this`received
      ensures ok == ask(|old(published)|) && published == old(published) + [event]
      ensures received == old(received) + if ok then [event] else []
    {
      ok := ask(|published|);
      published := published + [event];
      if ok {
        received := received + [event];
      }
    }

    /** Every event is offered, whether or not earlier ones got through. */
    method PublishAll(events: seq<ZoneEvent>)
      modifies this`published, this`received
      ensures published == old(published) + events
      ensures received == old(received) + Received(events, ask, |old(published)|)
    {
      for i := 0 to |events|
        invariant published == old(published) + events[..i]
        invariant received == old(received) + Received(events[..i], ask, |old(published)|)
      {
        assert events[..i + 1][..i] == events[..i];
        var ok := Publish(events[i]);
      }
      assert events[..|events|] == events;
    }

    /** A failed catalog query changes nothing; otherwise the vehicle's stored zones become the
      * containing zones, its events are the difference in ascending order of zone id, and each is
      * offered for publishing. */
    method OnAcceptedPing(p: Ping) returns (result: Option<seq<ZoneEvent>>)
      modifies this, members
      ensures p.containing.None? ==>
        result == None && published == old(published) && received == old(received)
        && forall v :: members.Zones(v) == old(members.Zones(v))
      ensures p.containing.Some? ==>
        && result.Some?
        && IsBatch(result.value, p, p.containing.value, old(members.Zones(p.vehicle)))
        && ListsChanges(result.value, p, Current(p.containing.value), old(members.Zones(p.vehicle)))
        && published == old(published) + result.value
        && received == old(received) + Received(result.value, ask, |old(published)|)
        && forall v :: members.Zones(v) == if v == p.vehicle then ZoneIds(p.containing.value)
          else old(members.Zones(v))
    {
      if p.containing.None? {
        return None;
      }
      var current := Current(p.containing.value);
      var prior := members.InsideZones(p.vehicle);
      var enters := EmitEnters(p, current, prior);
      var collected := EmitExits(p, current, prior, enters);
      CollectedAll(collected, p, current, prior);
      var events := SortByZone(collected);
      ListsChangesIff(events, p, p.containing.value, prior);
      CurrentKeys(p.containing.value);
      PublishAll(events);
      return Some(events);
    }
  }
}
