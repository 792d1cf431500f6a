/** The ingestion service object: mark store, ping store and service, updated in place. */
module IngestService {
  import opened Sequences
  import opened IngestRuns

  datatype Telemetry = Telemetry(speed: real, heading: real)

  /** A request after validation: the invalid fields, or the parsed ping. */
  datatype Request =
    | Malformed(fields: seq<string>)
    | WellFormed(vehicle: VehicleId, timestamp: int, lat: real, lng: real, telemetry: Option<Telemetry>)

  datatype StoredPing = StoredPing(
    id: PingId, vehicle: VehicleId, driver: string, lat: real, lng: real,
    timestamp: int, receivedAt: int, telemetry: Option<Telemetry>)

  datatype Result = Acknowledged(id: PingId) | Invalid(fields: seq<string>) | Discarded | PersistError

  class MemoryHighWaterMark {
    var latest: map<VehicleId, int>

    constructor ()
      ensures latest == map[]
    {
      latest := map[];
    }

    method Latest(v: VehicleId) returns (mark: Option<int>)
      ensures mark == if v in latest then Some(latest[v]) else None
    {
      mark := if v in latest then Some(latest[v]) else None;
    }

    /** Records the timestamp if it is newer: the mark becomes the larger of the two. */
    method Advance(v: VehicleId, timestamp: int)
      modifies this
      ensures latest == Raise(old(latest), Stored(v, timestamp))
    {
      if v !in latest || timestamp > latest[v] {
        latest := latest[v := timestamp];
      }
    }
  }

  class MemoryStore {
    var byID: map<PingId, StoredPing>
    var count: nat

    constructor ()
      ensures byID == map[] && count == 0
    {
      byID, count := map[], 0;
    }

    method Persist(p: StoredPing, available: bool) returns (ok: bool)
      modifies this
      ensures ok == available
      ensures byID == (if ok then old(byID)[p.id := p] else old(byID)) && count == old(count) + if ok then 1 else 0
    {
      ok := available;
      if ok {
        byID := byID[p.id := p];
        count := count + 1;
      }
    }
  }

  /** What the protocol keeps of a stored ping. */
  ghost function Shown(byID: map<PingId, StoredPing>): map<PingId, Stored> {
    map id | id in byID :: Stored(byID[id].vehicle, byID[id].timestamp)
  }

  class Service {
    const store: MemoryStore
    const marks: MemoryHighWaterMark
    /** Publish attempts so far; their outcome is ignored. */
    var published: seq<PingId>

    constructor (store: MemoryStore, marks: MemoryHighWaterMark)
      ensures this.store == store && this.marks == marks && published == []
    {
      this.store := store;
      this.marks := marks;
      published := [];
    }

    /** One undisturbed call. The generated id, the resolved driver, the clock and whether
      * persisting succeeds are inputs. Nothing changes unless the ping is acknowledged. */
    method Ingest(req: Request, newID: PingId, driver: string, now: int, available: bool) returns (result: Result)
      modifies this, store, marks
      ensures result == (match req
        case Malformed(fields) => Invalid(fields)
        case WellFormed(v, t, _, _, _) =>
          if IsStale(old(marks.latest), Stored(v, t)) then Discarded
          else if available then Acknowledged(newID) else PersistError)
      ensures result.Acknowledged? ==>
        && store.byID == old(store.byID)[newID := StoredPing(newID, req.vehicle, driver, req.lat, req.lng,
          req.timestamp, now, req.telemetry)]
        && marks.latest == Raise(old(marks.latest), Stored(req.vehicle, req.timestamp))
        && store.count == old(store.count) + 1 && published == old(published) + [newID]
      ensures !result.Acknowledged? ==>
        store.byID == old(store.byID) && store.count == old(store.count) && marks.latest == old(marks.latest)
          && published == old(published)
      ensures req.WellFormed? && newID !in old(store.byID) ==>
        IsUndisturbedCall(State(old(marks.latest), Shown(old(store.byID)), []), Stored(req.vehicle, req.timestamp),
          newID, available,
          marks.latest, Shown(store.byID))
    {
      match req {
        case Malformed(fields) =>
          return Invalid(fields);
        case WellFormed(v, t, lat, lng, telemetry) =>
          var mark := marks.Latest(v);
          if mark.Some? && t < mark.value {
            return Discarded;
          }
          var stored := StoredPing(newID, v, driver, lat, lng, t, now, telemetry);
          var ok := store.Persist(stored, available);
          if !ok {
            return PersistError;
          }
          marks.Advance(v, t);
          published := published + [newID];
          assert Shown(store.byID) == Shown(old(store.byID))[newID := Stored(v, t)];
          return Acknowledged(newID);
      }
    }
  }

  /** The protocol steps of one call run back to back from s end with these stores. */
  ghost predicate IsUndisturbedCall(s: State, p: Stored, id: PingId, ok: bool, latest: map<VehicleId, int>,
      stored: map<PingId, Stored>)
    requires s.calls == [] && id !in s.stored
  {
    var s1 := Next(s, Check(p));
    if s1.calls[0].stage == Stale then latest == s1.latest && stored == s1.stored
    else
      var s2 := Next(s1, Persist(0, id, ok));
      if s2.calls[0].stage == Failed then latest == s2.latest && stored == s2.stored
      else
        var s3 := Next(s2, Advance(0));
        latest == s3.latest && stored == s3.stored
  }
}
