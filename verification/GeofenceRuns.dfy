/** Zone events over whole runs of pings.
  *
  * A ping that could be evaluated replaces its vehicle's zone set by the set of zones that
  * contain it, and its events are the difference, sorted by zone id. The theorems replay the
  * event log of a run against the stored membership.
  */
module GeofenceRuns {
  import opened Sequences

  type VehicleId = string
  type ZoneId = string
  type Label = Option<string>

  datatype Zone = Zone(id: ZoneId, arrivalLabel: Label)

  datatype EventType = Enter | Exit

  datatype ZoneEvent = ZoneEvent(vehicle: VehicleId, zone: ZoneId, kind: EventType, arrivalLabel: Label, timestamp: int)

  /** An accepted ping with the catalog's answers: the containing zones, unless the query
    * failed, and the labels of the zones that can be looked up. */
  datatype Ping = Ping(vehicle: VehicleId, timestamp: int, containing: Option<seq<Zone>>, lookup: map<ZoneId, Label>)

  // ---------- Zone id order ----------

  predicate StringLess(a: string, b: string) {
    if b == [] then false
    else if a == [] then true
    else if a[0] != b[0] then a[0] < b[0]
    else StringLess(a[1..], b[1..])
  }

  lemma {:induction false} StringLessIsAsymmetric(a: string, b: string)
    requires StringLess(a, b)
    ensures !StringLess(b, a)
  {
    if a != [] && a[0] == b[0] {
      StringLessIsAsymmetric(a[1..], b[1..]);
    }
  }

  lemma {:induction false} StringLessIsTotal(a: string, b: string)
    ensures a == b || StringLess(a, b) || StringLess(b, a)
  {
    if a != [] && b != [] && a[0] == b[0] {
      StringLessIsTotal(a[1..], b[1..]);
      assert a == [a[0]] + a[1..] && b == [b[0]] + b[1..];
    }
  }

  lemma {:induction false} StringLessIsTransitive(a: string, b: string, c: string)
    requires StringLess(a, b) && StringLess(b, c)
    ensures StringLess(a, c)
  {
    if a != [] && a[0] == b[0] && b[0] == c[0] {
      StringLessIsTransitive(a[1..], b[1..], c[1..]);
    }
  }

  /** a and b agree on their first k characters; there a ends and b does not, or a's next is the smaller. */
  ghost predicate PrecedesAt(a: string, b: string, k: nat) {
    && k <= |a| && k < |b| && (forall i :: 0 <= i < k ==> a[i] == b[i])
    && (k < |a| ==> a[k] < b[k])
  }

  /** The order of strings, read off their characters. */
  ghost predicate Precedes(a: string, b: string) { exists k: nat :: PrecedesAt(a, b, k) }

  lemma {:induction false} StringLessIff(a: string, b: string)
    ensures StringLess(a, b) <==> Precedes(a, b)
  {
    if a == [] || b == [] || a[0] != b[0] {
      assert StringLess(a, b) ==> PrecedesAt(a, b, 0);
    } else {
      StringLessIff(a[1..], b[1..]);
      if k: nat :| PrecedesAt(a[1..], b[1..], k) {
        forall i | 0 <= i < k + 1 ensures a[i] == b[i] {
          assert i > 0 ==> a[1..][i - 1] == b[1..][i - 1];
        }
        assert PrecedesAt(a, b, k + 1);
      }
      if k: nat :| PrecedesAt(a, b, k) {
        assert PrecedesAt(a[1..], b[1..], k - 1);
      }
    }
  }

  predicate ByZone(a: ZoneEvent, b: ZoneEvent) { StringLess(a.zone, b.zone) }

  lemma ByZoneIsAsymmetric()
    ensures Asymmetric(ByZone)
  {
    forall a: ZoneEvent, b: ZoneEvent | ByZone(a, b) ensures !ByZone(b, a) {
      StringLessIsAsymmetric(a.zone, b.zone);
    }
  }

  // ---------- One ping ----------

  /** Containing zones by id; a later duplicate wins. */
  function Current(zones: seq<Zone>): map<ZoneId, Label> {
    if zones == [] then map[]
    else Current(zones[..|zones| - 1])[zones[|zones| - 1].id := zones[|zones| - 1].arrivalLabel]
  }

  function EnterEvent(p: Ping, current: map<ZoneId, Label>, z: ZoneId): ZoneEvent
    requires z in current
  {
    ZoneEvent(p.vehicle, z, Enter, current[z], p.timestamp)
  }

  function ExitEvent(p: Ping, z: ZoneId): ZoneEvent {
    ZoneEvent(p.vehicle, z, Exit, if z in p.lookup then p.lookup[z] else None, p.timestamp)
  }

  /** The symmetric difference of prior and current zones, as events. */
  ghost function Changes(p: Ping, current: map<ZoneId, Label>, prior: set<ZoneId>): set<ZoneEvent> {
    (set z | z in current.Keys - prior :: EnterEvent(p, current, z))
      + (set z | z in prior - current.Keys :: ExitEvent(p, z))
  }

  /** events lists the changes, sorted by zone id. */
  ghost predicate ListsChanges(events: seq<ZoneEvent>, p: Ping, current: map<ZoneId, Label>, prior: set<ZoneId>) {
    StrictlySorted(events, ByZone) && Elements(events) == Changes(p, current, prior)
  }

  // ---------- What a batch says ----------

  /** z is the last zone with its id: a later duplicate wins. */
  ghost predicate IsContaining(zones: seq<Zone>, i: nat) {
    i < |zones| && forall j :: i < j < |zones| ==> zones[j].id != zones[i].id
  }

  ghost function ZoneIds(zones: seq<Zone>): set<ZoneId> { set z | z in zones :: z.id }

  lemma {:induction false} CurrentIsLast(zones: seq<Zone>, z: ZoneId) returns (i: nat)
    ensures z in Current(zones) <==> z in ZoneIds(zones)
    ensures z in Current(zones) ==> IsContaining(zones, i) && zones[i] == Zone(z, Current(zones)[z])
  {
    if zones == [] {
      i := 0;
    } else {
      var n := |zones| - 1;
      assert zones == zones[..n] + [zones[n]];
      i := CurrentIsLast(zones[..n], z);
      if zones[n].id == z {
        i := n;
      }
    }
  }

  lemma CurrentKeys(zones: seq<Zone>)
    ensures Current(zones).Keys == ZoneIds(zones)
  {
    forall z ensures z in Current(zones) <==> z in ZoneIds(zones) {
      var i := CurrentIsLast(zones, z);
    }
  }

  /** A containing zone the vehicle was not in, with that zone's own label. */
  ghost predicate Enters(e: ZoneEvent, zones: seq<Zone>, prior: set<ZoneId>) {
    e.zone !in prior && exists i: nat :: IsContaining(zones, i) && zones[i] == Zone(e.zone, e.arrivalLabel)
  }

  /** A zone the vehicle was in that does not contain it, with the label looked up, if any. */
  ghost predicate Leaves(e: ZoneEvent, p: Ping, zones: seq<Zone>, prior: set<ZoneId>) {
    && e.zone in prior && e.zone !in ZoneIds(zones)
    && e.arrivalLabel == if e.zone in p.lookup then p.lookup[e.zone] else None
  }

  /** One event of the ping's vehicle at the ping's time. */
  ghost predicate Reports(e: ZoneEvent, p: Ping, zones: seq<Zone>, prior: set<ZoneId>) {
    && e.vehicle == p.vehicle && e.timestamp == p.timestamp
    && if e.kind.Enter? then Enters(e, zones, prior) else Leaves(e, p, zones, prior)
  }

  /** Zone ids ascend, every event is as it should be, and each zone entered or left has one. */
  ghost predicate IsBatch(events: seq<ZoneEvent>, p: Ping, zones: seq<Zone>, prior: set<ZoneId>) {
    && Ascends(events)
    && (forall e :: e in events ==> Reports(e, p, zones, prior))
    && (forall z :: z in ZoneIds(zones) - prior || z in prior - ZoneIds(zones) ==> Reported(events, z))
  }

  ghost predicate Reported(events: seq<ZoneEvent>, z: ZoneId) { exists k :: 0 <= k < |events| && events[k].zone == z }

  /** Reporting a zone means being its event among the changes. */
  lemma ReportsIsChange(e: ZoneEvent, p: Ping, zones: seq<Zone>, prior: set<ZoneId>)
    ensures Reports(e, p, zones, prior) <==> e in Changes(p, Current(zones), prior)
  {
    var i := CurrentIsLast(zones, e.zone);
    if e.kind.Enter? && Reports(e, p, zones, prior) {
      var j: nat :| IsContaining(zones, j) && zones[j] == Zone(e.zone, e.arrivalLabel);
      assert zones[j] in zones && e.zone in ZoneIds(zones) && i == j;
      assert e == EnterEvent(p, Current(zones), e.zone);
    }
    if e.kind.Enter? && e in Changes(p, Current(zones), prior) {
      assert zones[i] == Zone(e.zone, e.arrivalLabel);
    }
    assert e.kind.Exit? && Reports(e, p, zones, prior) ==> e == ExitEvent(p, e.zone);
  }

  lemma ReportedIsChange(events: seq<ZoneEvent>, p: Ping, zones: seq<Zone>, prior: set<ZoneId>, z: ZoneId)
    requires forall e :: e in events ==> Reports(e, p, zones, prior)
    requires z in ZoneIds(zones) - prior || z in prior - ZoneIds(zones)
    ensures var current := Current(zones);
      var e := if z in current then EnterEvent(p, current, z) else ExitEvent(p, z);
      Reported(events, z) <==> e in events
  {
    var i := CurrentIsLast(zones, z);
    var current := Current(zones);
    var e := if z in current then EnterEvent(p, current, z) else ExitEvent(p, z);
    if k :| 0 <= k < |events| && events[k].zone == z {
      ReportsIsChange(events[k], p, zones, prior);
      assert events[k] == e;
    }
    if e in events {
      var k :| 0 <= k < |events| && events[k] == e;
      assert events[k].zone == z;
    }
  }

  ghost predicate Ascends(events: seq<ZoneEvent>) {
    forall k :: 0 < k < |events| ==> Precedes(events[k - 1].zone, events[k].zone)
  }

  lemma AscendingIsSorted(events: seq<ZoneEvent>)
    ensures StrictlySorted(events, ByZone) <==> Ascends(events)
  {
    forall k | 0 < k < |events|
      ensures ByZone(events[k - 1], events[k]) <==> Precedes(events[k - 1].zone, events[k].zone)
    {
      StringLessIff(events[k - 1].zone, events[k].zone);
    }
    if Ascends(events) {
      forall i, j | 0 <= i < j < |events| ensures ByZone(events[i], events[j]) {
        NeighboursSort(events, i, j);
      }
    }
  }

  lemma {:induction false} NeighboursSort(events: seq<ZoneEvent>, i: nat, j: nat)
    requires i < j < |events| && forall k :: 0 < k < |events| ==> ByZone(events[k - 1], events[k])
    ensures ByZone(events[i], events[j])
    decreases j
  {
    assert ByZone(events[j - 1], events[j]);
    if i < j - 1 {
      NeighboursSort(events, i, j - 1);
      StringLessIsTransitive(events[i].zone, events[j - 1].zone, events[j].zone);
    }
  }

  /** The sorted listing of the changes is exactly a batch, and there is only one. */
  lemma ListsChangesIff(events: seq<ZoneEvent>, p: Ping, zones: seq<Zone>, prior: set<ZoneId>)
    ensures ListsChanges(events, p, Current(zones), prior) <==> IsBatch(events, p, zones, prior)
  {
    AscendingIsSorted(events);
    var changes := Changes(p, Current(zones), prior);
    forall e ensures Reports(e, p, zones, prior) <==> e in changes {
      ReportsIsChange(e, p, zones, prior);
    }
    if forall e :: e in events ==> Reports(e, p, zones, prior) {
      EachChangeReportedIff(events, p, zones, prior);
    } else {
      var e :| e in events && !Reports(e, p, zones, prior);
      assert e in Elements(events) && e !in changes;
    }
  }

  lemma EachChangeReportedIff(events: seq<ZoneEvent>, p: Ping, zones: seq<Zone>, prior: set<ZoneId>)
    requires forall e :: e in events ==> Reports(e, p, zones, prior)
    ensures Elements(events) == Changes(p, Current(zones), prior) <==>
      forall z :: z in ZoneIds(zones) - prior || z in prior - ZoneIds(zones) ==> Reported(events, z)
  {
    var current, changes := Current(zones), Changes(p, Current(zones), prior);
    forall e | e in events ensures e in changes {
      ReportsIsChange(e, p, zones, prior);
    }
    CurrentKeys(zones);
    forall z | z in ZoneIds(zones) - prior || z in prior - ZoneIds(zones)
      ensures Reported(events, z) <==> (if z in current then EnterEvent(p, current, z) else ExitEvent(p, z)) in events
    {
      ReportedIsChange(events, p, zones, prior, z);
    }
    if forall z :: z in ZoneIds(zones) - prior || z in prior - ZoneIds(zones) ==> Reported(events, z) {
      forall e | e in changes ensures e in Elements(events) {
        assert e.zone in ZoneIds(zones) - prior || e.zone in prior - ZoneIds(zones);
        assert Reported(events, e.zone);
      }
    }
    if Elements(events) == changes {
      forall z | z in ZoneIds(zones) - prior || z in prior - ZoneIds(zones) ensures Reported(events, z) {
        var e := if z in current then EnterEvent(p, current, z) else ExitEvent(p, z);
        assert e in changes && e in Elements(events);
      }
    }
  }

  type Membership = VehicleId -> set<ZoneId>

  /** Evaluating p turns `before` into `after` and emits `events`. */
  ghost predicate Evaluates(before: Membership, p: Ping, events: seq<ZoneEvent>, after: Membership) {
    match p.containing
    case None => events == [] && forall v :: after(v) == before(v)
    case Some(zones) =>
      && ListsChanges(events, p, Current(zones), before(p.vehicle))
      && forall v :: after(v) == if v == p.vehicle then Current(zones).Keys else before(v)
  }

  /** The events of a ping are determined by the ping and its vehicle's prior zones alone. */
  lemma EventsAreDetermined(b1: Membership, a1: Membership, e1: seq<ZoneEvent>, b2: Membership, a2: Membership,
      e2: seq<ZoneEvent>, p: Ping)
    requires Evaluates(b1, p, e1, a1) && Evaluates(b2, p, e2, a2) && b1(p.vehicle) == b2(p.vehicle)
    ensures e1 == e2
  {
    if p.containing.Some? {
      ByZoneIsAsymmetric();
      assert Elements(e1) == Elements(e2);
      forall x ensures x in e1 <==> x in e2 {
        assert x in e1 <==> x in Elements(e1);
        assert x in e2 <==> x in Elements(e2);
      }
      SortedListingIsUnique(e1, e2, ByZone);
    }
  }

  // ---------- Runs ----------

  /** Membership starts empty and each ping is evaluated in turn, emitting its batch. */
  ghost predicate IsRun(states: seq<Membership>, pings: seq<Ping>, batches: seq<seq<ZoneEvent>>) {
    && |states| == |pings| + 1 && |batches| == |pings|
    && (forall v :: states[0](v) == {})
    && forall i :: 0 <= i < |pings| ==> Evaluates(states[i], pings[i], batches[i], states[i + 1])
  }

  // Publishing: `ask(i)` is the outcome of the i-th attempt of a run.
  type Oracle = nat -> bool

  /** The events of a batch whose publish succeeds; the first attempt is number at. */
  function Received(batch: seq<ZoneEvent>, ask: Oracle, at: nat): seq<ZoneEvent> {
    if batch == [] then []
    else
      var n := |batch| - 1;
      Received(batch[..n], ask, at) + if ask(at + n) then [batch[n]] else []
  }

  /** A run whose batches are published; received is what arrived in the queue. */
  ghost predicate IsPublishedRun(states: seq<Membership>, pings: seq<Ping>, batches: seq<seq<ZoneEvent>>,
      ask: Oracle, received: seq<ZoneEvent>) {
    IsRun(states, pings, batches) && received == Received(Log(batches), ask, 0)
  }

  /** Two runs over the same pings emit the same events and store the same membership, whatever the
    * order in which zones are visited and whichever publishes fail. */
  lemma {:induction false} PublishFailuresChangeNothing(pings: seq<Ping>, v: VehicleId,
      s1: seq<Membership>, b1: seq<seq<ZoneEvent>>, ask1: Oracle, r1: seq<ZoneEvent>,
      s2: seq<Membership>, b2: seq<seq<ZoneEvent>>, ask2: Oracle, r2: seq<ZoneEvent>)
    requires IsPublishedRun(s1, pings, b1, ask1, r1) && IsPublishedRun(s2, pings, b2, ask2, r2)
    ensures b1 == b2 && s1[|pings|](v) == s2[|pings|](v)
    decreases |pings|
  {
    if pings != [] {
      var n := |pings| - 1;
      RunPrefix(s1, pings, b1);
      RunPrefix(s2, pings, b2);
      var p1, p2 := Received(Log(b1[..n]), ask1, 0), Received(Log(b2[..n]), ask2, 0);
      var t1, t2 := s1[..n + 1], s2[..n + 1];
      PublishFailuresChangeNothing(pings[..n], v, t1, b1[..n], ask1, p1, t2, b2[..n], ask2, p2);
      PublishFailuresChangeNothing(pings[..n], pings[n].vehicle, t1, b1[..n], ask1, p1, t2, b2[..n], ask2, p2);
      SameStep(s1[n], s1[n + 1], b1[n], s2[n], s2[n + 1], b2[n], pings[n], v);
      assert b1 == b1[..n] + [b1[n]] && b2 == b2[..n] + [b2[n]];
    }
  }

  lemma SameStep(m1: Membership, t1: Membership, e1: seq<ZoneEvent>, m2: Membership, t2: Membership,
      e2: seq<ZoneEvent>, p: Ping, v: VehicleId)
    requires Evaluates(m1, p, e1, t1) && Evaluates(m2, p, e2, t2)
    requires m1(p.vehicle) == m2(p.vehicle) && m1(v) == m2(v)
    ensures e1 == e2 && t1(v) == t2(v)
  {
    EventsAreDetermined(m1, t1, e1, m2, t2, e2, p);
  }

  lemma RunPrefix(states: seq<Membership>, pings: seq<Ping>, batches: seq<seq<ZoneEvent>>)
    requires IsRun(states, pings, batches) && pings != []
    ensures IsRun(states[..|pings|], pings[..|pings| - 1], batches[..|pings| - 1])
  {
    var s, p, b := states[..|pings|], pings[..|pings| - 1], batches[..|pings| - 1];
    forall i | 0 <= i < |p| ensures Evaluates(s[i], p[i], b[i], s[i + 1]) {
      assert Evaluates(states[i], pings[i], batches[i], states[i + 1]);
    }
  }

  /** Zones containing the vehicle's last evaluated ping; none before the first. */
  ghost function LastZones(pings: seq<Ping>, v: VehicleId): set<ZoneId> {
    if pings == [] then {}
    else
      var p := pings[|pings| - 1];
      if p.vehicle == v && p.containing.Some? then Current(p.containing.value).Keys
      else LastZones(pings[..|pings| - 1], v)
  }

  /** The stored membership is where each vehicle was last seen. */
  lemma {:induction false} StoredIsLastZones(states: seq<Membership>, pings: seq<Ping>, batches: seq<seq<ZoneEvent>>,
      v: VehicleId)
    requires IsRun(states, pings, batches)
    ensures states[|pings|](v) == LastZones(pings, v)
  {
    if pings != [] {
      var n := |pings| - 1;
      RunPrefix(states, pings, batches);
      StoredIsLastZones(states[..n + 1], pings[..n], batches[..n], v);
      assert Evaluates(states[n], pings[n], batches[n], states[n + 1]);
    }
  }

  /** The event log of a run. */
  ghost function Log(batches: seq<seq<ZoneEvent>>): seq<ZoneEvent> {
    if batches == [] then [] else Log(batches[..|batches| - 1]) + batches[|batches| - 1]
  }

  /** A vehicle's zones reconstructed from the log alone. */
  ghost function Replay(log: seq<ZoneEvent>, v: VehicleId): set<ZoneId> {
    if log == [] then {}
    else
      var rest, e := Replay(log[..|log| - 1], v), log[|log| - 1];
      if e.vehicle != v then rest
      else if e.kind.Enter? then rest + {e.zone} else rest - {e.zone}
  }

  /** Event kinds of one vehicle and zone, in log order. */
  ghost function Kinds(log: seq<ZoneEvent>, v: VehicleId, z: ZoneId): seq<EventType> {
    if log == [] then []
    else
      var e := log[|log| - 1];
      Kinds(log[..|log| - 1], v, z) + if e.vehicle == v && e.zone == z then [e.kind] else []
  }

  ghost predicate Alternates(kinds: seq<EventType>) {
    forall k :: 0 <= k < |kinds| ==> kinds[k] == if k % 2 == 0 then Enter else Exit
  }

  lemma {:induction false} QuietBatch(log: seq<ZoneEvent>, batch: seq<ZoneEvent>, v: VehicleId, z: ZoneId)
    requires forall e :: e in batch ==> e.vehicle != v || e.zone != z
    ensures Kinds(log + batch, v, z) == Kinds(log, v, z)
    ensures z in Replay(log + batch, v) <==> z in Replay(log, v)
  {
    if batch == [] {
      assert log + batch == log;
    } else {
      var init, e := batch[..|batch| - 1], batch[|batch| - 1];
      assert e in batch;
      QuietBatch(log, init, v, z);
      assert (log + batch)[..|log + batch| - 1] == log + init;
    }
  }

  lemma OneEvent(log: seq<ZoneEvent>, front: seq<ZoneEvent>, e: ZoneEvent, back: seq<ZoneEvent>)
    requires forall x :: x in front || x in back ==> x.zone != e.zone
    ensures Kinds(log + front + [e] + back, e.vehicle, e.zone) == Kinds(log, e.vehicle, e.zone) + [e.kind]
    ensures e.zone in Replay(log + front + [e] + back, e.vehicle) <==> e.kind.Enter?
  {
    QuietBatch(log, front, e.vehicle, e.zone);
    var mid := log + front + [e];
    assert mid[..|mid| - 1] == log + front;
    QuietBatch(mid, back, e.vehicle, e.zone);
  }

  /** A batch with exactly one event for (v, z) appends one kind. */
  lemma OneEventBatch(log: seq<ZoneEvent>, batch: seq<ZoneEvent>, k: nat, v: VehicleId, z: ZoneId)
    requires k < |batch| && batch[k].vehicle == v && batch[k].zone == z
    requires forall j :: 0 <= j < |batch| && j != k ==> batch[j].zone != z
    ensures Kinds(log + batch, v, z) == Kinds(log, v, z) + [batch[k].kind]
    ensures z in Replay(log + batch, v) <==> batch[k].kind.Enter?
  {
    var front, back := batch[..k], batch[k + 1..];
    assert log + batch == log + front + [batch[k]] + back;
    OneEvent(log, front, batch[k], back);
  }

  lemma OneEventPerZone(events: seq<ZoneEvent>, j: nat, k: nat)
    requires StrictlySorted(events, ByZone)
    requires j < |events| && k < |events| && j != k
    ensures events[j].zone != events[k].zone
  {
    if j < k {
      assert ByZone(events[j], events[k]);
      StringLessIsAsymmetric(events[j].zone, events[k].zone);
    } else {
      assert ByZone(events[k], events[j]);
      StringLessIsAsymmetric(events[k].zone, events[j].zone);
    }
  }

  /** An event reports the change it is named after. */
  lemma EventReportsChange(before: Membership, p: Ping, events: seq<ZoneEvent>, after: Membership, k: nat)
    requires Evaluates(before, p, events, after) && k < |events|
    ensures var e := events[k];
      e.vehicle == p.vehicle &&
      if e.kind.Enter? then e.zone !in before(p.vehicle) && e.zone in after(p.vehicle)
      else e.zone in before(p.vehicle) && e.zone !in after(p.vehicle)
  {
    assert events[k] in Elements(events);
  }

  /** Every change of membership is reported. */
  lemma ChangeIsReported(before: Membership, p: Ping, events: seq<ZoneEvent>, after: Membership, z: ZoneId)
      returns (k: nat)
    requires Evaluates(before, p, events, after)
    requires (z in before(p.vehicle)) != (z in after(p.vehicle))
    ensures k < |events| && events[k].zone == z
  {
    var current := Current(p.containing.value);
    var e := if z in current then EnterEvent(p, current, z) else ExitEvent(p, z);
    assert e in Changes(p, current, before(p.vehicle));
    assert e in Elements(events);
    k :| 0 <= k < |events| && events[k] == e;
  }

  /** The log's replay and alternation agree with a zone set, for one vehicle and zone. */
  ghost predicate Tracks(log: seq<ZoneEvent>, zones: set<ZoneId>, v: VehicleId, z: ZoneId) {
    && (z in Replay(log, v) <==> z in zones)
    && Alternates(Kinds(log, v, z))
    && (|Kinds(log, v, z)| % 2 == 1 <==> z in zones)
  }

  lemma EventKeepsTrack(before: Membership, p: Ping, events: seq<ZoneEvent>, after: Membership, log: seq<ZoneEvent>,
      k: nat)
    requires Evaluates(before, p, events, after) && k < |events|
    requires Tracks(log, before(p.vehicle), p.vehicle, events[k].zone)
    ensures Tracks(log + events, after(p.vehicle), p.vehicle, events[k].zone)
  {
    EventReportsChange(before, p, events, after, k);
    forall j | 0 <= j < |events| && j != k ensures events[j].zone != events[k].zone {
      OneEventPerZone(events, j, k);
    }
    OneEventBatch(log, events, k, p.vehicle, events[k].zone);
  }

  /** One ping: the log's replay and alternation keep up with the membership. */
  lemma PingKeepsTrack(before: Membership, p: Ping, events: seq<ZoneEvent>, after: Membership, log: seq<ZoneEvent>,
      v: VehicleId, z: ZoneId)
    requires Evaluates(before, p, events, after) && Tracks(log, before(v), v, z)
    ensures Tracks(log + events, after(v), v, z)
  {
    if k :| 0 <= k < |events| && events[k].vehicle == v && events[k].zone == z {
      EventReportsChange(before, p, events, after, k);
      EventKeepsTrack(before, p, events, after, log, k);
    } else {
      QuietBatch(log, events, v, z);
      if (z in before(v)) != (z in after(v)) {
        var k := ChangeIsReported(before, p, events, after, z);
        EventReportsChange(before, p, events, after, k);
      }
    }
  }

  /** Over every run: replaying the event log gives exactly the stored membership, and for each
    * vehicle and zone the events alternate, starting with Enter. */
  lemma {:induction false} ReplayIsStored(states: seq<Membership>, pings: seq<Ping>, batches: seq<seq<ZoneEvent>>,
      v: VehicleId, z: ZoneId)
    requires IsRun(states, pings, batches)
    ensures Tracks(Log(batches), states[|pings|](v), v, z)
  {
    if pings != [] {
      var n := |pings| - 1;
      RunPrefix(states, pings, batches);
      ReplayIsStored(states[..n + 1], pings[..n], batches[..n], v, z);
      assert Evaluates(states[n], pings[n], batches[n], states[n + 1]);
      PingKeepsTrack(states[n], pings[n], batches[n], states[n + 1], Log(batches[..n]), v, z);
    }
  }

  // ---------- Vehicles do not influence each other ----------

  function PingsOf(pings: seq<Ping>, v: VehicleId): seq<Ping> {
    if pings == [] then []
    else PingsOf(pings[..|pings| - 1], v) + if pings[|pings| - 1].vehicle == v then [pings[|pings| - 1]] else []
  }

  function EventsOf(log: seq<ZoneEvent>, v: VehicleId): seq<ZoneEvent> {
    if log == [] then []
    else EventsOf(log[..|log| - 1], v) + if log[|log| - 1].vehicle == v then [log[|log| - 1]] else []
  }

  lemma {:induction false} EventsOfBatch(log: seq<ZoneEvent>, batch: seq<ZoneEvent>, v: VehicleId, own: VehicleId)
    requires forall e :: e in batch ==> e.vehicle == own
    ensures EventsOf(log + batch, v) == EventsOf(log, v) + if v == own then batch else []
  {
    if batch == [] {
      assert log + batch == log;
    } else {
      var init, e := batch[..|batch| - 1], batch[|batch| - 1];
      assert e in batch;
      EventsOfBatch(log, init, v, own);
      assert (log + batch)[..|log + batch| - 1] == log + init;
      assert batch == init + [e];
    }
  }

  lemma BatchIsOwn(before: Membership, p: Ping, events: seq<ZoneEvent>, after: Membership)
    requires Evaluates(before, p, events, after)
    ensures forall e :: e in events ==> e.vehicle == p.vehicle
  {
    forall e | e in events ensures e.vehicle == p.vehicle {
      assert e in Elements(events);
    }
  }

  /** A last ping of another vehicle adds nothing to v's events. */
  lemma DropForeign(states: seq<Membership>, pings: seq<Ping>, batches: seq<seq<ZoneEvent>>, v: VehicleId)
    requires IsRun(states, pings, batches) && pings != [] && pings[|pings| - 1].vehicle != v
    ensures EventsOf(Log(batches), v) == EventsOf(Log(batches[..|pings| - 1]), v)
    ensures PingsOf(pings, v) == PingsOf(pings[..|pings| - 1], v)
  {
    var n := |pings| - 1;
    BatchIsOwn(states[n], pings[n], batches[n], states[n + 1]);
    EventsOfBatch(Log(batches[..n]), batches[n], v, pings[n].vehicle);
  }

  lemma {:induction false} LastZonesOfOwn(pings: seq<Ping>, v: VehicleId)
    ensures LastZones(PingsOf(pings, v), v) == LastZones(pings, v)
  {
    if pings != [] {
      var init := PingsOf(pings[..|pings| - 1], v);
      LastZonesOfOwn(pings[..|pings| - 1], v);
      if pings[|pings| - 1].vehicle == v {
        assert (init + [pings[|pings| - 1]])[..|init|] == init;
      } else {
        assert init + [] == init;
      }
    }
  }

  /** Two runs that give a vehicle the same pings give it the same events, whatever the other
    * vehicles do and however the zones were iterated. */
  lemma {:induction false} VehiclesAreIndependent(
      s1: seq<Membership>, p1: seq<Ping>, b1: seq<seq<ZoneEvent>>,
      s2: seq<Membership>, p2: seq<Ping>, b2: seq<seq<ZoneEvent>>, v: VehicleId)
    requires IsRun(s1, p1, b1) && IsRun(s2, p2, b2) && PingsOf(p1, v) == PingsOf(p2, v)
    ensures EventsOf(Log(b1), v) == EventsOf(Log(b2), v)
    decreases |p1| + |p2|
  {
    var n, m := |p1| - 1, |p2| - 1;
    if n >= 0 && p1[n].vehicle != v {
      DropForeign(s1, p1, b1, v);
      RunPrefix(s1, p1, b1);
      VehiclesAreIndependent(s1[..n + 1], p1[..n], b1[..n], s2, p2, b2, v);
    } else if m >= 0 && p2[m].vehicle != v {
      DropForeign(s2, p2, b2, v);
      RunPrefix(s2, p2, b2);
      VehiclesAreIndependent(s1, p1, b1, s2[..m + 1], p2[..m], b2[..m], v);
    } else if n >= 0 && m >= 0 {
      SameLastPing(s1, p1, b1, s2, p2, b2, v);
      KeepOwn(s1, p1, b1, v);
      KeepOwn(s2, p2, b2, v);
      RunPrefix(s1, p1, b1);
      RunPrefix(s2, p2, b2);
      VehiclesAreIndependent(s1[..n + 1], p1[..n], b1[..n], s2[..m + 1], p2[..m], b2[..m], v);
    }
  }

  lemma SameLastOwn(p1: seq<Ping>, p2: seq<Ping>, v: VehicleId)
    requires p1 != [] && p2 != [] && p1[|p1| - 1].vehicle == v && p2[|p2| - 1].vehicle == v
    requires PingsOf(p1, v) == PingsOf(p2, v)
    ensures PingsOf(p1[..|p1| - 1], v) == PingsOf(p2[..|p2| - 1], v) && p1[|p1| - 1] == p2[|p2| - 1]
  {
    var q1, q2 := PingsOf(p1[..|p1| - 1], v), PingsOf(p2[..|p2| - 1], v);
    var a, b := q1 + [p1[|p1| - 1]], q2 + [p2[|p2| - 1]];
    assert a == b && a[|a| - 1] == p1[|p1| - 1] && b[|b| - 1] == p2[|p2| - 1];
    assert a[..|a| - 1] == q1 && b[..|b| - 1] == q2;
  }

  lemma PriorIsOwn(states: seq<Membership>, pings: seq<Ping>, batches: seq<seq<ZoneEvent>>, v: VehicleId)
    requires IsRun(states, pings, batches) && pings != []
    ensures states[|pings| - 1](v) == LastZones(PingsOf(pings[..|pings| - 1], v), v)
  {
    var n := |pings| - 1;
    RunPrefix(states, pings, batches);
    StoredIsLastZones(states[..n + 1], pings[..n], batches[..n], v);
    LastZonesOfOwn(pings[..n], v);
  }

  lemma KeepOwn(states: seq<Membership>, pings: seq<Ping>, batches: seq<seq<ZoneEvent>>, v: VehicleId)
    requires IsRun(states, pings, batches) && pings != [] && pings[|pings| - 1].vehicle == v
    ensures EventsOf(Log(batches), v) == EventsOf(Log(batches[..|pings| - 1]), v) + batches[|pings| - 1]
  {
    var n := |pings| - 1;
    BatchIsOwn(states[n], pings[n], batches[n], states[n + 1]);
    EventsOfBatch(Log(batches[..n]), batches[n], v, v);
  }

  lemma SameLastPing(
      s1: seq<Membership>, p1: seq<Ping>, b1: seq<seq<ZoneEvent>>,
      s2: seq<Membership>, p2: seq<Ping>, b2: seq<seq<ZoneEvent>>, v: VehicleId)
    requires IsRun(s1, p1, b1) && IsRun(s2, p2, b2) && PingsOf(p1, v) == PingsOf(p2, v)
    requires p1 != [] && p2 != [] && p1[|p1| - 1].vehicle == v && p2[|p2| - 1].vehicle == v
    ensures PingsOf(p1[..|p1| - 1], v) == PingsOf(p2[..|p2| - 1], v)
    ensures b1[|p1| - 1] == b2[|p2| - 1]
  {
    var n, m := |p1| - 1, |p2| - 1;
    SameLastOwn(p1, p2, v);
    PriorIsOwn(s1, p1, b1, v);
    PriorIsOwn(s2, p2, b2, v);
    assert Evaluates(s1[n], p1[n], b1[n], s1[n + 1]);
    assert Evaluates(s2[m], p2[m], b2[m], s2[m + 1]);
    EventsAreDetermined(s1[n], s1[n + 1], b1[n], s2[m], s2[m + 1], b2[m], p1[n]);
  }
}
