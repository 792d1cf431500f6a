/** Ping ingestion as a check / persist / advance protocol that concurrent callers interleave.
  *
  * `Ingest` reads the vehicle's high-water mark, persists the ping, and only then advances the
  * mark; nothing holds the three together. The theorems are about every interleaving.
  */
module IngestRuns {

  type VehicleId = string
  type PingId = string

  datatype Stored = Stored(vehicle: VehicleId, timestamp: int)

  /** How far a call has come. */
  datatype Stage = Checked | Persisted(id: PingId) | Accepted(id: PingId) | Stale | Failed

  datatype Call = Call(ping: Stored, stage: Stage)

  datatype State = State(latest: map<VehicleId, int>, stored: map<PingId, Stored>, calls: seq<Call>)

  const INITIAL := State(map[], map[], [])

  datatype Step =
    | Check(ping: Stored)
    | Persist(call: nat, id: PingId, ok: bool)
    | Advance(call: nat)

  /** The mark rejects strictly older pings. */
  predicate IsStale(latest: map<VehicleId, int>, p: Stored) {
    p.vehicle in latest && p.timestamp < latest[p.vehicle]
  }

  function Raise(latest: map<VehicleId, int>, p: Stored): map<VehicleId, int> {
    if p.vehicle !in latest || p.timestamp > latest[p.vehicle] then latest[p.vehicle := p.timestamp] else latest
  }

  predicate Enabled(s: State, step: Step) {
    match step
    case Check(_) => true
    case Persist(k, id, _) => k < |s.calls| && s.calls[k].stage.Checked? && id !in s.stored
    case Advance(k) => k < |s.calls| && s.calls[k].stage.Persisted?
  }

  function Next(s: State, step: Step): State
    requires Enabled(s, step)
  {
    match step
    case Check(p) => s.(calls := s.calls + [Call(p, if IsStale(s.latest, p) then Stale else Checked)])
    case Persist(k, id, ok) =>
      var p := s.calls[k].ping;
      if ok then s.(stored := s.stored[id := p], calls := s.calls[k := Call(p, Persisted(id))])
      else s.(calls := s.calls[k := Call(p, Failed)])
    case Advance(k) =>
      var p := s.calls[k].ping;
      s.(latest := Raise(s.latest, p), calls := s.calls[k := Call(p, Accepted(s.calls[k].stage.id))])
  }

  ghost predicate IsRun(states: seq<State>, steps: seq<Step>) {
    && |states| == |steps| + 1 && states[0] == INITIAL
    && forall i :: 0 <= i < |steps| ==> Enabled(states[i], steps[i]) && states[i + 1] == Next(states[i], steps[i])
  }

  // ---------- The invariant ----------

  /** Some call has persisted the ping stored under id but not yet advanced the mark. */
  ghost predicate InFlight(s: State, id: PingId) {
    exists k :: 0 <= k < |s.calls| && s.calls[k].stage == Persisted(id)
  }

  ghost predicate Reaches(latest: map<VehicleId, int>, p: Stored) {
    p.vehicle in latest && latest[p.vehicle] >= p.timestamp
  }

  /** A stored ping of the vehicle carries the mark. */
  ghost predicate Witnessed(s: State, v: VehicleId) {
    v in s.latest && exists id :: id in s.stored && s.stored[id] == Stored(v, s.latest[v])
  }

  ghost predicate Consistent(s: State) {
    && (forall k :: 0 <= k < |s.calls| && (s.calls[k].stage.Persisted? || s.calls[k].stage.Accepted?) ==>
          s.calls[k].stage.id in s.stored && s.stored[s.calls[k].stage.id] == s.calls[k].ping)
    && (forall v :: v in s.latest ==> Witnessed(s, v))
    && (forall id :: id in s.stored ==> InFlight(s, id) || Reaches(s.latest, s.stored[id]))
  }

  lemma RaiseIsMonotone(latest: map<VehicleId, int>, p: Stored)
    ensures Reaches(Raise(latest, p), p)
    ensures forall v :: v in latest ==> v in Raise(latest, p) && Raise(latest, p)[v] >= latest[v]
    ensures forall v :: v in Raise(latest, p) ==>
      (v in latest && Raise(latest, p)[v] == latest[v]) || Stored(v, Raise(latest, p)[v]) == p
  {
  }

  lemma PersistKeeps(s: State, k: nat, id: PingId)
    requires Consistent(s) && Enabled(s, Persist(k, id, true))
    ensures Consistent(Next(s, Persist(k, id, true)))
  {
    var t := Next(s, Persist(k, id, true));
    forall v | v in t.latest ensures Witnessed(t, v) {
      assert Witnessed(s, v);
      var w :| w in s.stored && s.stored[w] == Stored(v, s.latest[v]);
      assert w in t.stored && t.stored[w] == Stored(v, t.latest[v]);
    }
    assert t.calls[k].stage == Persisted(id);
    forall i | i in t.stored ensures InFlight(t, i) || Reaches(t.latest, t.stored[i]) {
      if i != id && InFlight(s, i) {
        var j :| 0 <= j < |s.calls| && s.calls[j].stage == Persisted(i);
        assert t.calls[j].stage == Persisted(i);
      }
    }
  }

  lemma AdvanceKeeps(s: State, k: nat)
    requires Consistent(s) && Enabled(s, Advance(k))
    ensures Consistent(Next(s, Advance(k)))
  {
    var t := Next(s, Advance(k));
    var p, id := s.calls[k].ping, s.calls[k].stage.id;
    RaiseIsMonotone(s.latest, p);
    forall v | v in t.latest ensures Witnessed(t, v) {
      if v in s.latest && t.latest[v] == s.latest[v] {
        assert Witnessed(s, v);
        var w :| w in s.stored && s.stored[w] == Stored(v, s.latest[v]);
        assert w in t.stored && t.stored[w] == Stored(v, t.latest[v]);
      } else {
        assert id in t.stored && t.stored[id] == Stored(v, t.latest[v]);
      }
    }
    forall i | i in t.stored ensures InFlight(t, i) || Reaches(t.latest, t.stored[i]) {
      if InFlight(s, i) && i != id {
        var j :| 0 <= j < |s.calls| && s.calls[j].stage == Persisted(i);
        assert t.calls[j].stage == Persisted(i);
      }
    }
  }

  lemma QuietStepKeeps(s: State, step: Step)
    requires Consistent(s) && Enabled(s, step) && (step.Check? || (step.Persist? && !step.ok))
    ensures Consistent(Next(s, step))
  {
    var t := Next(s, step);
    forall v | v in t.latest ensures Witnessed(t, v) {
      assert Witnessed(s, v);
    }
    forall i | i in t.stored ensures InFlight(t, i) || Reaches(t.latest, t.stored[i]) {
      if InFlight(s, i) {
        var j :| 0 <= j < |s.calls| && s.calls[j].stage == Persisted(i);
        assert t.calls[j].stage == Persisted(i);
      }
    }
  }

  lemma {:induction false} RunIsConsistent(states: seq<State>, steps: seq<Step>, i: nat)
    requires IsRun(states, steps) && i < |states|
    ensures Consistent(states[i])
  {
    if i > 0 {
      RunIsConsistent(states, steps, i - 1);
      var s, step := states[i - 1], steps[i - 1];
      assert Enabled(s, step) && states[i - 1 + 1] == Next(s, step);
      match step {
        case Check(_) => QuietStepKeeps(s, step);
        case Persist(k, id, ok) =>
          if ok {
            PersistKeeps(s, k, id);
          } else {
            QuietStepKeeps(s, step);
          }
        case Advance(k) => AdvanceKeeps(s, k);
      }
    }
  }

  // ---------- What every interleaving keeps ----------

  /** m is the largest timestamp stored for the vehicle. */
  ghost predicate IsMaxStored(s: State, v: VehicleId, m: int) {
    && (exists id :: id in s.stored && s.stored[id] == Stored(v, m))
    && (forall id :: id in s.stored && s.stored[id].vehicle == v ==> s.stored[id].timestamp <= m)
  }

  ghost predicate Quiet(s: State) {
    forall k :: 0 <= k < |s.calls| ==> !s.calls[k].stage.Persisted?
  }

  /** The mark never exceeds what is stored, and once no call is between persist and advance it
    * is exactly the largest stored timestamp; a vehicle has a mark iff it has a stored ping. */
  lemma MarkIsMaxWhenQuiet(states: seq<State>, steps: seq<Step>, i: nat, v: VehicleId)
    requires IsRun(states, steps) && i < |states|
    ensures var s := states[i];
      && (v in s.latest ==> exists id :: id in s.stored && s.stored[id] == Stored(v, s.latest[v]))
      && (Quiet(s) && v in s.latest ==> IsMaxStored(s, v, s.latest[v]))
      && (Quiet(s) ==> (v in s.latest <==> exists id :: id in s.stored && s.stored[id].vehicle == v))
  {
    var s := states[i];
    RunIsConsistent(states, steps, i);
    if v in s.latest {
      assert Witnessed(s, v);
    }
    if Quiet(s) {
      forall id | id in s.stored ensures Reaches(s.latest, s.stored[id]) {
        assert !InFlight(s, id);
      }
    }
  }

  /** Marks only rise. */
  lemma {:induction false} MarkNeverFalls(states: seq<State>, steps: seq<Step>, i: nat, j: nat, v: VehicleId)
    requires IsRun(states, steps) && i <= j < |states| && v in states[i].latest
    ensures v in states[j].latest && states[j].latest[v] >= states[i].latest[v]
    decreases j
  {
    if i < j {
      MarkNeverFalls(states, steps, i, j - 1, v);
      var s, step := states[j - 1], steps[j - 1];
      assert states[j - 1 + 1] == Next(s, step);
      if step.Advance? {
        RaiseIsMonotone(s.latest, s.calls[step.call].ping);
      }
    }
  }

  /** Every accepted ping is stored as submitted, and the mark has reached it. */
  lemma {:induction false} AcceptedIsStored(states: seq<State>, steps: seq<Step>, i: nat, k: nat)
    requires IsRun(states, steps) && i < |states| && k < |states[i].calls| && states[i].calls[k].stage.Accepted?
    ensures var s, c := states[i], states[i].calls[k];
      c.stage.id in s.stored && s.stored[c.stage.id] == c.ping && Reaches(s.latest, c.ping)
  {
    RunIsConsistent(states, steps, i);
    if i > 0 {
      var s, step := states[i - 1], steps[i - 1];
      assert Enabled(s, step) && states[i - 1 + 1] == Next(s, step);
      if k < |s.calls| && s.calls[k].stage.Accepted? {
        AcceptedIsStored(states, steps, i - 1, k);
        MarkNeverFalls(states, steps, i - 1, i, s.calls[k].ping.vehicle);
      } else {
        assert step == Advance(k);
        RaiseIsMonotone(s.latest, s.calls[k].ping);
      }
    }
  }

  /** Interleaved callers can have an older ping accepted after a newer one: both checks may run
    * before either mark is advanced. */
  lemma AcceptanceNeedNotBeMonotone(newer: Stored, older: Stored) returns (states: seq<State>, steps: seq<Step>)
    requires newer.vehicle == older.vehicle && older.timestamp < newer.timestamp
    ensures IsRun(states, steps) && |states| == 7 && |states[4].calls| == 2 && |states[6].calls| == 2
    ensures states[4].calls == [Call(newer, Accepted("a")), Call(older, Checked)]
    ensures states[6].calls == [Call(newer, Accepted("a")), Call(older, Accepted("b"))]
  {
    steps := [Check(newer), Check(older), Persist(0, "a", true), Advance(0), Persist(1, "b", true), Advance(1)];
    var s1 := Next(INITIAL, steps[0]);
    var s2 := Next(s1, steps[1]);
    var s3 := Next(s2, steps[2]);
    var s4 := Next(s3, steps[3]);
    var s5 := Next(s4, steps[4]);
    var s6 := Next(s5, steps[5]);
    states := [INITIAL, s1, s2, s3, s4, s5, s6];
    assert s2.calls == [Call(newer, Checked), Call(older, Checked)];
  }

  ghost predicate AcceptedCall(s: State, k: nat, p: Stored) {
    k < |s.calls| && s.calls[k].stage.Accepted? && s.calls[k].ping == p
  }

  /** The mark is the timestamp of an accepted call. */
  lemma {:induction false} MarkIsAccepted(states: seq<State>, steps: seq<Step>, i: nat, v: VehicleId) returns (k: nat)
    requires IsRun(states, steps) && i < |states| && v in states[i].latest
    ensures AcceptedCall(states[i], k, Stored(v, states[i].latest[v]))
  {
    if i == 0 {
      assert false;
    } else {
      var s, step := states[i - 1], steps[i - 1];
      assert Enabled(s, step) && states[i - 1 + 1] == Next(s, step);
      if step.Advance? && states[i].latest != s.latest && s.calls[step.call].ping.vehicle == v {
        k := step.call;
      } else {
        k := MarkIsAccepted(states, steps, i - 1, v);
      }
    }
  }

  /** Exactly when an acceptance is in order: no newer ping of the vehicle has been accepted before
    * iff the mark read at the advance, not only at the check, does not reject the ping. */
  lemma AcceptedInOrderIff(states: seq<State>, steps: seq<Step>, i: nat)
    requires IsRun(states, steps) && i < |steps| && steps[i].Advance? && steps[i].call < |states[i].calls|
    ensures var p := states[i].calls[steps[i].call].ping;
      (forall k: nat, q: Stored :: AcceptedCall(states[i], k, q) && q.vehicle == p.vehicle ==>
        q.timestamp <= p.timestamp)
        <==> !IsStale(states[i].latest, p)
  {
    var s, p := states[i], states[i].calls[steps[i].call].ping;
    if IsStale(s.latest, p) {
      var k := MarkIsAccepted(states, steps, i, p.vehicle);
    } else {
      forall k: nat, q: Stored | AcceptedCall(s, k, q) && q.vehicle == p.vehicle ensures q.timestamp <= p.timestamp {
        AcceptedIsStored(states, steps, i, k);
      }
    }
  }

  // ---------- The mark store ----------

  /** The marks after a sequence of advances. */
  function RaiseAll(ps: seq<Stored>): map<VehicleId, int> {
    if ps == [] then map[] else Raise(RaiseAll(ps[..|ps| - 1]), ps[|ps| - 1])
  }

  /** What is read back is the largest timestamp ever advanced to, in whatever order they came. */
  lemma {:induction false} MarkIsLargestAdvanced(ps: seq<Stored>, v: VehicleId)
    ensures v in RaiseAll(ps) <==> exists i :: 0 <= i < |ps| && ps[i].vehicle == v
    ensures v in RaiseAll(ps) ==> Stored(v, RaiseAll(ps)[v]) in ps
    ensures v in RaiseAll(ps) ==> forall i :: 0 <= i < |ps| && ps[i].vehicle == v ==> ps[i].timestamp <= RaiseAll(ps)[v]
  {
    if ps != [] {
      var n := |ps| - 1;
      MarkIsLargestAdvanced(ps[..n], v);
      assert ps == ps[..n] + [ps[n]];
      if v in RaiseAll(ps[..n]) {
        var i :| 0 <= i < n && ps[..n][i].vehicle == v;
        assert ps[i].vehicle == v;
      }
      assert ps[n].vehicle == v ==> v in RaiseAll(ps);
    }
  }

  // ---------- One caller at a time ----------

  /** A call that nobody interleaves with. */
  function Alone(latest: map<VehicleId, int>, accepted: seq<Stored>, p: Stored, ok: bool)
    : (map<VehicleId, int>, seq<Stored>)
  {
    if IsStale(latest, p) || !ok then (latest, accepted) else (Raise(latest, p), accepted + [p])
  }

  /** Marks and accepted pings after calls one at a time; ok says whether persisting succeeds. */
  function InTurn(pings: seq<(Stored, bool)>): (map<VehicleId, int>, seq<Stored>) {
    if pings == [] then (map[], [])
    else
      var before, p := InTurn(pings[..|pings| - 1]), pings[|pings| - 1];
      Alone(before.0, before.1, p.0, p.1)
  }

  predicate Finished(c: Call) { !c.stage.Checked? && !c.stage.Persisted? }

  predicate Idle(calls: seq<Call>) { forall k :: 0 <= k < |calls| ==> Finished(calls[k]) }

  /** Every call starts when the earlier ones are finished. */
  ghost predicate OneAtATime(states: seq<State>, steps: seq<Step>)
    requires |states| == |steps| + 1
  {
    forall i :: 0 <= i < |steps| && steps[i].Check? ==> Idle(states[i].calls)
  }

  /** What was submitted, and whether persisting failed. */
  function Submitted(calls: seq<Call>): seq<(Stored, bool)> {
    if calls == [] then []
    else Submitted(calls[..|calls| - 1]) + [(calls[|calls| - 1].ping, !calls[|calls| - 1].stage.Failed?)]
  }

  function AcceptedPings(calls: seq<Call>): seq<Stored> {
    if calls == [] then []
    else
      AcceptedPings(calls[..|calls| - 1])
      + if calls[|calls| - 1].stage.Accepted? then [calls[|calls| - 1].ping] else []
  }

  ghost predicate DoneInTurn(latest: map<VehicleId, int>, calls: seq<Call>) {
    Idle(calls) && InTurn(Submitted(calls)) == (latest, AcceptedPings(calls))
  }

  /** All calls were made in turn, or all but the last, which has passed its check. */
  ghost predicate AsInTurn(s: State) {
    var n := |s.calls|;
    if n > 0 && !Finished(s.calls[n - 1]) then
      DoneInTurn(s.latest, s.calls[..n - 1]) && !IsStale(s.latest, s.calls[n - 1].ping)
    else DoneInTurn(s.latest, s.calls)
  }

  lemma CallInTurn(latest: map<VehicleId, int>, calls: seq<Call>, c: Call, after: map<VehicleId, int>)
    requires DoneInTurn(latest, calls) && Finished(c)
    requires c.stage.Stale? <==> IsStale(latest, c.ping)
    requires after == if c.stage.Accepted? then Raise(latest, c.ping) else latest
    ensures DoneInTurn(after, calls + [c])
  {
    assert (calls + [c])[..|calls|] == calls;
    var pings, p := Submitted(calls), (c.ping, !c.stage.Failed?);
    assert Submitted(calls + [c]) == pings + [p] && (pings + [p])[..|pings|] == pings;
    assert AcceptedPings(calls) + [] == AcceptedPings(calls);
  }

  lemma CheckInTurn(s: State, p: Stored)
    requires AsInTurn(s) && Idle(s.calls)
    ensures AsInTurn(Next(s, Check(p)))
  {
    var c := Call(p, if IsStale(s.latest, p) then Stale else Checked);
    assert (s.calls + [c])[..|s.calls|] == s.calls;
    if Finished(c) {
      CallInTurn(s.latest, s.calls, c, s.latest);
    }
  }

  /** Only the last call can go on. */
  lemma OtherStepInTurn(s: State, step: Step, c: Call)
    requires AsInTurn(s) && Enabled(s, step) && !step.Check?
    requires c == Next(s, step).calls[step.call]
    ensures AsInTurn(Next(s, step))
  {
    var n := |s.calls|;
    var init := s.calls[..n - 1];
    assert !Finished(s.calls[step.call]);
    assert step.call == n - 1;
    assert Next(s, step).calls == init + [c] && (init + [c])[..n - 1] == init;
    if Finished(c) {
      CallInTurn(s.latest, init, c, Next(s, step).latest);
    }
  }

  lemma {:induction false} RunIsAsInTurn(states: seq<State>, steps: seq<Step>, i: nat)
    requires IsRun(states, steps) && OneAtATime(states, steps) && i < |states|
    ensures AsInTurn(states[i])
  {
    if i > 0 {
      RunIsAsInTurn(states, steps, i - 1);
      var s, step := states[i - 1], steps[i - 1];
      assert Enabled(s, step) && states[i - 1 + 1] == Next(s, step);
      if step.Check? {
        CheckInTurn(s, step.ping);
      } else {
        OtherStepInTurn(s, step, states[i].calls[step.call]);
      }
    }
  }

  /** A run of the protocol whose calls do not overlap has, whenever no call is under way, the marks
    * and the accepted pings of `InTurn`. */
  lemma RunIsInTurn(states: seq<State>, steps: seq<Step>, i: nat)
    requires IsRun(states, steps) && OneAtATime(states, steps) && i < |states| && Idle(states[i].calls)
    ensures InTurn(Submitted(states[i].calls)) == (states[i].latest, AcceptedPings(states[i].calls))
  {
    RunIsAsInTurn(states, steps, i);
  }

  /** The mark is the timestamp of an accepted ping that no other accepted ping exceeds. */
  ghost predicate MarksAccepted(latest: map<VehicleId, int>, accepted: seq<Stored>) {
    && (forall v :: v in latest ==> Stored(v, latest[v]) in accepted)
    && (forall k :: 0 <= k < |accepted| ==> Reaches(latest, accepted[k]))
  }

  ghost predicate InOrder(accepted: seq<Stored>) {
    forall i, j :: 0 <= i < j < |accepted| && accepted[i].vehicle == accepted[j].vehicle ==>
      accepted[i].timestamp <= accepted[j].timestamp
  }

  /** One call at a time: accepted timestamps of a vehicle never decrease. */
  lemma {:induction false} InTurnIsOrdered(pings: seq<(Stored, bool)>)
    ensures MarksAccepted(InTurn(pings).0, InTurn(pings).1) && InOrder(InTurn(pings).1)
  {
    if pings != [] {
      var p := pings[|pings| - 1];
      InTurnIsOrdered(pings[..|pings| - 1]);
      var (latest, accepted) := InTurn(pings[..|pings| - 1]);
      if !IsStale(latest, p.0) && p.1 {
        RaiseIsMonotone(latest, p.0);
        forall i | 0 <= i < |accepted| && accepted[i].vehicle == p.0.vehicle
          ensures accepted[i].timestamp <= p.0.timestamp
        {
          assert Reaches(latest, accepted[i]);
        }
        forall v | v in Raise(latest, p.0) ensures Stored(v, Raise(latest, p.0)[v]) in accepted + [p.0] {
          if v in latest && Raise(latest, p.0)[v] == latest[v] {
            assert Stored(v, latest[v]) in accepted;
          }
        }
      }
    }
  }

  /** One call at a time: a ping is rejected iff a strictly newer one of its vehicle was accepted. */
  lemma StaleIffOlderThanAccepted(pings: seq<(Stored, bool)>, p: Stored)
    ensures IsStale(InTurn(pings).0, p) <==>
      exists k :: 0 <= k < |InTurn(pings).1| && InTurn(pings).1[k].vehicle == p.vehicle
        && InTurn(pings).1[k].timestamp > p.timestamp
  {
    InTurnIsOrdered(pings);
    var (latest, accepted) := InTurn(pings);
    if IsStale(latest, p) {
      assert Stored(p.vehicle, latest[p.vehicle]) in accepted;
    }
    forall k | 0 <= k < |accepted| ensures Reaches(latest, accepted[k]) {
    }
  }
}
