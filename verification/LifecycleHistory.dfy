/** The records of deliveries, assignments and drivers, read off the command history.
  *
  * A command that the services take leaves an entry in the log of every record it concerns. The
  * theorems say what each field of a record is in terms of its log, and which commands are taken.
  */
module LifecycleHistory {
  import opened Sequences
  import opened Lifecycle

  predicate Taken(f: Fleet, c: Command) { Refused(f, c).None? }

  // ---------- Deliveries ----------

  predicate Concerns(c: Command, id: Id) {
    match c
    case CreateDelivery(newId, _, _, _) => newId == id
    case Transition(deliveryId, _, _, _) => deliveryId == id
    case CreateAssignment(_, _, deliveryIds, _) => id in deliveryIds
    case Reassign(deliveryId, _, _) => deliveryId == id
    case _ => false
  }

  /** The assignment named by the last assignment or reassignment. */
  function LinkOf(log: seq<Command>): Option<Id> {
    if log == [] then None
    else match log[|log| - 1]
      case CreateAssignment(newId, _, _, _) => Some(newId)
      case Reassign(_, targetId, _) => Some(targetId)
      case _ => LinkOf(log[..|log| - 1])
  }

  /** The commands taken about a delivery; reassigning it to where it is does not count. */
  ghost function About(cs: seq<Command>, id: Id): seq<Command> {
    if cs == [] then []
    else
      var log, c := About(cs[..|cs| - 1], id), cs[|cs| - 1];
      if Taken(Run(cs[..|cs| - 1]), c) && Concerns(c, id) && !(c.Reassign? && LinkOf(log) == Some(c.targetId))
      then log + [c] else log
  }

  /** Being put in an assignment is the event Assign. */
  function EventOf(c: Command): Option<DeliveryEvent> {
    if c.Transition? then Some(c.event) else if c.CreateAssignment? then Some(Assign) else None
  }

  function Events(log: seq<Command>): seq<DeliveryEvent> {
    if log == [] then []
    else
      var e := EventOf(log[|log| - 1]);
      Events(log[..|log| - 1]) + if e.Some? then [e.value] else []
  }

  /** The status an event is named after. */
  function Named(e: DeliveryEvent): DeliveryStatus {
    match e
    case Assign => Assigned
    case StartTransit => InTransit
    case Arrive => Arrived
    case Complete => Completed
    case Fail => DeliveryStatus.Failed
    case Cancel => Cancelled
  }

  function StatusOf(events: seq<DeliveryEvent>): DeliveryStatus {
    if events == [] then Created else Named(events[|events| - 1])
  }

  /** The last entry of that event. */
  function LastOf(log: seq<Command>, e: DeliveryEvent): Option<Command> {
    if log == [] then None
    else if EventOf(log[|log| - 1]) == Some(e) then Some(log[|log| - 1])
    else LastOf(log[..|log| - 1], e)
  }

  function TimeOf(c: Command): int
    requires c.CreateDelivery? || c.Transition? || c.CreateAssignment? || c.Reassign?
  {
    c.now
  }

  function CompletionTime(c: Option<Command>): Option<int> {
    if c.Some? && c.value.Transition? then Some(c.value.now) else None
  }

  function Reason(c: Option<Command>): Option<string> {
    if c.Some? && c.value.Transition? then c.value.reason else None
  }

  /** The record is what its log says. */
  ghost predicate Matches(d: Delivery, id: Id, log: seq<Command>) {
    && d.id == id && log != [] && Concerns(log[|log| - 1], id)
    && d.status == StatusOf(Events(log))
    && d.assignmentId == LinkOf(log)
    && d.completedAt == CompletionTime(LastOf(log, Complete)) && d.failureReason == Reason(LastOf(log, Fail))
    && d.updatedAt == TimeOf(log[|log| - 1])
  }

  ghost function Extended(f: Fleet, c: Command, id: Id, log: seq<Command>): seq<Command> {
    if Taken(f, c) && Concerns(c, id) && !(c.Reassign? && LinkOf(log) == Some(c.targetId)) then log + [c] else log
  }

  lemma OneMore(log: seq<Command>, c: Command)
    ensures (log + [c])[..|log|] == log && (log + [c])[|log|] == c
  {
  }

  lemma NextIsNamed(from: DeliveryStatus, e: DeliveryEvent)
    requires NextStatus(from, e).Some?
    ensures NextStatus(from, e).value == Named(e)
  {
  }

  lemma LastOfMore(log: seq<Command>, c: Command, e: DeliveryEvent)
    ensures LastOf(log + [c], e) == if EventOf(c) == Some(e) then Some(c) else LastOf(log, e)
  {
    OneMore(log, c);
  }

  lemma TransitionMatches(f: Fleet, c: Command, id: Id, log: seq<Command>)
    requires id in f.deliveries && Matches(f.deliveries[id], id, log)
    requires c.Transition? && c.id == id && Taken(f, c)
    ensures Matches(Performed(f, c).deliveries[id], id, log + [c])
  {
    OneMore(log, c);
    assert Events(log + [c]) == Events(log) + [c.event];
    NextIsNamed(f.deliveries[id].status, c.event);
    LastOfMore(log, c, Complete);
    LastOfMore(log, c, Fail);
  }

  lemma LinkMatches(f: Fleet, c: Command, id: Id, log: seq<Command>)
    requires id in f.deliveries && Matches(f.deliveries[id], id, log)
    requires (c.CreateAssignment? || c.Reassign?) && Concerns(c, id) && Taken(f, c)
    ensures Matches(Performed(f, c).deliveries[id], id, Extended(f, c, id, log))
  {
    OneMore(log, c);
    if c.CreateAssignment? {
      NoLinkErrors(f.deliveries, c.deliveryIds, id);
    }
  }

  lemma StepMatches(f: Fleet, c: Command, id: Id, log: seq<Command>)
    requires Fresh(f, c) && id in f.deliveries && Matches(f.deliveries[id], id, log)
    ensures id in Apply(f, c).deliveries
    ensures Matches(Apply(f, c).deliveries[id], id, Extended(f, c, id, log))
  {
    if Taken(f, c) && Concerns(c, id) {
      if c.Transition? {
        TransitionMatches(f, c, id, log);
      } else if c.CreateAssignment? || c.Reassign? {
        LinkMatches(f, c, id, log);
      }
    } else if Taken(f, c) {
      assert Performed(f, c).deliveries[id] == f.deliveries[id];
    }
  }

  lemma FirstEntry(f: Fleet, c: Command, id: Id)
    requires id !in f.deliveries
    ensures id in Apply(f, c).deliveries <==> Extended(f, c, id, []) != []
    ensures id in Apply(f, c).deliveries ==> Matches(Apply(f, c).deliveries[id], id, Extended(f, c, id, []))
  {
    if Taken(f, c) && c.CreateAssignment? && id in c.deliveryIds {
      NoLinkErrors(f.deliveries, c.deliveryIds, id);
    }
  }

  /** After any run the deliveries are those created, and every field is what the log says: the status is
    * the one the last event is named after. */
  lemma {:induction false} DeliveryIsHistory(cs: seq<Command>, id: Id)
    requires FreshRun(cs)
    ensures id in Run(cs).deliveries <==> About(cs, id) != []
    ensures id in Run(cs).deliveries ==> Matches(Run(cs).deliveries[id], id, About(cs, id))
  {
    if cs != [] {
      var before, c := cs[..|cs| - 1], cs[|cs| - 1];
      DeliveryIsHistory(before, id);
      assert About(cs, id) == Extended(Run(before), c, id, About(before, id));
      if id in Run(before).deliveries {
        StepMatches(Run(before), c, id, About(before, id));
      } else {
        FirstEntry(Run(before), c, id);
      }
    }
  }

  // ---------- Which events are taken ----------

  /** When an event is due, by the events so far. */
  predicate Due(events: seq<DeliveryEvent>, e: DeliveryEvent) {
    var last := if events == [] then None else Some(events[|events| - 1]);
    match e
    case Assign => last == None
    case StartTransit => last == Some(Assign)
    case Arrive => last == Some(StartTransit)
    case Complete => last == Some(Arrive)
    case Fail => last == Some(StartTransit) || last == Some(Arrive)
    case Cancel => last != Some(Complete) && last != Some(Fail) && last != Some(Cancel)
  }

  lemma DueIff(events: seq<DeliveryEvent>, e: DeliveryEvent)
    ensures NextStatus(StatusOf(events), e).Some? <==> Due(events, e)
  {
  }

  /** A transition is taken iff the delivery exists, the event is due and a failure has a reason of 1 to
    * 500 characters; otherwise the first of these that is missing decides the error. */
  lemma TransitionTakenIff(cs: seq<Command>, id: Id, e: DeliveryEvent, reason: Option<string>, now: int)
    requires FreshRun(cs)
    ensures var log := About(cs, id);
      Refused(Run(cs), Transition(id, e, reason, now)) ==
        if log == [] then Some(NotFound("id"))
        else if !Due(Events(log), e) then Some(InvalidTransition)
        else if e == Fail && !(reason.Some? && 1 <= |reason.value| <= 500) then Some(ValidationError)
        else None
  {
    DeliveryIsHistory(cs, id);
    DueIff(Events(About(cs, id)), e);
  }

  /** Every event of a delivery was due when it happened. */
  ghost predicate InOrder(events: seq<DeliveryEvent>) {
    events == [] || (InOrder(events[..|events| - 1]) && Due(events[..|events| - 1], events[|events| - 1]))
  }

  lemma TakenEventIsDue(f: Fleet, c: Command, id: Id, log: seq<Command>)
    requires id in f.deliveries && Matches(f.deliveries[id], id, log)
    requires Taken(f, c) && Concerns(c, id) && EventOf(c).Some?
    ensures Due(Events(log), EventOf(c).value)
  {
    DueIff(Events(log), EventOf(c).value);
    if c.CreateAssignment? {
      NoLinkErrors(f.deliveries, c.deliveryIds, id);
    }
  }

  lemma StepInOrder(f: Fleet, c: Command, id: Id, log: seq<Command>)
    requires if id in f.deliveries then Matches(f.deliveries[id], id, log) else log == []
    requires InOrder(Events(log))
    ensures InOrder(Events(Extended(f, c, id, log)))
  {
    OneMore(log, c);
    if Taken(f, c) && Concerns(c, id) && EventOf(c).Some? {
      if id !in f.deliveries {
        FirstEntry(f, c, id);
      } else {
        TakenEventIsDue(f, c, id, log);
        OneMoreEvent(Events(log), EventOf(c).value);
      }
    } else {
      assert Events(log) + [] == Events(log);
    }
  }

  lemma {:induction false} EventsAreInOrder(cs: seq<Command>, id: Id)
    requires FreshRun(cs)
    ensures InOrder(Events(About(cs, id)))
  {
    if cs != [] {
      var before, c := cs[..|cs| - 1], cs[|cs| - 1];
      EventsAreInOrder(before, id);
      DeliveryIsHistory(before, id);
      StepInOrder(Run(before), c, id, About(before, id));
    }
  }

  lemma OneMoreEvent(events: seq<DeliveryEvent>, e: DeliveryEvent)
    requires InOrder(events) && Due(events, e)
    ensures InOrder(events + [e])
  {
    assert (events + [e])[..|events|] == events;
  }

  const DELIVERED := [Assign, StartTransit, Arrive, Complete]

  /** Part of the way to completion, possibly cancelled, or failed once under way. */
  ghost predicate IsLife(events: seq<DeliveryEvent>) {
    exists k :: 0 <= k <= 4 && Life(events, k)
  }

  predicate Life(events: seq<DeliveryEvent>, k: nat)
    requires k <= 4
  {
    || events == DELIVERED[..k]
    || (k < 4 && events == DELIVERED[..k] + [Cancel])
    || (2 <= k < 4 && events == DELIVERED[..k] + [Fail])
  }

  /** The lives of deliveries are exactly the orders in which every event is due. */
  lemma {:induction false} InOrderIff(events: seq<DeliveryEvent>)
    ensures InOrder(events) <==> IsLife(events)
  {
    if events == [] {
      assert Life(events, 0);
    } else {
      var n := |events| - 1;
      var init, e := events[..n], events[n];
      InOrderIff(init);
      assert events == init + [e];
      if k: nat :| k <= 4 && Life(events, k) {
        LifeShrinks(events, k);
      }
      if InOrder(init) && Due(init, e) {
        var k: nat :| k <= 4 && Life(init, k);
        LifeGrows(init, e, k);
      }
    }
  }

  lemma LifeShrinks(events: seq<DeliveryEvent>, k: nat)
    requires k <= 4 && Life(events, k) && events != []
    ensures IsLife(events[..|events| - 1]) && Due(events[..|events| - 1], events[|events| - 1])
  {
    var init := events[..|events| - 1];
    if events == DELIVERED[..k] {
      assert init == DELIVERED[..k - 1];
      assert Life(init, k - 1);
    } else {
      assert init == DELIVERED[..k];
      assert Life(init, k);
    }
  }

  lemma LifeGrows(init: seq<DeliveryEvent>, e: DeliveryEvent, k: nat)
    requires k <= 4 && Life(init, k) && Due(init, e)
    ensures IsLife(init + [e])
  {
    if e == Cancel || e == Fail {
      assert init == DELIVERED[..k];
      assert Life(init + [e], k);
    } else {
      assert init == DELIVERED[..k] && k < 4 && e == DELIVERED[k];
      assert init + [e] == DELIVERED[..k + 1];
      assert Life(init + [e], k + 1);
    }
  }

  /** A completed delivery was assigned, set off, arrived and was completed, in that order and nothing else. */
  lemma CompletedWentThrough(cs: seq<Command>, id: Id)
    requires FreshRun(cs) && id in Run(cs).deliveries && Run(cs).deliveries[id].status == Completed
    ensures Events(About(cs, id)) == [Assign, StartTransit, Arrive, Complete]
  {
    var events := Events(About(cs, id));
    DeliveryIsHistory(cs, id);
    EventsAreInOrder(cs, id);
    InOrderIff(events);
    var k: nat :| k <= 4 && Life(events, k);
    assert events[|events| - 1] == Complete;
    assert k == 4 && DELIVERED[..4] == DELIVERED;
  }

  ghost predicate WasCreated(cs: seq<Command>, id: Id) {
    exists k :: 0 <= k < |cs| && Creates(cs[k], id)
  }

  predicate Creates(c: Command, id: Id) { c.CreateDelivery? && c.id == id && c.valid && c.geocoded }

  lemma CreationIff(f: Fleet, c: Command, id: Id)
    ensures id in Apply(f, c).deliveries <==> id in f.deliveries || Creates(c, id)
  {
    if Taken(f, c) && c.CreateAssignment? {
      assert LinkAll(f.deliveries, c.deliveryIds, c.newId, c.now).Keys == f.deliveries.Keys;
    }
  }

  /** A delivery exists iff a valid, geocoded creation was asked for. */
  lemma {:induction false} DeliveryExistsIff(cs: seq<Command>, id: Id)
    requires FreshRun(cs)
    ensures id in Run(cs).deliveries <==> WasCreated(cs, id)
  {
    if cs != [] {
      var before, c := cs[..|cs| - 1], cs[|cs| - 1];
      DeliveryExistsIff(before, id);
      CreationIff(Run(before), c, id);
      assert forall k :: 0 <= k < |before| ==> before[k] == cs[k];
    }
  }

  // ---------- Drivers and vehicles ----------

  /** The drivers and vehicles last entered by the administration. */
  function Roster(cs: seq<Command>): map<Id, Driver> {
    if cs == [] then map[]
    else if cs[|cs| - 1].Administer? then cs[|cs| - 1].drivers
    else Roster(cs[..|cs| - 1])
  }

  function Vehicles(cs: seq<Command>): map<Id, Id> {
    if cs == [] then map[]
    else if cs[|cs| - 1].Administer? then cs[|cs| - 1].vehicleOf
    else Vehicles(cs[..|cs| - 1])
  }

  /** Completed, failed or cancelled. */
  predicate IsOver(events: seq<DeliveryEvent>) {
    events != [] && events[|events| - 1] in {Complete, Fail, Cancel}
  }

  /** The assignment has deliveries, and all are over. */
  ghost predicate Finished(cs: seq<Command>, assignmentId: Id) {
    && (exists id :: LinkOf(About(cs, id)) == Some(assignmentId))
    && (forall id :: LinkOf(About(cs, id)) == Some(assignmentId) ==> IsOver(Events(About(cs, id))))
  }

  lemma OverIff(events: seq<DeliveryEvent>)
    ensures IsTerminal(StatusOf(events)) <==> IsOver(events)
  {
  }

  lemma LinkedIff(f: Fleet, id: Id, log: seq<Command>, assignmentId: Id)
    requires if id in f.deliveries then Matches(f.deliveries[id], id, log) else log == []
    ensures id in LinkedTo(f.deliveries, assignmentId) <==> LinkOf(log) == Some(assignmentId)
    ensures id in f.deliveries ==> (IsTerminal(f.deliveries[id].status) <==> IsOver(Events(log)))
  {
    OverIff(Events(log));
  }

  lemma ReadyIffFinished(cs: seq<Command>, assignmentId: Id)
    requires FreshRun(cs)
    ensures ReadyToComplete(Run(cs), assignmentId) <==> Finished(cs, assignmentId)
  {
    var deliveries := Run(cs).deliveries;
    var linked := LinkedTo(deliveries, assignmentId);
    forall id
      ensures id in linked <==> LinkOf(About(cs, id)) == Some(assignmentId)
      ensures id in linked ==> (IsTerminal(deliveries[id].status) <==> IsOver(Events(About(cs, id))))
    {
      DeliveryIsHistory(cs, id);
      LinkedIff(Run(cs), id, About(cs, id), assignmentId);
    }
    assert linked != {} <==> exists id :: id in linked;
  }

  /** Who an assignment was created for. */
  ghost function DriverOf(cs: seq<Command>, assignmentId: Id): Option<Id> {
    if cs == [] then None
    else
      var before, c := cs[..|cs| - 1], cs[|cs| - 1];
      if c.CreateAssignment? && c.newId == assignmentId && Taken(Run(before), c) then Some(c.driverId)
      else DriverOf(before, assignmentId)
  }

  /** The vehicle of its driver when an assignment was created. */
  ghost function VehicleFor(cs: seq<Command>, assignmentId: Id): Option<Id> {
    if cs == [] then None
    else
      var before, c := cs[..|cs| - 1], cs[|cs| - 1];
      if c.CreateAssignment? && c.newId == assignmentId && Taken(Run(before), c) then
        if c.driverId in Vehicles(before) then Some(Vehicles(before)[c.driverId]) else None
      else VehicleFor(before, assignmentId)
  }

  /** A driver's status: as entered by the administration or switched by the driver, OnDelivery from an
    * assignment until one of the driver's assignments completes, and then Available. */
  ghost function Duty(cs: seq<Command>, driver: Id): Option<DriverStatus> {
    if cs == [] then None
    else
      var before, c := cs[..|cs| - 1], cs[|cs| - 1];
      match c
      case Administer(drivers, _) => if driver in drivers then Some(drivers[driver].status) else None
      case SetAvailability(id, to) => if id == driver && Taken(Run(before), c) then Some(to) else Duty(before, driver)
      case CreateAssignment(_, id, _, _) =>
        if id == driver && Taken(Run(before), c) then Some(OnDelivery) else Duty(before, driver)
      case CompleteIfTerminal(a) =>
        if DriverOf(before, a) == Some(driver) && Finished(before, a) && Duty(before, driver) == Some(OnDelivery)
        then Some(Available) else Duty(before, driver)
      case _ => Duty(before, driver)
  }

  // ---------- Assignments ----------

  /** The commands taken about an assignment; a completion counts once its deliveries are over. */
  ghost function Steps(cs: seq<Command>, id: Id): seq<Command> {
    if cs == [] then []
    else
      var before, c := cs[..|cs| - 1], cs[|cs| - 1];
      if Taken(Run(before), c) && Advances(before, c, id) then Steps(before, id) + [c] else Steps(before, id)
  }

  ghost predicate Advances(before: seq<Command>, c: Command, id: Id) {
    match c
    case CreateAssignment(newId, _, _, _) => newId == id
    case Accept(assignmentId, _) => assignmentId == id
    case CompleteIfTerminal(assignmentId) => assignmentId == id && Finished(before, id)
    case _ => false
  }

  function FirstAccept(steps: seq<Command>): Option<int> {
    if steps == [] then None
    else
      var earlier, c := FirstAccept(steps[..|steps| - 1]), steps[|steps| - 1];
      if earlier.Some? then earlier else if c.Accept? then Some(c.now) else None
  }

  /** The record is what its log says. */
  ghost predicate MatchesSteps(a: Assignment, id: Id, steps: seq<Command>) {
    && a.id == id && steps != []
    && a.status == (match steps[|steps| - 1]
      case Accept(_, _) => Accepted
      case CompleteIfTerminal(_) => Done
      case _ => Pending)
    && a.acceptedAt == FirstAccept(steps)
  }

  lemma {:induction false} VehiclesAreHistory(cs: seq<Command>)
    ensures Run(cs).vehicleOf == Vehicles(cs)
  {
    if cs != [] {
      VehiclesAreHistory(cs[..|cs| - 1]);
    }
  }

  /** The assignment's log with c, if it advances it. */
  ghost function Stepped(cs: seq<Command>, c: Command, id: Id): seq<Command> {
    if Taken(Run(cs), c) && Advances(cs, c, id) then Steps(cs, id) + [c] else Steps(cs, id)
  }

  /** The record after a step that the command takes or not. */
  lemma RecordAdvances(f: Fleet, c: Command, id: Id, steps: seq<Command>, advances: bool)
    requires Fresh(f, c) && id in f.assignments && MatchesSteps(f.assignments[id], id, steps)
    requires advances == (Taken(f, c) && (c.Accept? || c.CompleteIfTerminal?) && c.assignmentId == id &&
      (c.CompleteIfTerminal? ==> ReadyToComplete(f, id)))
    ensures id in Apply(f, c).assignments
    ensures MatchesSteps(Apply(f, c).assignments[id], id, if advances then steps + [c] else steps)
    ensures Apply(f, c).assignments[id].driverId == f.assignments[id].driverId
    ensures Apply(f, c).assignments[id].vehicleId == f.assignments[id].vehicleId
  {
    OneMore(steps, c);
    if !advances {
      assert Apply(f, c).assignments[id] == f.assignments[id];
    }
  }

  lemma StepMatchesSteps(cs: seq<Command>, c: Command, id: Id)
    requires FreshRun(cs) && Fresh(Run(cs), c)
    requires id in Run(cs).assignments && MatchesSteps(Run(cs).assignments[id], id, Steps(cs, id))
    ensures id in Apply(Run(cs), c).assignments
    ensures MatchesSteps(Apply(Run(cs), c).assignments[id], id, Stepped(cs, c, id))
    ensures Apply(Run(cs), c).assignments[id].driverId == Run(cs).assignments[id].driverId
    ensures Apply(Run(cs), c).assignments[id].vehicleId == Run(cs).assignments[id].vehicleId
  {
    ReadyIffFinished(cs, id);
    RecordAdvances(Run(cs), c, id, Steps(cs, id), Taken(Run(cs), c) && Advances(cs, c, id));
  }

  lemma FirstStep(cs: seq<Command>, c: Command, id: Id)
    requires FreshRun(cs) && id !in Run(cs).assignments && Steps(cs, id) == []
    ensures id in Apply(Run(cs), c).assignments <==> Stepped(cs, c, id) != []
    ensures id in Apply(Run(cs), c).assignments <==> c.CreateAssignment? && c.newId == id && Taken(Run(cs), c)
    ensures id in Apply(Run(cs), c).assignments ==> var a := Apply(Run(cs), c).assignments[id];
      && MatchesSteps(a, id, Stepped(cs, c, id)) && a.driverId == c.driverId
      && c.driverId in Vehicles(cs) && a.vehicleId == Vehicles(cs)[c.driverId]
  {
    VehiclesAreHistory(cs);
  }

  /** After any run every field of an assignment is what its log says: the last step decides the status, the
    * first acceptance the time; driver and vehicle are those of its creation. */
  lemma {:induction false} AssignmentIsHistory(cs: seq<Command>, id: Id)
    requires FreshRun(cs)
    ensures id in Run(cs).assignments <==> Steps(cs, id) != []
    ensures id in Run(cs).assignments <==> DriverOf(cs, id).Some?
    ensures id in Run(cs).assignments ==> var a := Run(cs).assignments[id];
      && MatchesSteps(a, id, Steps(cs, id))
      && DriverOf(cs, id) == Some(a.driverId) && VehicleFor(cs, id) == Some(a.vehicleId)
  {
    if cs != [] {
      var before, c := cs[..|cs| - 1], cs[|cs| - 1];
      AssignmentIsHistory(before, id);
      assert Steps(cs, id) == Stepped(before, c, id);
      if id in Run(before).assignments {
        StepMatchesSteps(before, c, id);
      } else {
        FirstStep(before, c, id);
      }
    }
  }

  lemma CompletionOnDuty(cs: seq<Command>, a: Id, driver: Id)
    requires FreshRun(cs) && driver in Run(cs).drivers
    ensures var f, g := Run(cs), Apply(Run(cs), CompleteIfTerminal(a));
      && driver in g.drivers && g.drivers.Keys == f.drivers.Keys
      && g.drivers[driver] ==
        if DriverOf(cs, a) == Some(driver) && Finished(cs, a) && f.drivers[driver].status == OnDelivery
        then f.drivers[driver].(status := Available) else f.drivers[driver]
  {
    AssignmentIsHistory(cs, a);
    ReadyIffFinished(cs, a);
  }

  /** After any run a driver is on the roster as last entered, with the status of their duty. */
  lemma {:induction false} DriverIsHistory(cs: seq<Command>, driver: Id)
    requires FreshRun(cs)
    ensures driver in Run(cs).drivers <==> driver in Roster(cs)
    ensures driver in Run(cs).drivers ==> var d := Run(cs).drivers[driver];
      d.id == Roster(cs)[driver].id && d.active == Roster(cs)[driver].active && Duty(cs, driver) == Some(d.status)
  {
    if cs != [] {
      var before, c := cs[..|cs| - 1], cs[|cs| - 1];
      DriverIsHistory(before, driver);
      if c.CompleteIfTerminal? && driver in Run(before).drivers {
        CompletionOnDuty(before, c.assignmentId, driver);
      }
    }
  }

  // ---------- Which assignments are made ----------

  /** Why a delivery cannot be put in an assignment: unknown, or it has had an event. */
  ghost function Obstacle(cs: seq<Command>, id: Id): Option<Error> {
    if About(cs, id) == [] then Some(NotFound("deliveryId"))
    else if Events(About(cs, id)) != [] then Some(AlreadyAssigned)
    else None
  }

  lemma ObstacleIsLinkError(cs: seq<Command>, id: Id)
    requires FreshRun(cs)
    ensures LinkError(Run(cs).deliveries, id) == Obstacle(cs, id)
  {
    DeliveryIsHistory(cs, id);
    RunIsSound(cs);
    if id in Run(cs).deliveries {
      assert SoundDelivery(Run(cs), Run(cs).deliveries[id]);
      DueIff(Events(About(cs, id)), Assign);
    }
  }

  /** The first obstacle decides. */
  ghost predicate FirstObstacle(cs: seq<Command>, ids: seq<Id>, k: nat) {
    k < |ids| && Obstacle(cs, ids[k]).Some? && forall j :: 0 <= j < k ==> Obstacle(cs, ids[j]).None?
  }

  lemma {:induction false} ObstaclesAreLinkErrors(cs: seq<Command>, ids: seq<Id>, k: nat)
    requires FreshRun(cs)
    ensures (forall j :: 0 <= j < |ids| ==> Obstacle(cs, ids[j]).None?) ==> LinkErrors(Run(cs).deliveries, ids).None?
    ensures FirstObstacle(cs, ids, k) ==> LinkErrors(Run(cs).deliveries, ids) == Obstacle(cs, ids[k])
  {
    if ids != [] {
      var n := |ids| - 1;
      ObstaclesAreLinkErrors(cs, ids[..n], k);
      ObstacleIsLinkError(cs, ids[n]);
    }
  }

  /** An assignment is made iff deliveries are named, the driver is on the roster, active and Available and has
    * a vehicle, and no delivery has an obstacle; otherwise the first of these decides the error. */
  lemma AssignmentTakenIff(cs: seq<Command>, newId: Id, driver: Id, ids: seq<Id>, now: int, k: nat)
    requires FreshRun(cs)
    ensures var error := Refused(Run(cs), Command.CreateAssignment(newId, driver, ids, now));
      if ids == [] then error == Some(ValidationError)
      else if driver !in Roster(cs) then error == Some(NotFound("driverId"))
      else if !Roster(cs)[driver].active || Duty(cs, driver) != Some(Available) then error == Some(UnavailableDriver)
      else if driver !in Vehicles(cs) then error == Some(Conflict("vehicleId"))
      else
        && (error.None? <==> forall j :: 0 <= j < |ids| ==> Obstacle(cs, ids[j]).None?)
        && (FirstObstacle(cs, ids, k) ==> error == Obstacle(cs, ids[k]))
  {
    DriverIsHistory(cs, driver);
    VehiclesAreHistory(cs);
    ObstaclesAreLinkErrors(cs, ids, k);
    if LinkErrors(Run(cs).deliveries, ids).None? {
      forall j | 0 <= j < |ids| ensures Obstacle(cs, ids[j]).None? {
        NoLinkErrors(Run(cs).deliveries, ids, ids[j]);
        ObstacleIsLinkError(cs, ids[j]);
      }
    }
  }

  /** A reassignment is taken iff the delivery has an assignment and the target exists and is not completed,
    * or is the one it has. */
  lemma ReassignTakenIff(cs: seq<Command>, id: Id, target: Id, now: int)
    requires FreshRun(cs)
    ensures var log, steps := About(cs, id), Steps(cs, target);
      Refused(Run(cs), Command.Reassign(id, target, now)) ==
        if log == [] then Some(NotFound("deliveryId"))
        else if LinkOf(log) == None then Some(InvalidTransition)
        else if LinkOf(log) == Some(target) then None
        else if steps == [] then Some(NotFound("assignmentId"))
        else if steps[|steps| - 1].CompleteIfTerminal? then Some(Conflict("assignmentId"))
        else None
  {
    DeliveryIsHistory(cs, id);
    AssignmentIsHistory(cs, target);
  }

  /** A driver switches between other statuses only, and goes on break only from Available. */
  lemma SwitchTakenIff(cs: seq<Command>, driver: Id, to: DriverStatus)
    requires FreshRun(cs)
    ensures Refused(Run(cs), Command.SetAvailability(driver, to)) ==
      if driver !in Roster(cs) then Some(NotFound("id"))
      else
        var from := Duty(cs, driver);
        if from != Some(OnDelivery) && to != OnDelivery && from != Some(to)
          && (to == OnBreak ==> from == Some(Available)) then None
        else Some(InvalidTransition)
  {
    DriverIsHistory(cs, driver);
  }
}
