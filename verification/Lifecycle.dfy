/** Deliveries, assignments and drivers as one machine.
  *
  * The delivery, assignment and route services write the same records. Each service call is a
  * command on the fleet's records; the invariants cross all three services and hold over every
  * run of commands.
  */
module Lifecycle {
  import opened Sequences

  type Id = string

  datatype DeliveryStatus = Created | Assigned | InTransit | Arrived | Completed | Failed | Cancelled

  datatype DeliveryEvent = Assign | StartTransit | Arrive | Complete | Fail | Cancel

  datatype AssignmentStatus = Pending | Accepted | Done

  datatype DriverStatus = Offline | Available | OnDelivery | OnBreak

  datatype Delivery = Delivery(
    id: Id, status: DeliveryStatus, assignmentId: Option<Id>,
    failureReason: Option<string>, completedAt: Option<int>, updatedAt: int)

  datatype Assignment = Assignment(id: Id, driverId: Id, vehicleId: Id, status: AssignmentStatus,
      acceptedAt: Option<int>)

  datatype Driver = Driver(id: Id, status: DriverStatus, active: bool)

  /** The repositories; vehicleOf answers which vehicle a driver is associated with. */
  datatype Fleet = Fleet(
    deliveries: map<Id, Delivery>, assignments: map<Id, Assignment>,
    drivers: map<Id, Driver>, vehicleOf: map<Id, Id>)

  datatype Error =
    | ValidationError | GeocodingFailure | NotFound(field: string) | InvalidTransition
    | Conflict(field: string) | AlreadyAssigned | UnavailableDriver

  const FAILURE_REASON_MIN := 1
  const FAILURE_REASON_MAX := 500

  // ---------- The lifecycle table ----------

  function NextStatus(from: DeliveryStatus, event: DeliveryEvent): Option<DeliveryStatus> {
    match (from, event)
    case (Created, Assign) => Some(Assigned)
    case (Created, Cancel) => Some(Cancelled)
    case (Assigned, StartTransit) => Some(InTransit)
    case (Assigned, Cancel) => Some(Cancelled)
    case (InTransit, Arrive) => Some(Arrived)
    case (InTransit, Fail) => Some(Failed)
    case (InTransit, Cancel) => Some(Cancelled)
    case (Arrived, Complete) => Some(Completed)
    case (Arrived, Fail) => Some(Failed)
    case (Arrived, Cancel) => Some(Cancelled)
    case _ => None
  }

  predicate IsTerminal(s: DeliveryStatus) { s.Completed? || s.Failed? || s.Cancelled? }

  predicate IsActive(a: Assignment) { !a.status.Done? }

  predicate IsValidFailureReason(reason: Option<string>) {
    reason.Some? && FAILURE_REASON_MIN <= |reason.value| <= FAILURE_REASON_MAX
  }

  /** Target statuses a driver may set directly; none leaves or enters OnDelivery. */
  predicate IsSettable(from: DriverStatus, to: DriverStatus) {
    match from
    case Offline => to == Available
    case Available => to == OnBreak || to == Offline
    case OnBreak => to == Available || to == Offline
    case OnDelivery => false
  }

  // ---------- Commands ----------

  datatype Command =
    | CreateDelivery(id: Id, valid: bool, geocoded: bool, now: int)
    | Transition(id: Id, event: DeliveryEvent, reason: Option<string>, now: int)
    | CreateAssignment(newId: Id, driverId: Id, deliveryIds: seq<Id>, now: int)
    | Accept(assignmentId: Id, now: int)
    | Reassign(deliveryId: Id, targetId: Id, now: int)
    | CompleteIfTerminal(assignmentId: Id)
    | SetAvailability(driverId: Id, to: DriverStatus)
    | Administer(drivers: map<Id, Driver>, vehicleOf: map<Id, Id>)

  function NewDelivery(id: Id, now: int): Delivery {
    Delivery(id, Created, None, None, None, now)
  }

  /** The record written by a permitted transition. */
  function Moved(d: Delivery, target: DeliveryStatus, reason: Option<string>, now: int): Delivery {
    var next := d.(status := target, updatedAt := now);
    var stamped := if target == Completed then next.(completedAt := Some(now)) else next;
    if target == Failed then stamped.(failureReason := reason) else stamped
  }

  function TransitionError(f: Fleet, id: Id, event: DeliveryEvent, reason: Option<string>): Option<Error> {
    if id !in f.deliveries then Some(NotFound("id"))
    else if NextStatus(f.deliveries[id].status, event).None? then Some(InvalidTransition)
    else if event == Fail && !IsValidFailureReason(reason) then Some(ValidationError)
    else None
  }

  /** Why one delivery cannot be assigned, if it cannot. */
  function LinkError(deliveries: map<Id, Delivery>, id: Id): Option<Error> {
    if id !in deliveries then Some(NotFound("deliveryId"))
    else if deliveries[id].assignmentId.Some? then Some(AlreadyAssigned)
    else if NextStatus(deliveries[id].status, Assign).None? then Some(AlreadyAssigned)
    else None
  }

  /** The first delivery that cannot be assigned decides the error. */
  function LinkErrors(deliveries: map<Id, Delivery>, ids: seq<Id>): Option<Error> {
    if ids == [] then None
    else
      var before := LinkErrors(deliveries, ids[..|ids| - 1]);
      if before.Some? then before else LinkError(deliveries, ids[|ids| - 1])
  }

  function CreateError(f: Fleet, driverId: Id, deliveryIds: seq<Id>): Option<Error> {
    if deliveryIds == [] then Some(ValidationError)
    else if driverId !in f.drivers then Some(NotFound("driverId"))
    else if !f.drivers[driverId].active || f.drivers[driverId].status != Available then Some(UnavailableDriver)
    else if driverId !in f.vehicleOf then Some(Conflict("vehicleId"))
    else LinkErrors(f.deliveries, deliveryIds)
  }

  function Linked(d: Delivery, assignmentId: Id, now: int): Delivery {
    var target := NextStatus(d.status, Assign);
    d.(assignmentId := Some(assignmentId), status := if target.Some? then target.value else d.status, updatedAt := now)
  }

  function LinkAll(deliveries: map<Id, Delivery>, ids: seq<Id>, assignmentId: Id, now: int): map<Id, Delivery> {
    map id | id in deliveries :: if id in ids then Linked(deliveries[id], assignmentId, now) else deliveries[id]
  }

  function ReassignError(f: Fleet, deliveryId: Id, targetId: Id): Option<Error> {
    if deliveryId !in f.deliveries then Some(NotFound("deliveryId"))
    else
      var d := f.deliveries[deliveryId];
      if d.assignmentId.None? then Some(InvalidTransition)
      else if d.assignmentId.value == targetId then None
      else if targetId !in f.assignments then Some(NotFound("assignmentId"))
      else if !IsActive(f.assignments[targetId]) then Some(Conflict("assignmentId"))
      else None
  }

  /** Ids of the deliveries linked to an assignment. */
  function LinkedTo(deliveries: map<Id, Delivery>, assignmentId: Id): set<Id> {
    set id | id in deliveries && deliveries[id].assignmentId == Some(assignmentId)
  }

  /** The assignment has deliveries and all of them are terminal. */
  predicate ReadyToComplete(f: Fleet, assignmentId: Id) {
    var linked := LinkedTo(f.deliveries, assignmentId);
    linked != {} && forall id :: id in linked ==> IsTerminal(f.deliveries[id].status)
  }

  function Refused(f: Fleet, c: Command): Option<Error> {
    match c
    case CreateDelivery(_, valid, geocoded, _) =>
      if !valid then Some(ValidationError) else if !geocoded then Some(GeocodingFailure) else None
    case Transition(id, event, reason, _) => TransitionError(f, id, event, reason)
    case CreateAssignment(_, driverId, deliveryIds, _) => CreateError(f, driverId, deliveryIds)
    case Accept(id, _) => if id in f.assignments then None else Some(NotFound("assignmentId"))
    case Reassign(deliveryId, targetId, _) => ReassignError(f, deliveryId, targetId)
    case CompleteIfTerminal(id) => if id in f.assignments then None else Some(NotFound("assignmentId"))
    case SetAvailability(id, to) =>
      if id !in f.drivers then Some(NotFound("id"))
      else if !IsSettable(f.drivers[id].status, to) then Some(InvalidTransition)
      else None
    case Administer(_, _) => None
  }

  function Performed(f: Fleet, c: Command): Fleet
    requires Refused(f, c).None?
  {
    match c
    case CreateDelivery(id, _, _, now) => f.(deliveries := f.deliveries[id := NewDelivery(id, now)])
    case Transition(id, event, reason, now) =>
      var d := f.deliveries[id];
      f.(deliveries := f.deliveries[id := Moved(d, NextStatus(d.status, event).value, reason, now)])
    case CreateAssignment(newId, driverId, deliveryIds, now) =>
      f.(assignments := f.assignments[newId := Assignment(newId, driverId, f.vehicleOf[driverId], Pending, None)],
         deliveries := LinkAll(f.deliveries, deliveryIds, newId, now),
         drivers := f.drivers[driverId := f.drivers[driverId].(status := OnDelivery)])
    case Accept(id, now) =>
      var a := f.assignments[id];
      var acceptedAt := if a.acceptedAt.Some? then a.acceptedAt else Some(now);
      f.(assignments := f.assignments[id := a.(status := Accepted, acceptedAt := acceptedAt)])
    case Reassign(deliveryId, targetId, now) =>
      var d := f.deliveries[deliveryId];
      if d.assignmentId == Some(targetId) then f
      else f.(deliveries := f.deliveries[deliveryId := d.(assignmentId := Some(targetId), updatedAt := now)])
    case CompleteIfTerminal(id) =>
      if !ReadyToComplete(f, id) then f
      else
        var a := f.assignments[id];
        f.(assignments := f.assignments[id := a.(status := Done)],
           drivers := if a.driverId in f.drivers && f.drivers[a.driverId].status == OnDelivery
             then f.drivers[a.driverId := f.drivers[a.driverId].(status := Available)] else f.drivers)
    case SetAvailability(id, to) => f.(drivers := f.drivers[id := f.drivers[id].(status := to)])
    case Administer(drivers, vehicleOf) => f.(drivers := drivers, vehicleOf := vehicleOf)
  }

  /** A refused command changes nothing. */
  function Apply(f: Fleet, c: Command): Fleet {
    if Refused(f, c).Some? then f else Performed(f, c)
  }

  const EMPTY := Fleet(map[], map[], map[], map[])

  function Run(cs: seq<Command>): Fleet {
    if cs == [] then EMPTY else Apply(Run(cs[..|cs| - 1]), cs[|cs| - 1])
  }

  /** Ids generated for new records are unused. */
  predicate Fresh(f: Fleet, c: Command) {
    && (c.CreateDelivery? ==> c.id !in f.deliveries)
    && (c.CreateAssignment? ==> c.newId !in f.assignments)
  }

  ghost predicate FreshRun(cs: seq<Command>) {
    cs == [] || (FreshRun(cs[..|cs| - 1]) && Fresh(Run(cs[..|cs| - 1]), cs[|cs| - 1]))
  }

  /** Delivery records are stored under their own id. */
  ghost predicate Keyed(f: Fleet) {
    forall id :: id in f.deliveries ==> f.deliveries[id].id == id
  }

  lemma {:induction false} RunIsKeyed(cs: seq<Command>)
    ensures Keyed(Run(cs))
  {
    if cs != [] {
      RunIsKeyed(cs[..|cs| - 1]);
    }
  }

  // ---------- Delivery invariants ----------

  predicate IsDone(f: Fleet, id: Id) {
    id in f.assignments && f.assignments[id].status.Done?
  }

  ghost predicate SoundDelivery(f: Fleet, d: Delivery) {
    && (d.assignmentId.Some? ==> d.assignmentId.value in f.assignments && d.status != Created)
    && (d.assignmentId.Some? && IsDone(f, d.assignmentId.value) ==> IsTerminal(d.status))
    && (d.completedAt.Some? <==> d.status == Completed)
    && (d.failureReason.Some? <==> d.status == Failed)
    && (d.failureReason.Some? ==> IsValidFailureReason(d.failureReason))
  }

  /** Links name existing assignments and are never on Created deliveries; deliveries of a Done
    * assignment are terminal; completion time and failure reason fit the status. */
  ghost predicate Sound(f: Fleet) {
    forall id :: id in f.deliveries ==> SoundDelivery(f, f.deliveries[id])
  }

  lemma {:induction false} NoLinkErrors(deliveries: map<Id, Delivery>, ids: seq<Id>, id: Id)
    requires LinkErrors(deliveries, ids).None? && id in ids
    ensures LinkError(deliveries, id).None?
  {
    var init := ids[..|ids| - 1];
    if id in init {
      NoLinkErrors(deliveries, init, id);
    }
  }

  lemma CreateAssignmentKeepsSound(f: Fleet, c: Command)
    requires Sound(f) && c.CreateAssignment? && Fresh(f, c) && Refused(f, c).None?
    ensures Sound(Performed(f, c))
  {
    var g := Performed(f, c);
    forall id | id in g.deliveries ensures SoundDelivery(g, g.deliveries[id]) {
      assert SoundDelivery(f, f.deliveries[id]);
      if id in c.deliveryIds {
        NoLinkErrors(f.deliveries, c.deliveryIds, id);
      }
    }
  }

  lemma CompleteKeepsSound(f: Fleet, id: Id)
    requires Sound(f) && id in f.assignments && ReadyToComplete(f, id)
    ensures Sound(Performed(f, CompleteIfTerminal(id)))
  {
    var g := Performed(f, CompleteIfTerminal(id));
    forall d | d in g.deliveries ensures SoundDelivery(g, g.deliveries[d]) {
      assert SoundDelivery(f, f.deliveries[d]);
      if g.deliveries[d].assignmentId == Some(id) {
        assert d in LinkedTo(f.deliveries, id);
      }
    }
  }

  lemma DeliveryCommandKeepsSound(f: Fleet, c: Command)
    requires Sound(f) && Fresh(f, c) && Refused(f, c).None? && (c.CreateDelivery? || c.Transition? || c.Reassign?)
    ensures Sound(Performed(f, c))
  {
    var g := Performed(f, c);
    assert g.assignments == f.assignments;
    forall d | d in g.deliveries ensures SoundDelivery(g, g.deliveries[d]) {
      if d in f.deliveries {
        assert SoundDelivery(f, f.deliveries[d]);
      }
    }
  }

  lemma OtherCommandKeepsSound(f: Fleet, c: Command)
    requires Sound(f) && Refused(f, c).None? && (c.Accept? || c.SetAvailability? || c.Administer?)
    ensures Sound(Performed(f, c))
  {
    var g := Performed(f, c);
    forall d | d in g.deliveries ensures SoundDelivery(g, g.deliveries[d]) {
      assert SoundDelivery(f, f.deliveries[d]);
    }
  }

  lemma StepKeepsSound(f: Fleet, c: Command)
    requires Sound(f) && Fresh(f, c)
    ensures Sound(Apply(f, c))
  {
    if Refused(f, c).None? {
      match c {
        case CreateAssignment(_, _, _, _) => CreateAssignmentKeepsSound(f, c);
        case CompleteIfTerminal(id) =>
          if ReadyToComplete(f, id) {
            CompleteKeepsSound(f, id);
          }
        case CreateDelivery(_, _, _, _) => DeliveryCommandKeepsSound(f, c);
        case Transition(_, _, _, _) => DeliveryCommandKeepsSound(f, c);
        case Reassign(_, _, _) => DeliveryCommandKeepsSound(f, c);
        case _ => OtherCommandKeepsSound(f, c);
      }
    }
  }

  /** The cross-service invariant holds after every run. */
  lemma {:induction false} RunIsSound(cs: seq<Command>)
    requires FreshRun(cs)
    ensures Sound(Run(cs))
  {
    if cs != [] {
      RunIsSound(cs[..|cs| - 1]);
      StepKeepsSound(Run(cs[..|cs| - 1]), cs[|cs| - 1]);
    }
  }

  /** A terminal delivery keeps status, completion time and reason; a link is never dropped. */
  ghost predicate KeepsFate(d: Delivery, e: Delivery) {
    && (IsTerminal(d.status) ==>
      e.status == d.status && e.completedAt == d.completedAt && e.failureReason == d.failureReason)
    && (d.assignmentId.Some? ==> e.assignmentId.Some?)
  }

  lemma StepKeepsFate(f: Fleet, c: Command, id: Id)
    requires Fresh(f, c) && id in f.deliveries
    ensures id in Apply(f, c).deliveries && KeepsFate(f.deliveries[id], Apply(f, c).deliveries[id])
  {
    if Refused(f, c).None? && c.CreateAssignment? && id in c.deliveryIds {
      NoLinkErrors(f.deliveries, c.deliveryIds, id);
    }
  }

  /** Over any run: terminal statuses are absorbing and linked deliveries stay linked. */
  lemma {:induction false} FateIsKept(cs: seq<Command>, k: nat, id: Id)
    requires FreshRun(cs) && k <= |cs| && id in Run(cs[..k]).deliveries
    ensures id in Run(cs).deliveries && KeepsFate(Run(cs[..k]).deliveries[id], Run(cs).deliveries[id])
  {
    var n := |cs| - 1;
    if k == |cs| {
      assert cs[..k] == cs;
    } else {
      assert cs[..n][..k] == cs[..k];
      FateIsKept(cs[..n], k, id);
      StepKeepsFate(Run(cs[..n]), cs[n], id);
    }
  }

  // ---------- Is Done final? ----------

  /** One of the commands from number k on accepts the assignment. */
  ghost predicate AcceptedSince(cs: seq<Command>, k: nat, id: Id) {
    |cs| > k && (AcceptedSince(cs[..|cs| - 1], k, id) || Accepts(cs[|cs| - 1], id))
  }

  predicate Accepts(c: Command, id: Id) { c.Accept? && c.assignmentId == id }

  /** A Done assignment stays Done through a command iff the command does not accept it. */
  lemma DoneStaysIff(f: Fleet, c: Command, id: Id)
    requires IsDone(f, id) && Fresh(f, c)
    ensures IsDone(Apply(f, c), id) <==> !Accepts(c, id)
  {
  }

  ghost predicate DoneSince(cs: seq<Command>, k: nat, id: Id) {
    IsDone(Run(cs), id) && (|cs| > k ==> DoneSince(cs[..|cs| - 1], k, id))
  }

  /** Over any run: an assignment once Done is Done ever after exactly when it is not accepted since. */
  lemma {:induction false} DoneUntilAccepted(cs: seq<Command>, k: nat, id: Id)
    requires FreshRun(cs) && k <= |cs| && IsDone(Run(cs[..k]), id)
    ensures DoneSince(cs, k, id) <==> !AcceptedSince(cs, k, id)
  {
    if k == |cs| {
      assert cs[..k] == cs;
    } else {
      var before := cs[..|cs| - 1];
      assert before[..k] == cs[..k];
      DoneUntilAccepted(before, k, id);
      if DoneSince(before, k, id) {
        assert IsDone(Run(before), id);
        DoneStaysIff(Run(before), cs[|cs| - 1], id);
      }
    }
  }

  // ---------- Drivers and their assignments ----------

  ghost predicate Works(f: Fleet, a: Id, driver: Id) {
    a in f.assignments && IsActive(f.assignments[a]) && f.assignments[a].driverId == driver
  }

  /** A driver is OnDelivery iff they have an active assignment, and has at most one. */
  ghost predicate DriversSound(f: Fleet) {
    && (forall a :: a in f.assignments ==> f.assignments[a].driverId in f.drivers)
    && (forall d :: d in f.drivers ==> (f.drivers[d].status == OnDelivery <==> exists a :: Works(f, a, d)))
    && (forall a, b, d :: Works(f, a, d) && Works(f, b, d) ==> a == b)
  }

  /** Acceptance comes before completion; a second completion does not find the driver busy; and
    * records of drivers are edited without dropping one who has had an assignment or changing who is
    * OnDelivery. */
  ghost predicate Disciplined(f: Fleet, c: Command) {
    match c
    case Accept(id, _) => id in f.assignments ==> IsActive(f.assignments[id])
    case CompleteIfTerminal(id) => id in f.assignments && ReadyToComplete(f, id) ==>
      IsActive(f.assignments[id]) || !Busy(f, f.assignments[id].driverId)
    case Administer(drivers, _) =>
      && (forall a :: a in f.assignments ==> f.assignments[a].driverId in drivers)
      && (forall d :: d in drivers ==> (drivers[d].status == OnDelivery <==> Busy(f, d)))
    case _ => true
  }

  predicate Busy(f: Fleet, driver: Id) { driver in f.drivers && f.drivers[driver].status == OnDelivery }

  lemma SameWork(f: Fleet, g: Fleet)
    requires DriversSound(f)
    requires f.assignments.Keys == g.assignments.Keys
    requires forall a :: a in f.assignments ==>
      && g.assignments[a].driverId == f.assignments[a].driverId
      && IsActive(g.assignments[a]) == IsActive(f.assignments[a])
    requires forall d :: d in f.drivers ==>
      d in g.drivers && (g.drivers[d].status == OnDelivery <==> f.drivers[d].status == OnDelivery)
    requires forall d :: d in g.drivers && d !in f.drivers ==> g.drivers[d].status != OnDelivery
    ensures DriversSound(g)
  {
    forall a, d ensures Works(g, a, d) <==> Works(f, a, d) {
    }
    forall d | d in g.drivers ensures g.drivers[d].status == OnDelivery <==> exists a :: Works(g, a, d) {
      if a :| Works(g, a, d) {
        assert Works(f, a, d) && f.assignments[a].driverId == d;
      }
      if g.drivers[d].status == OnDelivery {
        var a :| Works(f, a, d);
        assert Works(g, a, d);
      }
    }
  }

  lemma CreateKeepsDrivers(f: Fleet, c: Command)
    requires DriversSound(f) && c.CreateAssignment? && Fresh(f, c) && Refused(f, c).None?
    ensures DriversSound(Performed(f, c))
  {
    var g := Performed(f, c);
    forall a, d ensures Works(g, a, d) <==> Works(f, a, d) || (a == c.newId && d == c.driverId) {
    }
    forall a | Works(f, a, c.driverId) ensures false {
    }
    assert Works(g, c.newId, c.driverId);
    forall d | d in g.drivers && d != c.driverId
      ensures g.drivers[d].status == OnDelivery <==> exists a :: Works(g, a, d)
    {
      if g.drivers[d].status == OnDelivery {
        var a :| Works(f, a, d);
        assert Works(g, a, d);
      }
    }
  }

  lemma CompleteKeepsDrivers(f: Fleet, id: Id)
    requires DriversSound(f) && id in f.assignments && IsActive(f.assignments[id]) && ReadyToComplete(f, id)
    ensures DriversSound(Performed(f, CompleteIfTerminal(id)))
  {
    var g, driver := Performed(f, CompleteIfTerminal(id)), f.assignments[id].driverId;
    assert Works(f, id, driver);
    forall a, d ensures Works(g, a, d) <==> Works(f, a, d) && a != id {
    }
    forall d | d in g.drivers && d != driver ensures g.drivers[d].status == OnDelivery <==> exists a :: Works(g, a, d) {
      if g.drivers[d].status == OnDelivery {
        var a :| Works(f, a, d);
        assert Works(g, a, d);
      }
    }
  }

  /** Commands on deliveries leave assignments and drivers alone. */
  lemma DeliveryCommandKeepsDrivers(f: Fleet, c: Command)
    requires DriversSound(f) && Refused(f, c).None? && (c.CreateDelivery? || c.Transition? || c.Reassign?)
    ensures DriversSound(Performed(f, c))
  {
    var g := Performed(f, c);
    assert g.assignments == f.assignments && g.drivers == f.drivers;
    SameWork(f, g);
  }

  /** Accepting keeps the driver invariant exactly when the assignment is not Done: nothing in
    * the service stops a Done assignment from becoming active again. */
  lemma AcceptKeepsDriversIff(f: Fleet, id: Id, now: int)
    requires DriversSound(f) && id in f.assignments
    ensures DriversSound(Apply(f, Accept(id, now))) <==> IsActive(f.assignments[id])
  {
    var g, driver := Apply(f, Accept(id, now)), f.assignments[id].driverId;
    if IsActive(f.assignments[id]) {
      SameWork(f, g);
    } else {
      assert Works(g, id, driver);
      if f.drivers[driver].status == OnDelivery {
        var b :| Works(f, b, driver);
        assert Works(g, b, driver) && b != id;
      }
    }
  }

  /** Completing a Done assignment again frees its driver from whatever they do now: the driver
    * invariant survives iff the assignment is active, not ready, or its driver is not busy. */
  lemma CompleteKeepsDriversIff(f: Fleet, id: Id)
    requires DriversSound(f) && id in f.assignments
    ensures DriversSound(Apply(f, CompleteIfTerminal(id))) <==>
      IsActive(f.assignments[id]) || !ReadyToComplete(f, id) || !Busy(f, f.assignments[id].driverId)
  {
    var g, driver := Apply(f, CompleteIfTerminal(id)), f.assignments[id].driverId;
    if ReadyToComplete(f, id) {
      if IsActive(f.assignments[id]) {
        CompleteKeepsDrivers(f, id);
      } else if f.drivers[driver].status == OnDelivery {
        var b :| Works(f, b, driver);
        assert Works(g, b, driver);
      } else {
        SameWork(f, g);
      }
    }
  }

  lemma AvailabilityKeepsDrivers(f: Fleet, c: Command)
    requires DriversSound(f) && c.SetAvailability? && Refused(f, c).None?
    ensures DriversSound(Performed(f, c))
  {
    SameWork(f, Performed(f, c));
  }

  lemma AdministerKeepsDriversIff(f: Fleet, c: Command)
    requires DriversSound(f) && c.Administer?
    ensures DriversSound(Apply(f, c)) <==> Disciplined(f, c)
  {
    var g := Apply(f, c);
    forall a, d ensures Works(g, a, d) <==> Works(f, a, d) {
    }
    forall d ensures Busy(f, d) <==> exists a :: Works(g, a, d) {
      if a :| Works(g, a, d) {
        assert Works(f, a, d) && f.assignments[a].driverId == d;
      }
      if Busy(f, d) {
        var a :| Works(f, a, d);
        assert Works(g, a, d);
      }
    }
  }

  /** A command keeps the driver invariant exactly when it is disciplined. */
  lemma StepKeepsDriversIff(f: Fleet, c: Command)
    requires DriversSound(f) && Fresh(f, c)
    ensures DriversSound(Apply(f, c)) <==> Disciplined(f, c)
  {
    if Refused(f, c).None? {
      match c {
        case CreateAssignment(_, _, _, _) => CreateKeepsDrivers(f, c);
        case CompleteIfTerminal(id) => CompleteKeepsDriversIff(f, id);
        case Accept(id, now) => AcceptKeepsDriversIff(f, id, now);
        case SetAvailability(_, _) => AvailabilityKeepsDrivers(f, c);
        case Administer(_, _) => AdministerKeepsDriversIff(f, c);
        case _ => DeliveryCommandKeepsDrivers(f, c);
      }
    }
  }

  ghost predicate DisciplinedRun(cs: seq<Command>) {
    cs == [] || (DisciplinedRun(cs[..|cs| - 1]) && Disciplined(Run(cs[..|cs| - 1]), cs[|cs| - 1]))
  }

  ghost predicate DriversAlwaysSound(cs: seq<Command>) {
    DriversSound(Run(cs)) && (cs == [] || DriversAlwaysSound(cs[..|cs| - 1]))
  }

  /** Over any run: a driver is OnDelivery exactly while they have an active assignment, and never has
    * two, all along exactly when every command is disciplined. */
  lemma {:induction false} RunKeepsDrivers(cs: seq<Command>)
    requires FreshRun(cs)
    ensures DriversAlwaysSound(cs) <==> DisciplinedRun(cs)
  {
    if cs != [] {
      var before, c := cs[..|cs| - 1], cs[|cs| - 1];
      RunKeepsDrivers(before);
      if DriversAlwaysSound(before) {
        assert DriversSound(Run(before));
        StepKeepsDriversIff(Run(before), c);
      }
    }
  }
}
