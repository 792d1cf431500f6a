/** The delivery, assignment and route services over shared in-memory repositories.
  *
  * Each method is proved to perform one command of `Lifecycle`, refusals included; the records
  * always are what the command history leads to, so the theorems about runs hold for them.
  */
module LifecycleServices {
  import opened Sequences
  import opened Lifecycle

  datatype Reply<+T> = Ok(value: T) | Refusal(error: Error)

  class Services {
    var deliveries: map<Id, Delivery>
    var assignments: map<Id, Assignment>
    var drivers: map<Id, Driver>
    var vehicleOf: map<Id, Id>
    /** Every command so far, refused ones included. */
    ghost var history: seq<Command>

    ghost function View(): Fleet
      reads this
    {
      Fleet(deliveries, assignments, drivers, vehicleOf)
    }

    /** The records are what the commands so far lead to. */
    ghost predicate Valid()
      reads this
    {
      View() == Run(history)
    }

    constructor ()
      ensures Valid() && history == []
    {
      deliveries, assignments, drivers, vehicleOf, history := map[], map[], map[], map[], [];
    }

    ghost method Record(c: Command)
      modifies this`history
      ensures history == old(history) + [c] && Run(history) == Apply(Run(old(history)), c)
    {
      history := history + [c];
      assert history[..|history| - 1] == old(history);
    }

    // ---------- Delivery service ----------

    /** Validation and geocoding results are inputs; a refused delivery is not stored. */
    method CreateDelivery(newId: Id, valid: bool, geocoded: bool, now: int) returns (r: Reply<Delivery>)
      requires Valid()
      modifies this
      ensures Valid() && history == old(history) + [Command.CreateDelivery(newId, valid, geocoded, now)]
      ensures View() == Apply(old(View()), Command.CreateDelivery(newId, valid, geocoded, now))
      ensures r == if !valid then Refusal(ValidationError) else if !geocoded then Refusal(GeocodingFailure)
        else Ok(deliveries[newId])
    {
      Record(Command.CreateDelivery(newId, valid, geocoded, now));
      if !valid {
        return Refusal(ValidationError);
      }
      if !geocoded {
        return Refusal(GeocodingFailure);
      }
      var delivery := Delivery(newId, Created, None, None, None, now);
      deliveries := deliveries[newId := delivery];
      return Ok(delivery);
    }

    method Transition(id: Id, event: DeliveryEvent, reason: Option<string>, now: int) returns (r: Reply<Delivery>)
      requires Valid()
      modifies this
      ensures Valid() && history == old(history) + [Command.Transition(id, event, reason, now)]
      ensures View() == Apply(old(View()), Command.Transition(id, event, reason, now))
      ensures r.Refusal? <==> TransitionError(old(View()), id, event, reason).Some?
      ensures r.Refusal? ==> r.error == TransitionError(old(View()), id, event, reason).value
      ensures r.Ok? ==> id in deliveries && r.value == deliveries[id]
    {
      Record(Command.Transition(id, event, reason, now));
      if id !in deliveries {
        return Refusal(NotFound("id"));
      }
      var current := deliveries[id];
      var target := NextStatus(current.status, event);
      if target.None? {
        return Refusal(InvalidTransition);
      }
      if event == Fail && !IsValidFailureReason(reason) {
        return Refusal(ValidationError);
      }
      var next := current.(status := target.value, updatedAt := now);
      if target.value == Completed {
        next := next.(completedAt := Some(now));
      }
      if target.value == Failed {
        next := next.(failureReason := reason);
      }
      deliveries := deliveries[id := next];
      return Ok(next);
    }

    // ---------- Assignment service ----------

    /** Reads every requested delivery before anything is written. */
    method ResolveAssignable(deliveryIds: seq<Id>) returns (r: Reply<seq<Delivery>>)
      ensures r.Refusal? <==> LinkErrors(deliveries, deliveryIds).Some?
      ensures r.Refusal? ==> r.error == LinkErrors(deliveries, deliveryIds).value
      ensures r.Ok? ==> |r.value| == |deliveryIds| && forall i :: 0 <= i < |deliveryIds| ==>
        deliveryIds[i] in deliveries && r.value[i] == deliveries[deliveryIds[i]]
    {
      var resolved: seq<Delivery> := [];
      for i := 0 to |deliveryIds|
        invariant LinkErrors(deliveries, deliveryIds[..i]).None?
        invariant |resolved| == i
        invariant forall k :: 0 <= k < i ==> deliveryIds[k] in deliveries && resolved[k] == deliveries[deliveryIds[k]]
      {
        var id := deliveryIds[i];
        assert deliveryIds[..i + 1][..i] == deliveryIds[..i];
        if LinkError(deliveries, id).Some? {
          FirstError(deliveries, deliveryIds, i + 1);
        }
        if id !in deliveries {
          return Refusal(NotFound("deliveryId"));
        }
        var delivery := deliveries[id];
        if delivery.assignmentId.Some? {
          return Refusal(AlreadyAssigned);
        }
        if NextStatus(delivery.status, Assign).None? {
          return Refusal(AlreadyAssigned);
        }
        resolved := resolved + [delivery];
      }
      assert deliveryIds[..|deliveryIds|] == deliveryIds;
      return Ok(resolved);
    }

    /** Saves every delivery with its link; the records were read before. */
    method LinkDeliveries(toLink: seq<Delivery>, ghost ids: seq<Id>, assignmentId: Id, now: int)
      requires |toLink| == |ids|
      requires forall i :: 0 <= i < |ids| ==>
        ids[i] in deliveries && toLink[i] == deliveries[ids[i]] && toLink[i].id == ids[i]
      modifies this`deliveries
      ensures deliveries == LinkAll(old(deliveries), ids, assignmentId, now)
    {
      ghost var before := deliveries;
      for i := 0 to |toLink|
        invariant deliveries == LinkAll(before, ids[..i], assignmentId, now)
      {
        var delivery := toLink[i];
        var target := NextStatus(delivery.status, Assign);
        var saved := delivery.(assignmentId := Some(assignmentId),
          status := if target.Some? then target.value else delivery.status, updatedAt := now);
        LinkOneMore(before, ids, i, assignmentId, now);
        deliveries := deliveries[delivery.id := saved];
      }
      assert ids[..|ids|] == ids;
    }

    method CreateAssignment(newId: Id, driverId: Id, deliveryIds: seq<Id>, now: int) returns (r: Reply<Assignment>)
      requires Valid()
      modifies this
      ensures Valid() && history == old(history) + [Command.CreateAssignment(newId, driverId, deliveryIds, now)]
      ensures View() == Apply(old(View()), Command.CreateAssignment(newId, driverId, deliveryIds, now))
      ensures r.Refusal? <==> CreateError(old(View()), driverId, deliveryIds).Some?
      ensures r.Refusal? ==> r.error == CreateError(old(View()), driverId, deliveryIds).value && View() == old(View())
      ensures r.Ok? ==> newId in assignments && r.value == assignments[newId]
    {
      Record(Command.CreateAssignment(newId, driverId, deliveryIds, now));
      RunIsKeyed(old(history));
      if |deliveryIds| == 0 {
        return Refusal(ValidationError);
      }
      if driverId !in drivers {
        return Refusal(NotFound("driverId"));
      }
      var driver := drivers[driverId];
      if !driver.active || driver.status != Available {
        return Refusal(UnavailableDriver);
      }
      if driverId !in vehicleOf {
        return Refusal(Conflict("vehicleId"));
      }
      var toLink := ResolveAssignable(deliveryIds);
      if toLink.Refusal? {
        return Refusal(toLink.error);
      }
      var assignment := Assignment(newId, driverId, vehicleOf[driverId], Pending, None);
      assignments := assignments[newId := assignment];
      LinkDeliveries(toLink.value, deliveryIds, newId, now);
      drivers := drivers[driverId := driver.(status := OnDelivery)];
      return Ok(assignment);
    }

    method Accept(assignmentId: Id, now: int) returns (r: Reply<Assignment>)
      requires Valid()
      modifies this
      ensures Valid() && history == old(history) + [Command.Accept(assignmentId, now)]
      ensures View() == Apply(old(View()), Command.Accept(assignmentId, now))
      ensures r.Ok? <==> assignmentId in old(assignments)
      ensures r.Ok? ==> assignmentId in assignments && r.value == assignments[assignmentId]
    {
      Record(Command.Accept(assignmentId, now));
      if assignmentId !in assignments {
        return Refusal(NotFound("assignmentId"));
      }
      var assignment := assignments[assignmentId];
      var next := assignment.(status := Accepted,
        acceptedAt := if assignment.acceptedAt.Some? then assignment.acceptedAt else Some(now));
      assignments := assignments[assignmentId := next];
      return Ok(next);
    }

    method Reassign(deliveryId: Id, targetAssignmentId: Id, now: int) returns (r: Reply<Delivery>)
      requires Valid()
      modifies this
      ensures Valid() && history == old(history) + [Command.Reassign(deliveryId, targetAssignmentId, now)]
      ensures View() == Apply(old(View()), Command.Reassign(deliveryId, targetAssignmentId, now))
      ensures r.Refusal? <==> ReassignError(old(View()), deliveryId, targetAssignmentId).Some?
      ensures r.Refusal? ==> r.error == ReassignError(old(View()), deliveryId, targetAssignmentId).value
      ensures r.Ok? ==> deliveryId in deliveries && r.value == deliveries[deliveryId]
      ensures r.Ok? ==> r.value.assignmentId == Some(targetAssignmentId)
    {
      Record(Command.Reassign(deliveryId, targetAssignmentId, now));
      if deliveryId !in deliveries {
        return Refusal(NotFound("deliveryId"));
      }
      var delivery := deliveries[deliveryId];
      if delivery.assignmentId.None? {
        return Refusal(InvalidTransition);
      }
      if delivery.assignmentId.value == targetAssignmentId {
        return Ok(delivery);
      }
      if targetAssignmentId !in assignments {
        return Refusal(NotFound("assignmentId"));
      }
      if !IsActive(assignments[targetAssignmentId]) {
        return Refusal(Conflict("assignmentId"));
      }
      var moved := delivery.(assignmentId := Some(targetAssignmentId), updatedAt := now);
      deliveries := deliveries[deliveryId := moved];
      return Ok(moved);
    }

    // ---------- Driver records ----------

    method SetAvailability(driverId: Id, to: DriverStatus) returns (r: Reply<Driver>)
      requires Valid()
      modifies this
      ensures Valid() && history == old(history) + [Command.SetAvailability(driverId, to)]
      ensures View() == Apply(old(View()), Command.SetAvailability(driverId, to))
      ensures r.Ok? ==> driverId in drivers && r.value == drivers[driverId]
      ensures r.Ok? <==> Refused(old(View()), Command.SetAvailability(driverId, to)).None?
      ensures r.Refusal? ==> Refused(old(View()), Command.SetAvailability(driverId, to)) == Some(r.error)
    {
      Record(Command.SetAvailability(driverId, to));
      if driverId !in drivers {
        return Refusal(NotFound("id"));
      }
      if !IsSettable(drivers[driverId].status, to) {
        return Refusal(InvalidTransition);
      }
      drivers := drivers[driverId := drivers[driverId].(status := to)];
      return Ok(drivers[driverId]);
    }

    /** Driver and vehicle administration outside the three services. */
    method Administer(newDrivers: map<Id, Driver>, newVehicleOf: map<Id, Id>)
      requires Valid()
      modifies this
      ensures Valid() && history == old(history) + [Command.Administer(newDrivers, newVehicleOf)]
    {
      Record(Command.Administer(newDrivers, newVehicleOf));
      drivers, vehicleOf := newDrivers, newVehicleOf;
    }

    // ---------- Route service ----------

    /** Completes an assignment whose deliveries are all terminal, and frees its driver. */
    method CompleteIfAllStopsTerminal(assignmentId: Id) returns (r: Reply<bool>)
      requires Valid()
      modifies this
      ensures Valid() && history == old(history) + [Command.CompleteIfTerminal(assignmentId)]
      ensures View() == Apply(old(View()), Command.CompleteIfTerminal(assignmentId))
      ensures r.Refusal? <==> assignmentId !in old(assignments)
      ensures r.Ok? ==> r.value == ReadyToComplete(old(View()), assignmentId)
    {
      Record(Command.CompleteIfTerminal(assignmentId));
      if assignmentId !in assignments {
        return Refusal(NotFound("assignmentId"));
      }
      var assignment := assignments[assignmentId];
      var linked := LinkedTo(deliveries, assignmentId);
      if linked == {} {
        return Ok(false);
      }
      if !(forall id :: id in linked ==> IsTerminal(deliveries[id].status)) {
        return Ok(false);
      }
      assignments := assignments[assignmentId := assignment.(status := Done)];
      if assignment.driverId in drivers && drivers[assignment.driverId].status == OnDelivery {
        drivers := drivers[assignment.driverId := drivers[assignment.driverId].(status := Available)];
      }
      return Ok(true);
    }
  }

  lemma {:induction false} FirstError(deliveries: map<Id, Delivery>, ids: seq<Id>, n: nat)
    requires n <= |ids| && LinkErrors(deliveries, ids[..n]).Some?
    ensures LinkErrors(deliveries, ids) == LinkErrors(deliveries, ids[..n])
  {
    if n == |ids| {
      assert ids[..n] == ids;
    } else {
      assert ids[..|ids| - 1][..n] == ids[..n];
      FirstError(deliveries, ids[..|ids| - 1], n);
    }
  }

  lemma LinkOneMore(deliveries: map<Id, Delivery>, ids: seq<Id>, i: nat, assignmentId: Id, now: int)
    requires i < |ids| && ids[i] in deliveries
    ensures LinkAll(deliveries, ids[..i + 1], assignmentId, now)
      == LinkAll(deliveries, ids[..i], assignmentId, now)[ids[i] := Linked(deliveries[ids[i]], assignmentId, now)]
  {
    assert ids[..i + 1] == ids[..i] + [ids[i]];
  }
}
