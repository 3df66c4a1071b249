/** The controller owning a fixed list of SCAN cars: hall calls go through
    the dispatcher, car calls go straight to the named car. */
module ElevatorV2Controller {
  import opened Wrappers
  import opened ElevatorV2Model
  import opened ElevatorV2Dispatch

  /** A hall call the controller accepts: a floor in range and a real direction. */
  predicate ValidHallCall(floor: int, direction: Direction)
  {
    MinFloor <= floor <= MaxFloor && direction != Idle
  }

  class ElevatorController {
    const elevators: seq<Elevator>

    /** Car i has id i + 1, so the cars are distinct objects. */
    predicate Valid()
    {
      forall i :: 0 <= i < |elevators| ==> elevators[i].id == i + 1
    }

    constructor (numElevators: int)
      ensures Valid()
      ensures |elevators| == if numElevators < 0 then 0 else numElevators
      ensures forall i :: 0 <= i < |elevators| ==> fresh(elevators[i]) && elevators[i].State() == Car(0, Idle, {})
    {
      var cars: seq<Elevator> := [];
      var i := 0;
      while i < numElevators
        invariant 0 <= i && |cars| == i
        invariant numElevators >= 0 ==> i <= numElevators
        invariant numElevators < 0 ==> i == 0
        invariant forall j :: 0 <= j < i ==> cars[j].id == j + 1 && fresh(cars[j]) && cars[j].State() == Car(0, Idle, {})
      {
        var e := new Elevator(i + 1);
        cars := cars + [e];
        i := i + 1;
      }
      elevators := cars;
    }

    /** Hall call: an invalid floor or an IDLE direction touches no car; a valid
        call adds one pickup request to the car the dispatcher selects. */
    method RequestElevator(floor: int, direction: Direction)
      requires Valid()
      requires ValidHallCall(floor, direction) ==> Selectable(elevators, floor, direction)
      modifies elevators
      ensures !ValidHallCall(floor, direction) ==>
        forall i :: 0 <= i < |elevators| ==> elevators[i].State() == old(elevators[i].State())
      ensures ValidHallCall(floor, direction) ==> exists k ::
        && old(IsFirstBest(elevators, k, floor, direction))
        && elevators[k].State() == old(elevators[k].State()).(requests :=
             AfterAdd(old(elevators[k].requests), old(elevators[k].currentFloor), floor, PickupFor(direction)))
        && (forall i :: 0 <= i < |elevators| && i != k ==> elevators[i].State() == old(elevators[i].State()))
    {
      if floor < MinFloor || floor > MaxFloor {
        return;
      }
      if direction == Idle {
        return;
      }
      var selected, k := SelectElevator(elevators, floor, direction);
      var kind := if direction == Up then PickupUp else PickupDown;
      var _ := selected.value.AddRequest(floor, kind);
    }

    /** The first car with the given id, if any. */
    method FindById(elevatorId: int) returns (found: Option<nat>)
      ensures found.None? <==> forall i :: 0 <= i < |elevators| ==> elevators[i].id != elevatorId
      ensures found.Some? ==> found.value < |elevators| && elevators[found.value].id == elevatorId
      ensures found.Some? ==> forall i :: 0 <= i < found.value ==> elevators[i].id != elevatorId
    {
      for i := 0 to |elevators|
        invariant forall j :: 0 <= j < i ==> elevators[j].id != elevatorId
      {
        if elevators[i].id == elevatorId {
          return Some(i);
        }
      }
      return None;
    }

    /** Car call: an unknown id changes nothing; otherwise the named car gets a
        destination request, with no dispatcher involved. */
    method SelectFloor(elevatorId: int, floor: int)
      requires Valid()
      modifies elevators
      ensures !(1 <= elevatorId <= |elevators|) ==>
        forall i :: 0 <= i < |elevators| ==> elevators[i].State() == old(elevators[i].State())
      ensures 1 <= elevatorId <= |elevators| ==>
        var k := elevatorId - 1;
        && elevators[k].State() == old(elevators[k].State()).(requests :=
             AfterAdd(old(elevators[k].requests), old(elevators[k].currentFloor), floor, Destination))
        && (forall i :: 0 <= i < |elevators| && i != k ==> elevators[i].State() == old(elevators[i].State()))
    {
      var found := FindById(elevatorId);
      if found.None? {
        return;
      }
      var _ := elevators[found.value].AddRequest(floor, Destination);
    }

    /** One simulation tick: every car takes exactly one SCAN step. */
    method Step()
      requires Valid()
      requires forall i :: 0 <= i < |elevators| ==> elevators[i].DistancesFit()
      modifies elevators
      ensures forall i :: 0 <= i < |elevators| ==> Stepped(old(elevators[i].State()), elevators[i].State())
    {
      for i := 0 to |elevators|
        invariant forall j :: 0 <= j < i ==> Stepped(old(elevators[j].State()), elevators[j].State())
        invariant forall j :: i <= j < |elevators| ==> elevators[j].State() == old(elevators[j].State())
      {
        elevators[i].Step();
      }
    }
  }
}
