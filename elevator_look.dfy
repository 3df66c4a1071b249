/** The state-pattern elevator car: a list of passenger request objects whose
    picked-up flags the car sets, plus floor, direction and state fields. */
module ElevatorLook {
  import opened LookRules

  class Request {
    const sourceFloor: int
    const destinationFloor: int
    const direction: Direction
    var pickedUp: bool

    function View(): Req
      reads this
    {
      Req(sourceFloor, destinationFloor, direction, pickedUp)
    }

    constructor (sourceFloor: int, destinationFloor: int)
      ensures View() == Req(sourceFloor, destinationFloor, DirectionOf(sourceFloor, destinationFloor), false)
    {
      this.sourceFloor := sourceFloor;
      this.destinationFloor := destinationFloor;
      this.direction := if destinationFloor > sourceFloor then Up else Down;
      this.pickedUp := false;
    }

    /** The only mutator of a request. */
    method SetPickedUp(pickedUp: bool)
      modifies this
      ensures View() == old(View()).(pickedUp := pickedUp)
    {
      this.pickedUp := pickedUp;
    }
  }

  /** The contents of a list of request objects. */
  function ViewsOf(s: seq<Request>): seq<Req>
    reads s
  {
    seq(|s|, i requires 0 <= i < |s| reads s => s[i].View())
  }

  /** List.removeAll: drop every element that is (by identity) in t. */
  function RemoveAll(s: seq<Request>, t: seq<Request>): seq<Request>
  {
    if s == [] then [] else (if s[0] in t then [] else [s[0]]) + RemoveAll(s[1..], t)
  }

  /** Removing exactly the alighting requests is the drop-off pass on their contents. */
  lemma {:induction false} RemoveAllIsDropOff(s: seq<Request>, t: seq<Request>, floor: int)
    requires forall r :: r in s ==> (r in t <==> Alights(r.View(), floor))
    ensures ViewsOf(RemoveAll(s, t)) == DropOff(ViewsOf(s), floor)
  {
    if s != [] {
      RemoveAllIsDropOff(s[1..], t, floor);
      assert ViewsOf(s)[1..] == ViewsOf(s[1..]);
    }
  }

  class Elevator {
    const id: int
    var currentFloor: int
    var currentDirection: Direction
    var state: StateKind
    var pendingRequests: seq<Request>

    function Views(): seq<Req>
      reads this, pendingRequests
    {
      ViewsOf(pendingRequests)
    }

    function Car(): LiftCar
      reads this, pendingRequests
    {
      LiftCar(currentFloor, currentDirection, state, Views())
    }

    constructor (id: int)
      ensures this.id == id
      ensures Car() == LiftCar(0, Idle, IdleState, []) && pendingRequests == []
    {
      this.id := id;
      currentFloor := 0;
      currentDirection := Idle;
      state := IdleState;
      pendingRequests := [];
    }

    /** setCurrentFloor: the requests and everything else stay as they are. */
    method SetCurrentFloor(floor: int)
      modifies this
      ensures currentFloor == floor
      ensures currentDirection == old(currentDirection) && state == old(state)
      ensures pendingRequests == old(pendingRequests) && Views() == old(Views())
    {
      currentFloor := floor;
    }

    /** setCurrentDirection: the requests and everything else stay as they are. */
    method SetCurrentDirection(dir: Direction)
      modifies this
      ensures currentDirection == dir
      ensures currentFloor == old(currentFloor) && state == old(state)
      ensures pendingRequests == old(pendingRequests) && Views() == old(Views())
    {
      currentDirection := dir;
    }

    /** setState: the requests and everything else stay as they are. */
    method SetState(s: StateKind)
      modifies this
      ensures state == s
      ensures currentFloor == old(currentFloor) && currentDirection == old(currentDirection)
      ensures pendingRequests == old(pendingRequests) && Views() == old(Views())
    {
      state := s;
    }

    /** Append the request; duplicates are kept. */
    method AddRequest(request: Request)
      modifies this
      ensures pendingRequests == old(pendingRequests) + [request]
      ensures currentFloor == old(currentFloor) && currentDirection == old(currentDirection) && state == old(state)
    {
      pendingRequests := pendingRequests + [request];
    }

    function HasRequests(): (b: bool)
      reads this
      ensures b <==> |pendingRequests| > 0
    {
      pendingRequests != []
    }

    /** Board the passengers waiting here for this direction (any, when IDLE),
        then let off those on board whose destination is this floor. */
    method OpenDoors()
      modifies this, pendingRequests
      ensures currentFloor == old(currentFloor) && currentDirection == old(currentDirection) && state == old(state)
      ensures Views() == LookRules.OpenDoors(old(Views()), currentFloor, currentDirection)
      ensures forall r :: r in old(pendingRequests) ==>
        r.pickedUp == (old(r.pickedUp) || Boards(old(r.View()), currentFloor, currentDirection))
    {
      var i := 0;
      while i < |pendingRequests|
        invariant 0 <= i <= |pendingRequests|
        invariant pendingRequests == old(pendingRequests)
        invariant currentFloor == old(currentFloor) && currentDirection == old(currentDirection) && state == old(state)
        invariant forall r :: r in pendingRequests ==>
          r.pickedUp == (old(r.pickedUp) || (r in pendingRequests[..i] && r.sourceFloor == currentFloor && (currentDirection == Idle || r.direction == currentDirection)))
      {
        var r := pendingRequests[i];
        if !r.pickedUp && r.sourceFloor == currentFloor {
          if currentDirection == Idle || r.direction == currentDirection {
            r.SetPickedUp(true);
          }
        }
        assert pendingRequests[..i + 1] == pendingRequests[..i] + [r];
        i := i + 1;
      }
      assert pendingRequests[..i] == pendingRequests;
      assert Views() == BoardAll(old(Views()), currentFloor, currentDirection);
      var toRemove: seq<Request> := [];
      for j := 0 to |pendingRequests|
        invariant forall r :: r in toRemove <==>
          (r in pendingRequests[..j] && r.pickedUp && r.destinationFloor == currentFloor)
      {
        var r := pendingRequests[j];
        if r.pickedUp && r.destinationFloor == currentFloor {
          toRemove := toRemove + [r];
        }
        assert pendingRequests[..j + 1] == pendingRequests[..j] + [r];
      }
      assert pendingRequests[..|pendingRequests|] == pendingRequests;
      RemoveAllIsDropOff(pendingRequests, toRemove, currentFloor);
      pendingRequests := RemoveAll(pendingRequests, toRemove);
    }

    method ShouldStopAt(floor: int) returns (stop: bool)
      ensures stop <==> ShouldStop(Views(), floor, currentDirection)
    {
      for i := 0 to |pendingRequests|
        invariant forall j :: 0 <= j < i ==> !Alights(Views()[j], floor) && !Boards(Views()[j], floor, currentDirection)
      {
        var r := pendingRequests[i];
        assert Views()[i] == r.View();
        if r.pickedUp && r.destinationFloor == floor {
          return true;
        }
        if !r.pickedUp && r.sourceFloor == floor {
          if currentDirection == Idle || r.direction == currentDirection {
            return true;
          }
        }
      }
      return false;
    }

    method HasDestinationsAbove() returns (found: bool)
      ensures found <==> AnyAbove(Views(), currentFloor)
    {
      for i := 0 to |pendingRequests|
        invariant forall j :: 0 <= j < i ==> Target(Views()[j]) <= currentFloor
      {
        var r := pendingRequests[i];
        assert Views()[i] == r.View();
        if r.pickedUp && r.destinationFloor > currentFloor {
          return true;
        }
        if !r.pickedUp && r.sourceFloor > currentFloor {
          return true;
        }
      }
      return false;
    }

    method HasDestinationsBelow() returns (found: bool)
      ensures found <==> AnyBelow(Views(), currentFloor)
    {
      for i := 0 to |pendingRequests|
        invariant forall j :: 0 <= j < i ==> Target(Views()[j]) >= currentFloor
      {
        var r := pendingRequests[i];
        assert Views()[i] == r.View();
        if r.pickedUp && r.destinationFloor < currentFloor {
          return true;
        }
        if !r.pickedUp && r.sourceFloor < currentFloor {
          return true;
        }
      }
      return false;
    }
  }
}
