/** The simplified elevator: the same LOOK car with public fields, a
    removeIf drop-off, and an idle state that never resets the direction. */
module ElevatorSimple {
  import opened LookRules

  class Request {
    var source: int
    var destination: int
    var direction: Direction
    var pickedUp: bool

    function View(): Req
      reads this
    {
      Req(source, destination, direction, pickedUp)
    }

    constructor (src: int, dest: int)
      ensures View() == Req(src, dest, DirectionOf(src, dest), false)
    {
      source := src;
      destination := dest;
      direction := if dest > src then Up else Down;
      pickedUp := false;
    }
  }

  function ViewsOf(s: seq<Request>): seq<Req>
    reads s
  {
    seq(|s|, i requires 0 <= i < |s| reads s => s[i].View())
  }

  class Elevator {
    var id: int
    var floor: int
    var direction: Direction
    var state: StateKind
    var requests: seq<Request>

    function Views(): seq<Req>
      reads this, requests
    {
      ViewsOf(requests)
    }

    function Car(): LiftCar
      reads this, requests
    {
      LiftCar(floor, direction, state, Views())
    }

    constructor (id: int)
      ensures this.id == id
      ensures Car() == LiftCar(0, Idle, IdleState, []) && requests == []
    {
      this.id := id;
      floor := 0;
      direction := Idle;
      state := IdleState;
      requests := [];
    }

    method AddRequest(r: Request)
      modifies this
      ensures requests == old(requests) + [r]
      ensures floor == old(floor) && direction == old(direction) && state == old(state)
    {
      requests := requests + [r];
    }

    /** Pickup pass, then requests.removeIf over the passengers arriving here.
        Of a request's fields only pickedUp is ever written. */
    method OpenDoors()
      modifies this, requests
      ensures floor == old(floor) && direction == old(direction) && state == old(state)
      ensures Views() == LookRules.OpenDoors(old(Views()), floor, direction)
    {
      PickUp();
      DropOffArrivals();
    }

    /** The pickup loop of openDoors. */
    method PickUp()
      modifies requests
      ensures Views() == BoardAll(old(Views()), floor, direction)
      ensures forall r :: r in old(requests) ==>
        r.View() == old(r.View()).(pickedUp := old(r.pickedUp) || Boards(old(r.View()), floor, direction))
    {
      var i := 0;
      while i < |requests|
        invariant 0 <= i <= |requests|
        invariant forall r :: r in requests ==>
          r.source == old(r.source) && r.destination == old(r.destination) && r.direction == old(r.direction)
        invariant forall r :: r in requests ==>
          r.pickedUp == (old(r.pickedUp) || (r in requests[..i] && r.source == floor && (direction == Idle || r.direction == direction)))
      {
        var r := requests[i];
        if !r.pickedUp && r.source == floor {
          if direction == Idle || r.direction == direction {
            r.pickedUp := true;
          }
        }
        assert requests[..i + 1] == requests[..i] + [r];
        i := i + 1;
      }
      assert requests[..i] == requests;
    }

    /** requests.removeIf(r -> r.pickedUp && r.destination == floor) */
    method DropOffArrivals()
      modifies this
      ensures floor == old(floor) && direction == old(direction) && state == old(state)
      ensures Views() == DropOff(old(Views()), floor)
      ensures forall r :: r in requests ==> r in old(requests)
    {
      var kept: seq<Request> := [];
      for j := 0 to |requests|
        invariant requests == old(requests) && floor == old(floor) && direction == old(direction) && state == old(state)
        invariant ViewsOf(kept) == DropOff(ViewsOf(requests[..j]), floor)
        invariant forall r :: r in kept ==> r in requests
      {
        var r := requests[j];
        assert requests[..j + 1] == requests[..j] + [r];
        assert ViewsOf(requests[..j + 1]) == ViewsOf(requests[..j]) + [r.View()];
        DropOffAppend(ViewsOf(requests[..j]), r.View(), floor);
        if !(r.pickedUp && r.destination == floor) {
          assert ViewsOf(kept + [r]) == ViewsOf(kept) + [r.View()];
          kept := kept + [r];
        }
      }
      assert requests[..|requests|] == requests;
      requests := kept;
    }

    method ShouldStop(f: int) returns (stop: bool)
      ensures stop <==> LookRules.ShouldStop(Views(), f, direction)
    {
      for i := 0 to |requests|
        invariant forall j :: 0 <= j < i ==> !Alights(Views()[j], f) && !Boards(Views()[j], f, direction)
      {
        var r := requests[i];
        assert Views()[i] == r.View();
        if r.pickedUp && r.destination == f {
          return true;
        }
        if !r.pickedUp && r.source == f {
          if direction == Idle || r.direction == direction {
            return true;
          }
        }
      }
      return false;
    }

    method HasAbove() returns (found: bool)
      ensures found <==> AnyAbove(Views(), floor)
    {
      for i := 0 to |requests|
        invariant forall j :: 0 <= j < i ==> Target(Views()[j]) <= floor
      {
        var r := requests[i];
        assert Views()[i] == r.View();
        var target := if r.pickedUp then r.destination else r.source;
        if target > floor {
          return true;
        }
      }
      return false;
    }

    method HasBelow() returns (found: bool)
      ensures found <==> AnyBelow(Views(), floor)
    {
      for i := 0 to |requests|
        invariant forall j :: 0 <= j < i ==> Target(Views()[j]) >= floor
      {
        var r := requests[i];
        assert Views()[i] == r.View();
        var target := if r.pickedUp then r.destination else r.source;
        if target < floor {
          return true;
        }
      }
      return false;
    }
  }

  /** Sets the car's direction and state; the floor and the requests are
      untouched. */
  method SetCourse(e: Elevator, d: Direction, k: StateKind)
    modifies e
    ensures e.direction == d && e.state == k
    ensures e.floor == old(e.floor) && e.requests == old(e.requests) && e.Views() == old(e.Views())
  {
    e.direction := d;
    e.state := k;
  }

  /** Moves the car to floor f; its direction, state and requests are
      untouched. */
  method SetFloor(e: Elevator, f: int)
    modifies e
    ensures e.floor == f
    ensures e.direction == old(e.direction) && e.state == old(e.state)
    ensures e.requests == old(e.requests) && e.Views() == old(e.Views())
  {
    e.floor := f;
  }

  /** IdleState.move of the simplified car. */
  method IdleMove(e: Elevator)
    modifies e, e.requests
    ensures e.Car() == SimpleIdleStep(old(e.Car()))
  {
    if e.requests == [] {
      return;
    }
    ghost var c := e.Car();
    assert c.requests != [];
    var stop := e.ShouldStop(e.floor);
    if stop {
      e.OpenDoors();
    }
    ghost var v := e.Views();
    assert v == DoorsIfNeeded(c.requests, c.floor, c.direction);
    assert e.floor == c.floor && e.state == c.state && e.direction == c.direction;
    var above := e.HasAbove();
    if above {
      SetCourse(e, Up, MovingUpState);
    } else {
      var below := e.HasBelow();
      if below {
        SetCourse(e, Down, MovingDownState);
      }
    }
    assert e.Views() == v;
    assert e.Car() == SimpleIdleStep(c);
  }

  /** openDoors when shouldStop holds at the car's floor; the floor,
      direction and state are untouched. */
  method ServeFloor(e: Elevator)
    modifies e, e.requests
    ensures e.floor == old(e.floor) && e.direction == old(e.direction) && e.state == old(e.state)
    ensures e.Views() == DoorsIfNeeded(old(e.Views()), e.floor, e.direction)
  {
    var stop := e.ShouldStop(e.floor);
    if stop {
      e.OpenDoors();
    }
  }

  /** The course MovingUpState sets once the doors at floor next are done. */
  method TurnAfterUp(e: Elevator, ghost c: LiftCar, ghost next: int)
    requires e.floor == next && e.direction == c.direction && e.state == c.state
    modifies e
    ensures e.Car() == AfterUp(c, next, old(e.Views()))
  {
    var above := e.HasAbove();
    if !above {
      var below := e.HasBelow();
      if below {
        SetCourse(e, Down, MovingDownState);
      } else if e.requests == [] {
        SetCourse(e, Idle, IdleState);
      }
    }
  }

  /** The course MovingDownState sets once the doors at floor next are done. */
  method TurnAfterDown(e: Elevator, ghost c: LiftCar, ghost next: int)
    requires e.floor == next && e.direction == c.direction && e.state == c.state
    modifies e
    ensures e.Car() == AfterDown(c, next, old(e.Views()))
  {
    var below := e.HasBelow();
    if !below {
      var above := e.HasAbove();
      if above {
        SetCourse(e, Up, MovingUpState);
      } else if e.requests == [] {
        SetCourse(e, Idle, IdleState);
      }
    }
  }

  /** MovingUpState.move of the simplified car. */
  method MovingUpMove(e: Elevator)
    modifies e, e.requests
    ensures e.Car() == UpStep(old(e.Car()))
  {
    ghost var c := e.Car();
    SetFloor(e, e.floor + 1);
    ServeFloor(e);
    UpStepAfterDoors(c, e.Views());
    TurnAfterUp(e, c, c.floor + 1);
  }

  /** MovingDownState.move of the simplified car. */
  method MovingDownMove(e: Elevator)
    modifies e, e.requests
    ensures e.Car() == DownStep(old(e.Car()))
  {
    ghost var c := e.Car();
    SetFloor(e, e.floor - 1);
    ServeFloor(e);
    DownStepAfterDoors(c, e.Views());
    TurnAfterDown(e, c, c.floor - 1);
  }

  /** state.move(e): one tick of the simplified car. */
  method Move(e: Elevator)
    modifies e, e.requests
    ensures e.Car() == SimpleTick(old(e.Car()))
  {
    match e.state
    case IdleState => IdleMove(e);
    case MovingUpState => MovingUpMove(e);
    case MovingDownState => MovingDownMove(e);
  }
}
