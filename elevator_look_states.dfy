/** The three state objects of the state-pattern elevator. Each move is one
    tick of the car and is proved to follow the matching LOOK rule. */
module ElevatorLookStates {
  import opened LookRules
  import opened ElevatorLook

  /** openDoors when shouldStopAt holds at the car's floor; the floor,
      direction and state are untouched. */
  method ServeFloor(e: Elevator)
    modifies e, e.pendingRequests
    ensures e.currentFloor == old(e.currentFloor) && e.currentDirection == old(e.currentDirection)
    ensures e.state == old(e.state)
    ensures e.Views() == DoorsIfNeeded(old(e.Views()), e.currentFloor, e.currentDirection)
  {
    var stop := e.ShouldStopAt(e.currentFloor);
    if stop {
      e.OpenDoors();
    }
  }

  /** setCurrentDirection then setState. */
  method SetCourse(e: Elevator, d: Direction, k: StateKind)
    modifies e
    ensures e.currentDirection == d && e.state == k && e.currentFloor == old(e.currentFloor)
    ensures e.pendingRequests == old(e.pendingRequests) && e.Views() == old(e.Views())
  {
    e.SetCurrentDirection(d);
    e.SetState(k);
  }

  /** IdleState.move */
  method IdleMove(e: Elevator)
    modifies e, e.pendingRequests
    ensures e.Car() == IdleStep(old(e.Car()))
  {
    if !e.HasRequests() {
      return;
    }
    ghost var c := e.Car();
    assert c.requests != [];
    ServeFloor(e);
    ghost var v := e.Views();
    var above := e.HasDestinationsAbove();
    if above {
      SetCourse(e, Up, MovingUpState);
    } else {
      var below := e.HasDestinationsBelow();
      if below {
        SetCourse(e, Down, MovingDownState);
      } else {
        e.SetCurrentDirection(Idle);
      }
    }
    assert e.Views() == v;
    assert e.Car() == IdleStep(c);
  }

  /** The course MovingUpState sets once the doors at floor next are done. */
  method TurnAfterUp(e: Elevator, ghost c: LiftCar, ghost next: int)
    requires e.currentFloor == next && e.currentDirection == c.direction && e.state == c.state
    modifies e
    ensures e.Car() == AfterUp(c, next, old(e.Views()))
  {
    var above := e.HasDestinationsAbove();
    if above {
      return;
    }
    var below := e.HasDestinationsBelow();
    if below {
      SetCourse(e, Down, MovingDownState);
    } else if !e.HasRequests() {
      SetCourse(e, Idle, IdleState);
    }
  }

  /** The course MovingDownState sets once the doors at floor next are done. */
  method TurnAfterDown(e: Elevator, ghost c: LiftCar, ghost next: int)
    requires e.currentFloor == next && e.currentDirection == c.direction && e.state == c.state
    modifies e
    ensures e.Car() == AfterDown(c, next, old(e.Views()))
  {
    var below := e.HasDestinationsBelow();
    if below {
      return;
    }
    var above := e.HasDestinationsAbove();
    if above {
      SetCourse(e, Up, MovingUpState);
    } else if !e.HasRequests() {
      SetCourse(e, Idle, IdleState);
    }
  }

  /** MovingUpState.move */
  method MovingUpMove(e: Elevator)
    modifies e, e.pendingRequests
    ensures e.Car() == UpStep(old(e.Car()))
  {
    ghost var c := e.Car();
    e.SetCurrentFloor(e.currentFloor + 1);
    ServeFloor(e);
    UpStepAfterDoors(c, e.Views());
    TurnAfterUp(e, c, c.floor + 1);
  }

  /** MovingDownState.move */
  method MovingDownMove(e: Elevator)
    modifies e, e.pendingRequests
    ensures e.Car() == DownStep(old(e.Car()))
  {
    ghost var c := e.Car();
    e.SetCurrentFloor(e.currentFloor - 1);
    ServeFloor(e);
    DownStepAfterDoors(c, e.Views());
    TurnAfterDown(e, c, c.floor - 1);
  }

  /** Elevator.move: one tick, delegated to the current state. */
  method Move(e: Elevator)
    modifies e, e.pendingRequests
    ensures e.Car() == Tick(old(e.Car()))
  {
    match e.state
    case IdleState => IdleMove(e);
    case MovingUpState => MovingUpMove(e);
    case MovingDownState => MovingDownMove(e);
  }
}
