/** The LOOK rules shared by the state-pattern elevator and its simplified
    twin: requests from a source floor to a destination floor, boarded at the
    source and dropped at the destination, stated on plain values. */
module LookRules {

  datatype Direction = Up | Down | Idle
  datatype StateKind = IdleState | MovingUpState | MovingDownState

  /** The observable content of one passenger request. */
  datatype Req = Req(source: int, destination: int, direction: Direction, pickedUp: bool)

  /** UP iff the destination is above the source; equal floors count as DOWN. */
  function DirectionOf(source: int, destination: int): (d: Direction)
    ensures d == Up <==> destination > source
    ensures d != Idle
  {
    if destination > source then Up else Down
  }

  /** A waiting passenger at floor whom a car going dir takes on board. */
  predicate Boards(r: Req, floor: int, dir: Direction)
  {
    !r.pickedUp && r.source == floor && (dir == Idle || r.direction == dir)
  }

  /** A passenger on board who gets off at floor. */
  predicate Alights(r: Req, floor: int)
  {
    r.pickedUp && r.destination == floor
  }

  /** Where the request still needs the car: its destination once on board, its source before. */
  function Target(r: Req): int
  {
    if r.pickedUp then r.destination else r.source
  }

  predicate ShouldStop(v: seq<Req>, floor: int, dir: Direction)
  {
    exists i :: 0 <= i < |v| && (Alights(v[i], floor) || Boards(v[i], floor, dir))
  }

  predicate AnyAbove(v: seq<Req>, floor: int)
  {
    exists i :: 0 <= i < |v| && Target(v[i]) > floor
  }

  predicate AnyBelow(v: seq<Req>, floor: int)
  {
    exists i :: 0 <= i < |v| && Target(v[i]) < floor
  }

  /** The pickup pass of openDoors: every boarding passenger is marked on board. */
  function BoardAll(v: seq<Req>, floor: int, dir: Direction): (w: seq<Req>)
    ensures |w| == |v|
    ensures forall i :: 0 <= i < |v| ==> w[i] == if Boards(v[i], floor, dir) then v[i].(pickedUp := true) else v[i]
  {
    seq(|v|, i requires 0 <= i < |v| => if Boards(v[i], floor, dir) then v[i].(pickedUp := true) else v[i])
  }

  /** The drop-off pass of openDoors: the alighting passengers leave, the rest keep their order. */
  function DropOff(v: seq<Req>, floor: int): seq<Req>
  {
    if v == [] then []
    else (if Alights(v[0], floor) then [] else [v[0]]) + DropOff(v[1..], floor)
  }

  function OpenDoors(v: seq<Req>, floor: int, dir: Direction): seq<Req>
  {
    DropOff(BoardAll(v, floor, dir), floor)
  }

  /** openDoors only when the car has a reason to stop. */
  function DoorsIfNeeded(v: seq<Req>, floor: int, dir: Direction): seq<Req>
  {
    if ShouldStop(v, floor, dir) then OpenDoors(v, floor, dir) else v
  }

  datatype LiftCar = LiftCar(floor: int, direction: Direction, state: StateKind, requests: seq<Req>)

  /** IdleState.move: serve the current floor, then head for the remaining
      targets, or set the direction to IDLE when there are none. */
  function IdleStep(c: LiftCar): LiftCar
  {
    if c.requests == [] then c
    else
      var v := DoorsIfNeeded(c.requests, c.floor, c.direction);
      if AnyAbove(v, c.floor) then LiftCar(c.floor, Up, MovingUpState, v)
      else if AnyBelow(v, c.floor) then LiftCar(c.floor, Down, MovingDownState, v)
      else LiftCar(c.floor, Idle, c.state, v)
  }

  /** The simplified IdleState.move: as IdleStep, but with nothing above or
      below the direction and state are left as they were. */
  function SimpleIdleStep(c: LiftCar): LiftCar
  {
    if c.requests == [] then c
    else
      var v := DoorsIfNeeded(c.requests, c.floor, c.direction);
      if AnyAbove(v, c.floor) then LiftCar(c.floor, Up, MovingUpState, v)
      else if AnyBelow(v, c.floor) then LiftCar(c.floor, Down, MovingDownState, v)
      else c.(requests := v)
  }

  /** MovingUpState.move: one floor up, serve it if needed, then keep going,
      reverse, or go idle. */
  function UpStep(c: LiftCar): LiftCar
  {
    var next := c.floor + 1;
    AfterUp(c, next, DoorsIfNeeded(c.requests, next, c.direction))
  }

  /** The decision MovingUpState takes at floor next once the doors have left v. */
  function AfterUp(c: LiftCar, next: int, v: seq<Req>): LiftCar
  {
    if AnyAbove(v, next) then c.(floor := next, requests := v)
    else if AnyBelow(v, next) then LiftCar(next, Down, MovingDownState, v)
    else if v == [] then LiftCar(next, Idle, IdleState, v)
    else c.(floor := next, requests := v)
  }

  /** MovingDownState.move: the mirror image of UpStep. */
  function DownStep(c: LiftCar): LiftCar
  {
    var next := c.floor - 1;
    AfterDown(c, next, DoorsIfNeeded(c.requests, next, c.direction))
  }

  function AfterDown(c: LiftCar, next: int, v: seq<Req>): LiftCar
  {
    if AnyBelow(v, next) then c.(floor := next, requests := v)
    else if AnyAbove(v, next) then LiftCar(next, Up, MovingUpState, v)
    else if v == [] then LiftCar(next, Idle, IdleState, v)
    else c.(floor := next, requests := v)
  }

  /** The upward step is its decision taken on the requests the doors at
      the floor above leave. */
  lemma UpStepAfterDoors(c: LiftCar, v: seq<Req>)
    requires v == DoorsIfNeeded(c.requests, c.floor + 1, c.direction)
    ensures UpStep(c) == AfterUp(c, c.floor + 1, v)
  {
  }

  /** The downward step is its decision taken on the requests the doors at
      the floor below leave. */
  lemma DownStepAfterDoors(c: LiftCar, v: seq<Req>)
    requires v == DoorsIfNeeded(c.requests, c.floor - 1, c.direction)
    ensures DownStep(c) == AfterDown(c, c.floor - 1, v)
  {
  }

  /** Elevator.move: delegate to the current state. */
  function Tick(c: LiftCar): LiftCar
  {
    match c.state
    case IdleState => IdleStep(c)
    case MovingUpState => UpStep(c)
    case MovingDownState => DownStep(c)
  }

  function SimpleTick(c: LiftCar): LiftCar
  {
    match c.state
    case IdleState => SimpleIdleStep(c)
    case MovingUpState => UpStep(c)
    case MovingDownState => DownStep(c)
  }

  // ----- openDoors -----

  /** The drop-off pass keeps exactly the requests that do not alight, and never grows the list. */
  lemma {:induction false} DropOffKeeps(v: seq<Req>, floor: int)
    ensures forall x :: x in DropOff(v, floor) <==> x in v && !Alights(x, floor)
    ensures |DropOff(v, floor)| <= |v|
  {
    if v != [] {
      DropOffKeeps(v[1..], floor);
      assert v == [v[0]] + v[1..];
    }
  }

  /** The drop-off pass over a list extended by one request. */
  lemma {:induction false} DropOffAppend(v: seq<Req>, x: Req, floor: int)
    ensures DropOff(v + [x], floor) == DropOff(v, floor) + (if Alights(x, floor) then [] else [x])
  {
    if v != [] {
      DropOffAppend(v[1..], x, floor);
      assert (v + [x])[1..] == v[1..] + [x];
    }
  }

  /** After openDoors no passenger on board is bound for the current floor. */
  lemma OpenDoorsLeavesNoArrival(v: seq<Req>, floor: int, dir: Direction)
    ensures forall x :: x in OpenDoors(v, floor, dir) ==> !Alights(x, floor)
  {
    DropOffKeeps(BoardAll(v, floor, dir), floor);
  }

  /** After openDoors nobody at the current floor is still waiting for a car going dir. */
  lemma OpenDoorsLeavesNoBoarder(v: seq<Req>, floor: int, dir: Direction)
    ensures forall x :: x in OpenDoors(v, floor, dir) ==> !Boards(x, floor, dir)
  {
    DropOffKeeps(BoardAll(v, floor, dir), floor);
  }

  /** A request that neither boards nor alights passes through openDoors unchanged. */
  lemma OpenDoorsKeepsBystander(v: seq<Req>, floor: int, dir: Direction, x: Req)
    requires x in v && !Boards(x, floor, dir) && !Alights(x, floor)
    ensures x in OpenDoors(v, floor, dir)
  {
    var i :| 0 <= i < |v| && v[i] == x;
    assert BoardAll(v, floor, dir)[i] == x;
    DropOffKeeps(BoardAll(v, floor, dir), floor);
  }

  /** With no reason to stop, openDoors changes nothing. */
  lemma {:induction false} OpenDoorsWithoutStopIsIdentity(v: seq<Req>, floor: int, dir: Direction)
    requires !ShouldStop(v, floor, dir)
    ensures OpenDoors(v, floor, dir) == v
  {
    assert BoardAll(v, floor, dir) == v;
    DropOffUnchanged(v, floor);
  }

  lemma {:induction false} DropOffUnchanged(v: seq<Req>, floor: int)
    requires forall i :: 0 <= i < |v| ==> !Alights(v[i], floor)
    ensures DropOff(v, floor) == v
  {
    if v != [] {
      DropOffUnchanged(v[1..], floor);
      assert v == [v[0]] + v[1..];
    }
  }

  /** Opening the doors twice at the same floor does what opening them once does. */
  lemma OpenDoorsIdempotent(v: seq<Req>, floor: int, dir: Direction)
    ensures OpenDoors(OpenDoors(v, floor, dir), floor, dir) == OpenDoors(v, floor, dir)
  {
    var w := OpenDoors(v, floor, dir);
    OpenDoorsLeavesNoArrival(v, floor, dir);
    OpenDoorsLeavesNoBoarder(v, floor, dir);
    assert forall i :: 0 <= i < |w| ==> w[i] in w;
    OpenDoorsWithoutStopIsIdentity(w, floor, dir);
  }

  // ----- one tick -----

  /** The state object and the direction agree: Idle/IDLE, MovingUp/UP, MovingDown/DOWN. */
  predicate Agrees(c: LiftCar)
  {
    || (c.state == IdleState && c.direction == Idle)
    || (c.state == MovingUpState && c.direction == Up)
    || (c.state == MovingDownState && c.direction == Down)
  }

  /** Both variants keep the state and the direction in agreement. */
  lemma TickPreservesAgreement(c: LiftCar)
    requires Agrees(c)
    ensures Agrees(Tick(c)) && Agrees(SimpleTick(c))
  {
  }

  /** Whether or not the doors open, nobody left on the list is bound for
      the floor. */
  lemma DoorsLeaveNoArrival(v: seq<Req>, floor: int, dir: Direction)
    ensures forall x :: x in DoorsIfNeeded(v, floor, dir) ==> !Alights(x, floor)
  {
    if ShouldStop(v, floor, dir) {
      OpenDoorsLeavesNoArrival(v, floor, dir);
    } else {
      forall x | x in v
        ensures !Alights(x, floor)
      {
        var i :| 0 <= i < |v| && v[i] == x;
      }
    }
  }

  /** After any tick nobody on board is bound for the floor the car is at. */
  lemma TickLeavesNoArrival(c: LiftCar)
    ensures forall x :: x in Tick(c).requests ==> !Alights(x, Tick(c).floor)
    ensures forall x :: x in SimpleTick(c).requests ==> !Alights(x, SimpleTick(c).floor)
  {
    match c.state
    case IdleState =>
      DoorsLeaveNoArrival(c.requests, c.floor, c.direction);
    case MovingUpState =>
      var v := DoorsIfNeeded(c.requests, c.floor + 1, c.direction);
      DoorsLeaveNoArrival(c.requests, c.floor + 1, c.direction);
      UpStepAfterDoors(c, v);
    case MovingDownState =>
      var v := DoorsIfNeeded(c.requests, c.floor - 1, c.direction);
      DoorsLeaveNoArrival(c.requests, c.floor - 1, c.direction);
      DownStepAfterDoors(c, v);
  }

  /** An idle tick never moves the car; a moving tick moves it exactly one floor. */
  lemma TickMovesOneFloor(c: LiftCar)
    ensures c.state == IdleState ==> Tick(c).floor == c.floor && SimpleTick(c).floor == c.floor
    ensures c.state == MovingUpState ==> Tick(c).floor == c.floor + 1
    ensures c.state == MovingDownState ==> Tick(c).floor == c.floor - 1
  {
  }

  /** The two idle rules differ only when nothing lies above or below after the
      doors: the state-pattern car resets its direction to IDLE, the simplified
      car keeps whatever direction it had. */
  lemma IdleVariantsDiffer(c: LiftCar)
    ensures c.requests == [] ==> SimpleIdleStep(c) == IdleStep(c)
    ensures c.requests != [] ==>
      var v := DoorsIfNeeded(c.requests, c.floor, c.direction);
      if AnyAbove(v, c.floor) || AnyBelow(v, c.floor) then SimpleIdleStep(c) == IdleStep(c)
      else SimpleIdleStep(c) == IdleStep(c).(direction := c.direction)
  {
  }

  /** A waiting passenger going DOWN at the floor an upward car reaches is not
      picked up on that tick. */
  lemma UpStepDefersOppositePickup(c: LiftCar, x: Req)
    requires c.direction == Up && x in c.requests
    requires !x.pickedUp && x.source == c.floor + 1 && x.direction == Down
    ensures x in UpStep(c).requests
  {
    if ShouldStop(c.requests, c.floor + 1, c.direction) {
      OpenDoorsKeepsBystander(c.requests, c.floor + 1, c.direction, x);
    }
  }

  /** An upward car at floor 2 whose only request is a passenger waiting at 3
      to go down to 1 passes floor 3 without stopping, climbs to 4, reverses,
      and picks the passenger up on the way back down. */
  lemma OppositePickupOvershoots()
    ensures var c0 := LiftCar(2, Up, MovingUpState, [Req(3, 1, Down, false)]);
      && Tick(c0) == LiftCar(3, Up, MovingUpState, [Req(3, 1, Down, false)])
      && Tick(Tick(c0)) == LiftCar(4, Down, MovingDownState, [Req(3, 1, Down, false)])
      && Tick(Tick(Tick(c0))) == LiftCar(3, Down, MovingDownState, [Req(3, 1, Down, true)])
  {
    var x := Req(3, 1, Down, false);
    var c0 := LiftCar(2, Up, MovingUpState, [x]);
    assert !ShouldStop([x], 3, Up) && !AnyAbove([x], 3) && !AnyBelow([x], 3);
    assert !ShouldStop([x], 4, Up) && AnyBelow([x], 4);
    assert ShouldStop([x], 3, Down);
    var y := x.(pickedUp := true);
    assert BoardAll([x], 3, Down) == [y];
    assert DropOff([y], 3) == [y];
    assert AnyBelow([y], 3);
  }
}
