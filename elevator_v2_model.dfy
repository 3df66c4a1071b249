/** The SCAN car of the step-driven elevator simulation: a set of
    (floor, type) stop requests, a current floor and a sweep direction. */
module ElevatorV2Model {

  const MinFloor := 0
  const MaxFloor := 10
  /** Java's Integer.MAX_VALUE, the initial "best distance" of the nearest-request scan. */
  const IntMax := 0x7fff_ffff

  datatype Direction = Up | Down | Idle
  datatype RequestType = PickupUp | PickupDown | Destination

  /** A stop request; equality is structural, i.e. same floor and same type. */
  datatype Request = Request(floor: int, kind: RequestType)

  /** Everything a car stores besides its id. */
  datatype Car = Car(floor: int, direction: Direction, requests: set<Request>)

  function Abs(x: int): nat { if x < 0 then -x else x }

  /** UP becomes DOWN; anything else becomes UP. */
  function Reverse(d: Direction): (r: Direction)
    ensures r != Idle && (d != Idle ==> r != d)
  {
    if d == Up then Down else Up
  }

  /** The pickup type a car travelling in direction d serves. */
  function PickupFor(d: Direction): RequestType
  {
    if d == Up then PickupUp else PickupDown
  }

  /** A request that lies ahead of a car at floor going d: strictly beyond it,
      and either a destination or a pickup in the same direction. */
  predicate Ahead(r: Request, d: Direction, floor: int)
  {
    || (d == Up && r.floor > floor && (r.kind == PickupUp || r.kind == Destination))
    || (d == Down && r.floor < floor && (r.kind == PickupDown || r.kind == Destination))
  }

  predicate HasAhead(reqs: set<Request>, d: Direction, floor: int)
  {
    exists r :: r in reqs && Ahead(r, d, floor)
  }

  /** The car stops for a matching pickup or a destination at its floor. */
  predicate StopsAt(reqs: set<Request>, d: Direction, floor: int)
  {
    Request(floor, PickupFor(d)) in reqs || Request(floor, Destination) in reqs
  }

  /** The requests served by a stop at floor while going d. */
  function Served(d: Direction, floor: int): set<Request>
  {
    {Request(floor, PickupFor(d)), Request(floor, Destination)}
  }

  predicate IsNearest(r: Request, reqs: set<Request>, floor: int)
  {
    r in reqs && forall q :: q in reqs ==> Abs(r.floor - floor) <= Abs(q.floor - floor)
  }

  /** The floor after moving one floor in direction d (IDLE does not move). */
  function Moved(floor: int, d: Direction): int
  {
    if d == Up then floor + 1 else if d == Down then floor - 1 else floor
  }

  /** The directions an idle car with requests may choose: towards a nearest
      request, which one being decided by hash iteration order. */
  ghost predicate IdleChoice(c: Car, d: Direction)
  {
    exists r :: IsNearest(r, c.requests, c.floor) && d == (if r.floor > c.floor then Up else Down)
  }

  /** Cases 3 to 5 of a tick once the sweep direction d is fixed. */
  function Advance(c: Car, d: Direction): Car
  {
    if StopsAt(c.requests, d, c.floor) then
      var rest := c.requests - Served(d, c.floor);
      Car(c.floor, if rest == {} then Idle else if HasAhead(rest, d, c.floor) then d else Reverse(d), rest)
    else
      var d' := if HasAhead(c.requests, d, c.floor) then d else Reverse(d);
      Car(Moved(c.floor, d'), d', c.requests)
  }

  /** c' is a state one tick can produce from c. */
  ghost predicate Stepped(c: Car, c': Car)
  {
    if c.requests == {} then c' == c.(direction := Idle)
    else if c.direction != Idle then c' == Advance(c, c.direction)
    else exists d :: IdleChoice(c, d) && c' == Advance(c, d)
  }

  /** The set a request is added to by addRequest, given the car's floor. */
  function AfterAdd(reqs: set<Request>, current: int, floor: int, kind: RequestType): set<Request>
  {
    if floor < MinFloor || floor > MaxFloor || floor == current then reqs
    else reqs + {Request(floor, kind)}
  }

  class Elevator {
    const id: int
    var currentFloor: int
    var direction: Direction
    var requests: set<Request>

    function State(): Car
      reads this
    {
      Car(currentFloor, direction, requests)
    }

    /** Every pending request is within int distance of the car, so the
        nearest-request scan, which starts from Integer.MAX_VALUE, finds one. */
    predicate DistancesFit()
      reads this
    {
      forall r :: r in requests ==> Abs(r.floor - currentFloor) < IntMax
    }

    constructor (id: int)
      ensures this.id == id
      ensures State() == Car(0, Idle, {})
    {
      this.id := id;
      currentFloor := 0;
      direction := Idle;
      requests := {};
    }

    method AddRequest(floor: int, kind: RequestType) returns (accepted: bool)
      modifies this
      ensures accepted <==> MinFloor <= floor <= MaxFloor
      ensures currentFloor == old(currentFloor) && direction == old(direction)
      ensures requests == AfterAdd(old(requests), old(currentFloor), floor, kind)
    {
      if floor < MinFloor || floor > MaxFloor {
        return false;
      }
      if floor == currentFloor {
        return true;
      }
      requests := requests + {Request(floor, kind)};
      return true;
    }

    /** One SCAN tick. */
    method Step()
      requires DistancesFit()
      modifies this
      ensures Stepped(old(State()), State())
    {
      if requests == {} {
        direction := Idle;
        return;
      }
      if direction == Idle {
        var nearest := FindNearestRequest();
        direction := if nearest.floor > currentFloor then Up else Down;
        assert IdleChoice(old(State()), direction);
      }
      ghost var d := direction;
      ghost var before := old(State());
      var stop := ShouldStopAtCurrentFloor();
      if stop {
        StopAtCurrentFloor();
        if requests == {} {
          direction := Idle;
          assert State() == Advance(before, d);
          return;
        }
        var ahead := HasRequestsInDirection(direction);
        if !ahead {
          direction := Reverse(direction);
        }
        assert State() == Advance(before, d);
        return;
      }
      var ahead := HasRequestsInDirection(direction);
      if !ahead {
        direction := Reverse(direction);
      }
      Move();
      assert State() == Advance(before, d);
    }

    /** Some request at minimal distance from the current floor. */
    method FindNearestRequest() returns (nearest: Request)
      requires requests != {} && DistancesFit()
      ensures IsNearest(nearest, requests, currentFloor)
    {
      var best: Request := Request(0, Destination);
      var found := false;
      var minDistance := IntMax;
      var remaining := requests;
      while remaining != {}
        invariant remaining <= requests
        invariant found ==> best in requests && minDistance == Abs(best.floor - currentFloor)
        invariant !found ==> minDistance == IntMax
        invariant forall q :: q in requests - remaining ==> minDistance <= Abs(q.floor - currentFloor)
        decreases |remaining|
      {
        var req :| req in remaining;
        var distance := Abs(req.floor - currentFloor);
        if distance < minDistance {
          minDistance := distance;
          best := req;
          found := true;
        }
        remaining := remaining - {req};
      }
      var some :| some in requests;
      assert Abs(some.floor - currentFloor) < IntMax;
      nearest := best;
    }

    method ShouldStopAtCurrentFloor() returns (stop: bool)
      ensures stop <==> StopsAt(requests, direction, currentFloor)
    {
      var pickupType := if direction == Up then PickupUp else PickupDown;
      stop := Request(currentFloor, pickupType) in requests || Request(currentFloor, Destination) in requests;
    }

    method StopAtCurrentFloor()
      modifies this
      ensures currentFloor == old(currentFloor) && direction == old(direction)
      ensures requests == old(requests) - Served(direction, currentFloor)
    {
      var pickupType := if direction == Up then PickupUp else PickupDown;
      requests := requests - {Request(currentFloor, pickupType)};
      requests := requests - {Request(currentFloor, Destination)};
    }

    method HasRequestsInDirection(dir: Direction) returns (found: bool)
      ensures found <==> HasAhead(requests, dir, currentFloor)
    {
      var remaining := requests;
      while remaining != {}
        invariant remaining <= requests
        invariant forall q :: q in requests - remaining ==> !Ahead(q, dir, currentFloor)
        decreases |remaining|
      {
        var req :| req in remaining;
        if dir == Up && req.floor > currentFloor {
          if req.kind == PickupUp || req.kind == Destination {
            return true;
          }
        }
        if dir == Down && req.floor < currentFloor {
          if req.kind == PickupDown || req.kind == Destination {
            return true;
          }
        }
        remaining := remaining - {req};
      }
      return false;
    }

    method Move()
      modifies this
      ensures currentFloor == Moved(old(currentFloor), direction)
      ensures direction == old(direction) && requests == old(requests)
    {
      if direction == Up {
        currentFloor := currentFloor + 1;
      } else if direction == Down {
        currentFloor := currentFloor - 1;
      }
    }

    /** Whether some request lies at or beyond floor in direction dir. */
    method HasRequestsAtOrBeyond(floor: int, dir: Direction) returns (found: bool)
      ensures found <==> exists r :: r in requests && ((dir == Up && r.floor >= floor) || (dir == Down && r.floor <= floor))
    {
      var remaining := requests;
      while remaining != {}
        invariant remaining <= requests
        invariant forall q :: q in requests - remaining ==>
          !((dir == Up && q.floor >= floor) || (dir == Down && q.floor <= floor))
        decreases |remaining|
      {
        var req :| req in remaining;
        if dir == Up && req.floor >= floor {
          return true;
        }
        if dir == Down && req.floor <= floor {
          return true;
        }
        remaining := remaining - {req};
      }
      return false;
    }
  }

  // ----- properties of one tick -----

  /** Adding the same (floor, type) twice leaves the same set as adding it once. */
  lemma AddRequestIdempotent(reqs: set<Request>, current: int, floor: int, kind: RequestType)
    ensures AfterAdd(AfterAdd(reqs, current, floor, kind), current, floor, kind) == AfterAdd(reqs, current, floor, kind)
  {
  }

  /** The direction a tick sweeps in: the car's own, or for an idle car the one it chose. */
  lemma SweepDirection(c: Car, c': Car) returns (d: Direction)
    requires Stepped(c, c') && c.requests != {}
    ensures d != Idle && c' == Advance(c, d)
    ensures c.direction != Idle ==> d == c.direction
  {
    if c.direction != Idle {
      d := c.direction;
    } else {
      d :| IdleChoice(c, d) && c' == Advance(c, d);
    }
  }

  /** A tick moves the car at most one floor, and never on a tick that serves a stop. */
  lemma StepMovesAtMostOneFloor(c: Car, c': Car)
    requires Stepped(c, c')
    ensures Abs(c'.floor - c.floor) <= 1
    ensures c'.floor != c.floor ==> c'.requests == c.requests && c'.floor == Moved(c.floor, c'.direction)
  {
    if c.requests != {} {
      var d := SweepDirection(c, c');
    }
  }

  /** Between ticks a car is IDLE exactly when it has no requests. */
  lemma StepIdleIffEmpty(c: Car, c': Car)
    requires Stepped(c, c')
    ensures c'.direction == Idle <==> c'.requests == {}
  {
    if c.requests != {} {
      var d := SweepDirection(c, c');
      if !StopsAt(c.requests, d, c.floor) {
        assert c'.requests == c.requests;
      }
    }
  }

  /** A tick only removes requests, and only ones at the car's floor: the
      destination and the pickup matching the sweep direction. */
  lemma StepRemovesOnlyServed(c: Car, c': Car)
    requires Stepped(c, c')
    ensures c'.requests <= c.requests
    ensures forall r :: r in c.requests - c'.requests ==> r.floor == c.floor && c'.floor == c.floor
    ensures c.direction != Idle ==> c.requests - c'.requests <= Served(c.direction, c.floor)
  {
    if c.requests != {} {
      var d := SweepDirection(c, c');
    }
  }

  /** A pickup for the opposite direction at the car's floor is not served on this sweep. */
  lemma OppositePickupDeferred(c: Car, c': Car)
    requires Stepped(c, c') && c.direction == Up
    requires Request(c.floor, PickupDown) in c.requests
    ensures Request(c.floor, PickupDown) in c'.requests
  {
  }

  /** While a request lies ahead, a moving car neither reverses nor goes idle:
      it either stops where it is or advances one floor in its direction. */
  lemma SweepContinues(c: Car, c': Car)
    requires Stepped(c, c') && c.direction != Idle
    requires HasAhead(c.requests, c.direction, c.floor)
    ensures c'.direction == c.direction
    ensures c'.floor == c.floor || c'.floor == Moved(c.floor, c.direction)
  {
    var r :| r in c.requests && Ahead(r, c.direction, c.floor);
    if StopsAt(c.requests, c.direction, c.floor) {
      assert r in c.requests - Served(c.direction, c.floor);
    }
  }

  /** A lone PICKUP_DOWN above an idle car at floor 0: the car heads UP, finds
      nothing "ahead" (opposite pickups do not count), reverses, leaves the
      building to floor -1, and from then on alternates between -1 and 0
      without ever serving the call. */
  lemma LonePickupDownOscillates(c1: Car, c2: Car, c3: Car)
    requires Stepped(Car(0, Idle, {Request(5, PickupDown)}), c1)
    requires Stepped(c1, c2) && Stepped(c2, c3)
    ensures c1 == Car(-1, Down, {Request(5, PickupDown)})
    ensures c2 == Car(0, Up, {Request(5, PickupDown)})
    ensures c3 == c1
  {
    LoneFirstTick(c1);
    LoneDownTick(c2);
    LoneUpTick(c3);
  }

  /** The first tick of that scenario: heading UP, reversing, moving to -1. */
  lemma LoneFirstTick(c1: Car)
    requires Stepped(Car(0, Idle, {Request(5, PickupDown)}), c1)
    ensures c1 == Car(-1, Down, {Request(5, PickupDown)})
  {
    var c0 := Car(0, Idle, {Request(5, PickupDown)});
    var d := SweepDirection(c0, c1);
    var r :| IsNearest(r, c0.requests, c0.floor) && d == (if r.floor > c0.floor then Up else Down);
    assert r == Request(5, PickupDown);
    assert !HasAhead(c0.requests, Up, 0);
  }

  /** Going down at -1 the lone call is above: the car reverses up to 0. */
  lemma LoneDownTick(c: Car)
    requires Stepped(Car(-1, Down, {Request(5, PickupDown)}), c)
    ensures c == Car(0, Up, {Request(5, PickupDown)})
  {
    assert !HasAhead({Request(5, PickupDown)}, Down, -1);
  }

  /** Going up at 0 the lone call is not ahead: the car reverses down to -1. */
  lemma LoneUpTick(c: Car)
    requires Stepped(Car(0, Up, {Request(5, PickupDown)}), c)
    ensures c == Car(-1, Down, {Request(5, PickupDown)})
  {
    assert !HasAhead({Request(5, PickupDown)}, Up, 0);
  }
}
