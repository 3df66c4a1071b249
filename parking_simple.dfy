/** The single-level parking lot: spots kept in one list per spot type, a
    ticket issued per parked vehicle and filed under its licence plate, and
    the numbered ticket ids "T-1", "T-2", … */
module ParkingSimple {
  import opened Wrappers

  datatype VehicleType = Bike | Car | Truck

  datatype SpotType = Small | Medium | Large

  datatype Vehicle = Vehicle(licensePlate: string, vehicleType: VehicleType)

  /** getSpotTypeForVehicle: a bike needs a small spot, a car a medium one
      and a truck a large one. */
  function SpotTypeForVehicle(t: VehicleType): SpotType
  {
    match t
    case Bike => Small
    case Car => Medium
    case Truck => Large
  }

  /** Every spot type serves exactly one vehicle type. */
  lemma SpotTypesMatchVehicleTypes(t: VehicleType, u: VehicleType, s: SpotType)
    ensures SpotTypeForVehicle(t) == SpotTypeForVehicle(u) ==> t == u
    ensures exists v :: SpotTypeForVehicle(v) == s
  {
    match s
    case Small => assert SpotTypeForVehicle(Bike) == s;
    case Medium => assert SpotTypeForVehicle(Car) == s;
    case Large => assert SpotTypeForVehicle(Truck) == s;
  }

  // ---------------------------------------------------------------------
  // Ticket ids

  function DigitChar(d: int): char
    requires 0 <= d < 10
  {
    ('0' as int + d) as char
  }

  /** The decimal digits of n, as string concatenation writes an int. */
  function Decimal(n: nat): (s: string)
    ensures |s| >= 1
    ensures n >= 10 ==> |s| >= 2
    decreases n
  {
    if n < 10 then [DigitChar(n)] else Decimal(n / 10) + [DigitChar(n % 10)]
  }

  /** Different numbers are written differently. */
  lemma {:induction false} DecimalInjective(n: nat, m: nat)
    requires Decimal(n) == Decimal(m)
    ensures n == m
    decreases n
  {
    if n < 10 && m < 10 {
      assert Decimal(n)[0] == DigitChar(n) && Decimal(m)[0] == DigitChar(m);
    } else if n >= 10 && m >= 10 {
      var s, t := Decimal(n), Decimal(m);
      assert s[|s| - 1] == DigitChar(n % 10) && t[|t| - 1] == DigitChar(m % 10);
      assert s[..|s| - 1] == Decimal(n / 10) && t[..|t| - 1] == Decimal(m / 10);
      DecimalInjective(n / 10, m / 10);
    }
  }

  /** The id of the n-th ticket: "T-" and the counter's value. */
  function TicketName(n: nat): string
  {
    "T-" + Decimal(n)
  }

  /** Tickets issued at different counter values have different ids. */
  lemma TicketNamesDistinct(n: nat, m: nat)
    ensures TicketName(n) == TicketName(m) <==> n == m
  {
    if TicketName(n) == TicketName(m) {
      assert TicketName(n)[2..] == Decimal(n) && TicketName(m)[2..] == Decimal(m);
      DecimalInjective(n, m);
    }
  }

  // ---------------------------------------------------------------------
  // Free spots in a list, as values

  /** The first free place of a list of spot occupants, if any. */
  function FirstFree(occupants: seq<Option<Vehicle>>): (k: Option<nat>)
    ensures k.Some? ==> k.value < |occupants| && occupants[k.value].None?
    ensures k.Some? ==> forall j :: 0 <= j < k.value ==> occupants[j].Some?
    ensures k.None? <==> forall j :: 0 <= j < |occupants| ==> occupants[j].Some?
  {
    if occupants == [] then None
    else if occupants[0].None? then Some(0)
    else match FirstFree(occupants[1..])
      case None => None
      case Some(k) => Some(k + 1)
  }

  /** A free place with only taken places before it is the first free one. */
  lemma FirstFreeAt(occupants: seq<Option<Vehicle>>, i: nat)
    requires i < |occupants| && occupants[i].None?
    requires forall j :: 0 <= j < i ==> occupants[j].Some?
    ensures FirstFree(occupants) == Some(i)
  {
    assert FirstFree(occupants).Some?;
  }

  /** How many places of a list of spot occupants are free. */
  function CountFree(occupants: seq<Option<Vehicle>>): (n: nat)
    ensures n <= |occupants|
    ensures n == 0 <==> FirstFree(occupants).None?
  {
    if occupants == [] then 0
    else (if occupants[0].None? then 1 else 0) + CountFree(occupants[1..])
  }

  /** Taking a free place leaves one fewer free place. */
  lemma {:induction false} CountFreeAfterPark(occupants: seq<Option<Vehicle>>, k: nat, v: Vehicle)
    requires k < |occupants| && occupants[k].None?
    ensures CountFree(occupants[k := Some(v)]) == CountFree(occupants) - 1
    decreases k
  {
    var after := occupants[k := Some(v)];
    if k > 0 {
      assert after[1..] == occupants[1..][k - 1 := Some(v)];
      CountFreeAfterPark(occupants[1..], k - 1, v);
    }
  }

  /** Emptying a taken place leaves one more free place. */
  lemma {:induction false} CountFreeAfterUnpark(occupants: seq<Option<Vehicle>>, k: nat)
    requires k < |occupants| && occupants[k].Some?
    ensures CountFree(occupants[k := None]) == CountFree(occupants) + 1
    decreases k
  {
    var after := occupants[k := None];
    if k > 0 {
      assert after[1..] == occupants[1..][k - 1 := None];
      CountFreeAfterUnpark(occupants[1..], k - 1);
    }
  }

  // ---------------------------------------------------------------------
  // Spots, tickets and the lot

  class ParkingSpot {
    const id: string
    const spotType: SpotType
    var currentVehicle: Option<Vehicle>

    /** A new spot is empty. */
    constructor (id: string, spotType: SpotType)
      ensures this.id == id && this.spotType == spotType && currentVehicle == None
    {
      this.id := id;
      this.spotType := spotType;
      currentVehicle := None;
    }

    /** park: succeeds exactly on an empty spot, which then holds the
        vehicle; a taken spot keeps the vehicle it has. */
    method Park(vehicle: Vehicle) returns (ok: bool)
      modifies this
      ensures ok <==> old(currentVehicle).None?
      ensures currentVehicle == if ok then Some(vehicle) else old(currentVehicle)
    {
      if currentVehicle.Some? {
        return false;
      }
      currentVehicle := Some(vehicle);
      return true;
    }

    /** unpark: the spot is empty afterwards, whatever it held. */
    method Unpark()
      modifies this
      ensures currentVehicle == None
    {
      currentVehicle := None;
    }

    /** isAvailable: no vehicle is in the spot. */
    predicate IsAvailable()
      reads this
    {
      currentVehicle.None?
    }
  }

  /** A ticket: its id, the vehicle and the spot it was parked in. */
  datatype Ticket = Ticket(id: string, vehicle: Vehicle, spot: ParkingSpot)

  /** What occupies each spot of a list, in list order. */
  ghost function Occupants(spots: seq<ParkingSpot>): (r: seq<Option<Vehicle>>)
    reads set s | s in spots
    ensures |r| == |spots| && forall i :: 0 <= i < |spots| ==> r[i] == spots[i].currentVehicle
  {
    if spots == [] then [] else [spots[0].currentVehicle] + Occupants(spots[1..])
  }

  /** An active ticket filed under plate names a vehicle with that plate,
      and that vehicle is in the ticket's spot. */
  ghost predicate Holds(plate: string, t: Ticket)
    reads t.spot
  {
    t.vehicle.licensePlate == plate && t.spot.currentVehicle == Some(t.vehicle)
  }

  /** The ticket presented matches the active ticket filed under its
      vehicle's plate: one is filed there and its id is the same. */
  predicate Matches(activeTickets: map<string, Ticket>, t: Ticket)
  {
    t.vehicle.licensePlate in activeTickets && activeTickets[t.vehicle.licensePlate].id == t.id
  }

  class ParkingLot {
    var spotsByType: map<SpotType, seq<ParkingSpot>>
    /** Active tickets by licence plate. */
    var activeTickets: map<string, Ticket>
    var ticketCounter: nat
    /** Every spot added to the lot. */
    ghost var spots: set<ParkingSpot>

    ghost predicate Valid()
      reads this, spots
    {
      (forall t :: t in spotsByType)
      && (forall t, i :: 0 <= i < |spotsByType[t]| ==> spotsByType[t][i] in spots && spotsByType[t][i].spotType == t)
      && (forall p :: p in activeTickets ==> activeTickets[p].spot in spots && Holds(p, activeTickets[p]))
    }

    /** A new lot has an empty spot list for every spot type, no active
        ticket, and its ticket counter at 0. */
    constructor ()
      ensures Valid()
      ensures spotsByType == map[Small := [], Medium := [], Large := []]
      ensures activeTickets == map[] && ticketCounter == 0 && spots == {}
    {
      spotsByType := map[Small := [], Medium := [], Large := []];
      activeTickets := map[];
      ticketCounter := 0;
      spots := {};
      new;
      forall t: SpotType
        ensures t in spotsByType
      {
        match t
        case Small =>
        case Medium =>
        case Large =>
      }
    }

    /** addSpot: the spot goes at the end of the list of its type. */
    method AddSpot(spot: ParkingSpot)
      requires Valid()
      modifies this
      ensures Valid()
      ensures spotsByType == old(spotsByType)[spot.spotType := old(spotsByType[spot.spotType]) + [spot]]
      ensures activeTickets == old(activeTickets) && ticketCounter == old(ticketCounter)
      ensures spots == old(spots) + {spot}
    {
      spotsByType := spotsByType[spot.spotType := spotsByType[spot.spotType] + [spot]];
      spots := spots + {spot};
    }

    /** findAvailableSpot: the first spot of the type, in the order added,
        that is available, or None when all are taken. */
    method FindAvailableSpot(t: SpotType) returns (spot: Option<ParkingSpot>)
      requires Valid()
      ensures var k := FirstFree(Occupants(spotsByType[t]));
        (spot.None? <==> k.None?) && (spot.Some? ==> spot.value == spotsByType[t][k.value])
    {
      var list := spotsByType[t];
      var i := 0;
      while i < |list|
        invariant 0 <= i <= |list|
        invariant forall j :: 0 <= j < i ==> list[j].currentVehicle.Some?
      {
        if list[i].IsAvailable() {
          FirstFreeAt(Occupants(list), i);
          return Some(list[i]);
        }
        i := i + 1;
      }
      assert FirstFree(Occupants(list)).None?;
      return None;
    }

    /** getAvailableSpots: how many spots of the type are free. */
    method GetAvailableSpots(t: SpotType) returns (count: int)
      requires Valid()
      ensures count == CountFree(Occupants(spotsByType[t]))
    {
      var list := spotsByType[t];
      ghost var occupants := Occupants(list);
      count := 0;
      var i := |list|;
      while i > 0
        invariant 0 <= i <= |list|
        invariant count == CountFree(occupants[i..])
      {
        i := i - 1;
        assert occupants[i..][1..] == occupants[i + 1..];
        if list[i].IsAvailable() {
          count := count + 1;
        }
      }
    }

    /** getTotalSpots: the number of spots of every type together. */
    method GetTotalSpots() returns (total: int)
      requires Valid()
      ensures total == |spotsByType[Small]| + |spotsByType[Medium]| + |spotsByType[Large]|
    {
      var types := [Small, Medium, Large];
      total := 0;
      for i := 0 to |types|
        invariant total == (if i > 0 then |spotsByType[Small]| else 0)
          + (if i > 1 then |spotsByType[Medium]| else 0) + (if i > 2 then |spotsByType[Large]| else 0)
      {
        total := total + |spotsByType[types[i]]|;
      }
    }

    /** parkVehicle: the vehicle takes the first free spot of the type it
        needs; the counter goes up by one and a ticket with the new id is
        filed under the plate, replacing any ticket filed there before.
        With no free spot nothing changes. */
    method ParkVehicle(vehicle: Vehicle) returns (ticket: Option<Ticket>)
      requires Valid()
      modifies this, spots
      ensures Valid()
      ensures spotsByType == old(spotsByType) && spots == old(spots)
      ensures var list := spotsByType[SpotTypeForVehicle(vehicle.vehicleType)];
        var k := FirstFree(old(Occupants(list)));
        (ticket.None? <==> k.None?)
        && (ticket.None? ==> activeTickets == old(activeTickets) && ticketCounter == old(ticketCounter))
        && (ticket.Some? ==>
              ticket.value == Ticket(TicketName(old(ticketCounter) + 1), vehicle, list[k.value])
              && ticketCounter == old(ticketCounter) + 1
              && activeTickets == old(activeTickets)[vehicle.licensePlate := ticket.value]
              && list[k.value].currentVehicle == Some(vehicle))
      ensures forall s :: s in spots && (ticket.Some? ==> s != ticket.value.spot) ==>
        s.currentVehicle == old(s.currentVehicle)
    {
      var requiredType := SpotTypeForVehicle(vehicle.vehicleType);
      var spot := FindAvailableSpot(requiredType);
      if spot.None? {
        return None;
      }
      var parked := spot.value.Park(vehicle);
      // nothing runs between the search and the park, so the spot is still free
      assert parked;
      ticketCounter := ticketCounter + 1;
      var issued := Ticket(TicketName(ticketCounter), vehicle, spot.value);
      activeTickets := activeTickets[vehicle.licensePlate := issued];
      return Some(issued);
    }

    /** unparkVehicle, releasing the spot of the active ticket: no ticket, or
        one that does not match the active ticket under its plate, changes
        nothing (the source answers -1); otherwise the active ticket's spot
        is emptied and the ticket is no longer active. */
    method UnparkVehicle(ticket: Option<Ticket>) returns (released: bool)
      requires Valid()
      modifies this, spots
      ensures Valid()
      ensures spotsByType == old(spotsByType) && spots == old(spots) && ticketCounter == old(ticketCounter)
      ensures released <==> ticket.Some? && Matches(old(activeTickets), ticket.value)
      ensures !released ==> activeTickets == old(activeTickets)
      ensures released ==>
        var plate := ticket.value.vehicle.licensePlate;
        activeTickets == old(activeTickets) - {plate}
        && old(activeTickets)[plate].spot.currentVehicle == None
      ensures forall s :: s in spots && (released ==> s != old(activeTickets)[ticket.value.vehicle.licensePlate].spot) ==>
        s.currentVehicle == old(s.currentVehicle)
    {
      if ticket.None? {
        return false;
      }
      var plate := ticket.value.vehicle.licensePlate;
      if plate !in activeTickets || activeTickets[plate].id != ticket.value.id {
        return false;
      }
      var active := activeTickets[plate];
      active.spot.Unpark();
      activeTickets := activeTickets - {plate};
      return true;
    }

    /** unparkVehicle as written: the same check, but the spot emptied is the
        one named on the ticket presented. When that is the active ticket's
        spot, as on every ticket the lot issued, the lot stays valid. */
    method UnparkVehicleAsWritten(ticket: Option<Ticket>) returns (released: bool)
      requires Valid()
      modifies this, if ticket.Some? then {ticket.value.spot} else {}
      ensures spotsByType == old(spotsByType) && spots == old(spots) && ticketCounter == old(ticketCounter)
      ensures released <==> ticket.Some? && Matches(old(activeTickets), ticket.value)
      ensures !released ==> activeTickets == old(activeTickets) && Valid()
      ensures released ==>
        activeTickets == old(activeTickets) - {ticket.value.vehicle.licensePlate}
        && ticket.value.spot.currentVehicle == None
      ensures released && ticket.value.spot == old(activeTickets)[ticket.value.vehicle.licensePlate].spot ==> Valid()
    {
      if ticket.None? {
        return false;
      }
      var plate := ticket.value.vehicle.licensePlate;
      if plate !in activeTickets || activeTickets[plate].id != ticket.value.id {
        return false;
      }
      ticket.value.spot.Unpark();
      activeTickets := activeTickets - {plate};
      return true;
    }
  }

  /** A new lot with two empty medium spots, M1 then M2. */
  method TwoMediumSpots() returns (lot: ParkingLot, m1: ParkingSpot, m2: ParkingSpot)
    ensures fresh(lot) && fresh(m1) && fresh(m2) && m1 != m2 && lot.Valid() && lot.spots == {m1, m2}
    ensures lot.spotsByType[Medium] == [m1, m2] && lot.activeTickets == map[] && lot.ticketCounter == 0
    ensures m1.currentVehicle == None && m2.currentVehicle == None
  {
    lot := new ParkingLot();
    m1 := new ParkingSpot("M1", Medium);
    m2 := new ParkingSpot("M2", Medium);
    lot.AddSpot(m1);
    lot.AddSpot(m2);
  }

  /** Two medium spots M1 and M2, with car 1 parked in M1 on ticket T-1 and
      car 2 in M2 on ticket T-2. */
  method TwoCarsParked() returns (lot: ParkingLot, m1: ParkingSpot, m2: ParkingSpot, t1: Ticket, t2: Ticket)
    ensures fresh(lot) && fresh(m1) && fresh(m2) && m1 != m2 && lot.Valid() && lot.spots == {m1, m2}
    ensures t1 == Ticket(TicketName(1), Vehicle("CAR-001", Car), m1)
    ensures t2 == Ticket(TicketName(2), Vehicle("CAR-002", Car), m2)
    ensures lot.activeTickets == map["CAR-001" := t1, "CAR-002" := t2]
  {
    lot, m1, m2 := TwoMediumSpots();
    var car1 := Vehicle("CAR-001", Car);
    assert Occupants([m1, m2]) == [None, None];
    var p1 := lot.ParkVehicle(car1);
    t1 := p1.value;
    assert Occupants([m1, m2]) == [Some(car1), None];
    var p2 := lot.ParkVehicle(Vehicle("CAR-002", Car));
    t2 := p2.value;
  }

  /** A copied ticket with car 1's id and plate but car 2's spot, presented
      to the lot as written, empties car 2's spot while car 2's ticket stays
      active: the lot no longer holds the vehicle its active ticket names. */
  method ForgedTicketFreesAnotherSpot() returns (lot: ParkingLot, released: bool)
    ensures released && !lot.Valid()
  {
    var m1, m2, t1, t2;
    lot, m1, m2, t1, t2 := TwoCarsParked();
    released := lot.UnparkVehicleAsWritten(Some(Ticket(t1.id, t1.vehicle, m2)));
    assert lot.activeTickets["CAR-002"] == t2 && m2.currentVehicle == None;
    assert !Holds("CAR-002", lot.activeTickets["CAR-002"]);
  }

  /** The same copied ticket against the corrected unpark releases car 1's
      own spot and leaves car 2 parked. */
  method ForgedTicketReleasesOwnSpot() returns (lot: ParkingLot, released: bool, m2: ParkingSpot)
    ensures released && lot.Valid() && m2.currentVehicle == Some(Vehicle("CAR-002", Car))
  {
    var m1, t1, t2;
    lot, m1, m2, t1, t2 := TwoCarsParked();
    assert "CAR-002" in lot.activeTickets && Holds("CAR-002", lot.activeTickets["CAR-002"]);
    var copy := Ticket(t1.id, t1.vehicle, m2);
    assert copy.vehicle.licensePlate == "CAR-001" && lot.activeTickets["CAR-001"].spot == m1;
    released := lot.UnparkVehicle(Some(copy));
  }

  /** A new lot with one empty large spot. */
  method OneLargeSpot() returns (lot: ParkingLot, l1: ParkingSpot)
    ensures fresh(lot) && fresh(l1) && lot.Valid() && lot.spots == {l1}
    ensures lot.spotsByType[Large] == [l1] && lot.activeTickets == map[] && lot.ticketCounter == 0
    ensures l1.currentVehicle == None
  {
    lot := new ParkingLot();
    l1 := new ParkingSpot("L1", Large);
    lot.AddSpot(l1);
  }

  /** The first truck parked in that spot, on ticket T-1. */
  method FirstTruckParked() returns (lot: ParkingLot, l1: ParkingSpot, first: Option<Ticket>)
    ensures fresh(lot) && fresh(l1) && lot.Valid() && lot.spots == {l1} && lot.spotsByType[Large] == [l1]
    ensures first == Some(Ticket(TicketName(1), Vehicle("TRUCK-001", Truck), l1))
    ensures lot.activeTickets == map["TRUCK-001" := first.value] && lot.ticketCounter == 1
    ensures l1.currentVehicle == Some(Vehicle("TRUCK-001", Truck))
  {
    lot, l1 := OneLargeSpot();
    assert Occupants([l1]) == [None];
    first := lot.ParkVehicle(Vehicle("TRUCK-001", Truck));
  }

  /** The demo's capacity test on its single large spot: a second truck is
      refused while the first is parked and takes the spot, on ticket T-2,
      once the first has left; the first truck's ticket is then refused. */
  method CapacityDemo() returns (refused: Option<Ticket>, second: Option<Ticket>, reused: bool)
    ensures refused.None? && second.Some? && second.value.id == TicketName(2) && !reused
  {
    var lot, l1, first := FirstTruckParked();
    var truck2 := Vehicle("TRUCK-002", Truck);
    assert Occupants([l1]) == [Some(Vehicle("TRUCK-001", Truck))];
    refused := lot.ParkVehicle(truck2);
    var released := lot.UnparkVehicle(first);
    assert Occupants([l1]) == [None];
    second := lot.ParkVehicle(truck2);
    reused := lot.UnparkVehicle(first);
  }
}
