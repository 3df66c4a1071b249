/** The nearest-first assignment strategy: the first floor, in the order
    given, with a free spot of the type the vehicle needs hands that spot
    out. */
module NearestFirst {
  import opened Wrappers
  import opened ParkingFloors

  /** getSpotTypeForVehicle: a car needs a compact spot, a truck a large
      one, a bike a motorcycle spot and an electric vehicle an electric
      spot. */
  function SpotTypeForVehicle(t: VehicleType): SpotType
  {
    match t
    case Car => Compact
    case Truck => Large
    case Bike => Motorcycle
    case Electric => SpotType.Electric
  }

  /** Different vehicle types need different spot types, and no vehicle
      type is sent to a handicapped spot. */
  lemma SpotTypesForVehicles(t: VehicleType, u: VehicleType)
    ensures SpotTypeForVehicle(t) == SpotTypeForVehicle(u) ==> t == u
    ensures SpotTypeForVehicle(t) != Handicapped
  {
  }

  /** The floors, as a set, for frames. */
  function FloorSet(floors: seq<ParkingFloor>): set<ParkingFloor>
  {
    set i | 0 <= i < |floors| :: floors[i]
  }

  /** findSpot: the floors are asked in list order; the first one whose
      queue for the needed type is not empty hands out its head, and the
      floors before it had empty queues. When no floor has a spot of the
      type the answer is None. Only the floor that hands out a spot
      changes. */
  method FindSpot(floors: seq<ParkingFloor>, vehicleType: VehicleType) returns (spot: Option<ParkingSpot>, ghost k: int)
    requires forall i :: 0 <= i < |floors| ==> floors[i].Stocked()
    modifies FloorSet(floors)
    ensures forall i :: 0 <= i < |floors| ==> floors[i].Stocked()
    ensures var t := SpotTypeForVehicle(vehicleType);
      (spot.None? <==> forall i :: 0 <= i < |floors| ==> !old(floors[i].HasSpace(t)))
      && (spot.None? ==> forall i :: 0 <= i < |floors| ==> unchanged(floors[i]))
      && (spot.Some? ==>
            0 <= k < |floors|
            && (forall i :: 0 <= i < k ==> !old(floors[i].HasSpace(t)))
            && old(floors[k].HasSpace(t))
            && spot.value == old(floors[k].freeSpots[t][0])
            && floors[k].freeSpots == old(floors[k].freeSpots)[t := old(floors[k].freeSpots[t][1..])]
            && floors[k].occupiedSpots == old(floors[k].occupiedSpots)[spot.value.id := spot.value]
            && forall i :: 0 <= i < |floors| && floors[i] != floors[k] ==> unchanged(floors[i]))
    ensures forall i :: 0 <= i < |floors| && old(floors[i].Valid()) ==> floors[i].Valid()
  {
    var t := SpotTypeForVehicle(vehicleType);
    k := -1;
    var i := 0;
    while i < |floors|
      invariant 0 <= i <= |floors|
      invariant forall j :: 0 <= j < |floors| ==> unchanged(floors[j])
      invariant forall j :: 0 <= j < i ==> floors[j].freeSpots[t] == []
    {
      var found := floors[i].GetSpot(t);
      if found.Some? {
        k := i;
        return found, k;
      }
      i := i + 1;
    }
    return None, k;
  }

  /** A new floor with compact spots C1 and C2 queued in that order. */
  method CompactFloor() returns (f2: ParkingFloor, c1: ParkingSpot, c2: ParkingSpot)
    ensures fresh(f2) && f2.Valid() && f2.freeSpots[Compact] == [c1, c2]
  {
    f2 := new ParkingFloor("F2");
    c1 := new ParkingSpot("C1", Compact);
    c2 := new ParkingSpot("C2", Compact);
    assert f2.NewHere(c1);
    f2.AddSpot(c1);
    assert f2.freeSpots[Compact] == [c1];
    assert f2.NewHere(c2) by {
      forall t, i | t in f2.freeSpots && 0 <= i < |f2.freeSpots[t]|
        ensures f2.freeSpots[t][i].id != c2.id
      {
        assert t == Compact && f2.freeSpots[t][i] == c1;
        assert c1.id[1] != c2.id[1];
      }
    }
    f2.AddSpot(c2);
  }

  /** Two new floors, the first with no spot and the second with compact
      spots C1 and C2 queued in that order. */
  method TwoFloors() returns (f1: ParkingFloor, f2: ParkingFloor, c1: ParkingSpot, c2: ParkingSpot)
    ensures fresh(f1) && fresh(f2) && f1.Stocked() && !f1.HasSpace(Compact)
    ensures f2.Valid() && f2.freeSpots[Compact] == [c1, c2]
  {
    f1 := new ParkingFloor("F1");
    f2, c1, c2 := CompactFloor();
  }

  /** On those two floors a car gets C1 from the second floor, which keeps
      C2 queued and stays consistent. */
  method SecondFloorServes() returns (spot: Option<ParkingSpot>, c1: ParkingSpot, c2: ParkingSpot, f2: ParkingFloor)
    ensures spot == Some(c1) && f2.Valid() && f2.freeSpots[Compact] == [c2]
  {
    var f1;
    f1, f2, c1, c2 := TwoFloors();
    ghost var k;
    spot, k := FindSpot([f1, f2], Car);
    assert [f1, f2][1] == f2;
  }
}
