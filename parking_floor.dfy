/** A floor of the multi-level parking lot: its spots, each of which knows
    whether it is free, a first-in first-out queue of free spots per spot
    type, and the spots handed out, filed under their ids. */
module ParkingFloors {
  import opened Wrappers

  datatype VehicleType = Car | Truck | Bike | Electric

  datatype SpotType = Compact | Large | Motorcycle | Electric | Handicapped

  datatype Vehicle = Vehicle(licensePlate: string, vehicleType: VehicleType)

  class ParkingSpot {
    const id: string
    const spotType: SpotType
    var isFree: bool
    var currentVehicle: Option<Vehicle>

    /** The free flag says exactly whether no vehicle is in the spot. */
    ghost predicate Valid()
      reads this
    {
      isFree <==> currentVehicle.None?
    }

    /** A new spot is free and empty. */
    constructor (id: string, spotType: SpotType)
      ensures this.id == id && this.spotType == spotType
      ensures isFree && currentVehicle == None && Valid()
    {
      this.id := id;
      this.spotType := spotType;
      isFree := true;
      currentVehicle := None;
    }

    /** assignVehicle: succeeds exactly on a free spot, which then holds the
        vehicle and is taken; a taken spot is left as it is. */
    method AssignVehicle(vehicle: Vehicle) returns (ok: bool)
      modifies this
      ensures ok <==> old(isFree)
      ensures ok ==> currentVehicle == Some(vehicle) && !isFree
      ensures !ok ==> currentVehicle == old(currentVehicle) && isFree == old(isFree)
      ensures old(Valid()) ==> Valid()
    {
      if !isFree {
        return false;
      }
      currentVehicle := Some(vehicle);
      isFree := false;
      return true;
    }

    /** removeVehicle: succeeds exactly on a taken spot, which is then free
        and empty; a free spot is left as it is. */
    method RemoveVehicle() returns (ok: bool)
      modifies this
      ensures ok <==> !old(isFree)
      ensures ok ==> currentVehicle == None && isFree
      ensures !ok ==> currentVehicle == old(currentVehicle) && isFree == old(isFree)
      ensures old(Valid()) ==> Valid()
    {
      if isFree {
        return false;
      }
      currentVehicle := None;
      isFree := true;
      return true;
    }

    /** isFree: on a valid spot, exactly when no vehicle is in it. */
    function IsFree(): (free: bool)
      reads this
      ensures Valid() ==> (free <==> currentVehicle.None?)
    {
      isFree
    }
  }

  /** A floor's bookkeeping is consistent: every spot type has a queue, each
      queue holds spots of its own type, no two queued spots share an id, no
      queued spot's id is filed as occupied, and each occupied spot is filed
      under its id. So no spot is both queued as free and recorded as
      occupied. */
  ghost predicate Consistent(free: map<SpotType, seq<ParkingSpot>>, occupied: map<string, ParkingSpot>)
  {
    (forall t :: t in free)
    && (forall t, i :: 0 <= i < |free[t]| ==> free[t][i].spotType == t && free[t][i].id !in occupied)
    && (forall t, i, u, j :: 0 <= i < |free[t]| && 0 <= j < |free[u]| && (t != u || i != j) ==>
          free[t][i].id != free[u][j].id)
    && (forall id :: id in occupied ==> occupied[id].id == id)
  }

  /** Queuing a spot whose id is new keeps the bookkeeping consistent. */
  lemma AddKeepsConsistent(free: map<SpotType, seq<ParkingSpot>>, occupied: map<string, ParkingSpot>, spot: ParkingSpot)
    requires Consistent(free, occupied) && spot.id !in occupied
    requires forall t, i :: 0 <= i < |free[t]| ==> free[t][i].id != spot.id
    ensures Consistent(free[spot.spotType := free[spot.spotType] + [spot]], occupied)
  {
    var free': map<SpotType, seq<ParkingSpot>> := free[spot.spotType := free[spot.spotType] + [spot]];
    forall t: SpotType, i: int, u: SpotType, j: int | 0 <= i < |free'[t]| && 0 <= j < |free'[u]| && (t != u || i != j)
      ensures free'[t][i].id != free'[u][j].id
    {
      if t == spot.spotType && i == |free[t]| {
      } else if u == spot.spotType && j == |free[u]| {
      } else {
        assert free'[t][i] == free[t][i] && free'[u][j] == free[u][j];
      }
    }
  }

  /** Taking the head of a non-empty queue and filing it as occupied keeps
      the bookkeeping consistent. */
  lemma TakeKeepsConsistent(free: map<SpotType, seq<ParkingSpot>>, occupied: map<string, ParkingSpot>, t: SpotType)
    requires Consistent(free, occupied) && free[t] != []
    ensures Consistent(free[t := free[t][1..]], occupied[free[t][0].id := free[t][0]])
  {
    var head := free[t][0];
    var free': map<SpotType, seq<ParkingSpot>> := free[t := free[t][1..]];
    forall u: SpotType, i: int | 0 <= i < |free'[u]|
      ensures free'[u][i].id != head.id
    {
      if u == t {
        assert free'[u][i] == free[t][i + 1];
      }
    }
  }

  /** Unfiling an occupied id and queuing the spot keeps the bookkeeping
      consistent. */
  lemma ReturnKeepsConsistent(free: map<SpotType, seq<ParkingSpot>>, occupied: map<string, ParkingSpot>, spot: ParkingSpot)
    requires Consistent(free, occupied) && spot.id in occupied
    ensures Consistent(free[spot.spotType := free[spot.spotType] + [spot]], occupied - {spot.id})
  {
    AddKeepsConsistent(free, occupied - {spot.id}, spot);
  }

  class ParkingFloor {
    const floorId: string
    /** The queue of free spots of each type, head first. */
    var freeSpots: map<SpotType, seq<ParkingSpot>>
    /** The spots handed out, by id. */
    var occupiedSpots: map<string, ParkingSpot>

    /** Every spot type has a queue. */
    ghost predicate Stocked()
      reads this
    {
      forall t :: t in freeSpots
    }

    /** The floor's bookkeeping is consistent (see Consistent). */
    ghost predicate Valid()
      reads this
    {
      Consistent(freeSpots, occupiedSpots)
    }

    /** No spot id is queued as free, nor filed as occupied, on the floor. */
    ghost predicate NewHere(spot: ParkingSpot)
      reads this
    {
      spot.id !in occupiedSpots
      && forall t, i :: t in freeSpots && 0 <= i < |freeSpots[t]| ==> freeSpots[t][i].id != spot.id
    }

    /** A new floor has an empty queue for every spot type and nothing
        occupied. */
    constructor (floorId: string)
      ensures this.floorId == floorId && Valid()
      ensures forall t :: freeSpots[t] == []
      ensures occupiedSpots == map[]
    {
      this.floorId := floorId;
      freeSpots := map[Compact := [], Large := [], Motorcycle := [], SpotType.Electric := [], Handicapped := []];
      occupiedSpots := map[];
      new;
      forall t: SpotType
        ensures t in freeSpots
      {
        match t
        case Compact =>
        case Large =>
        case Motorcycle =>
        case Electric =>
        case Handicapped =>
      }
    }

    /** addSpot: the spot joins the tail of its type's queue. A spot whose
        id is new on the floor keeps the floor consistent. */
    method AddSpot(spot: ParkingSpot)
      requires Stocked()
      modifies this
      ensures Stocked()
      ensures freeSpots == old(freeSpots)[spot.spotType := old(freeSpots[spot.spotType]) + [spot]]
      ensures occupiedSpots == old(occupiedSpots)
      ensures old(Valid()) && old(NewHere(spot)) ==> Valid()
    {
      if Valid() && NewHere(spot) {
        AddKeepsConsistent(freeSpots, occupiedSpots, spot);
      }
      freeSpots := freeSpots[spot.spotType := freeSpots[spot.spotType] + [spot]];
    }

    /** getSpot: with an empty queue, None and nothing changes; otherwise the
        head of the queue is taken off it and filed as occupied. The spot's
        own free flag is not touched. */
    method GetSpot(t: SpotType) returns (spot: Option<ParkingSpot>)
      requires Stocked()
      modifies this
      ensures Stocked()
      ensures spot.None? <==> !old(HasSpace(t))
      ensures spot.None? ==> unchanged(this)
      ensures spot.Some? ==>
        spot.value == old(freeSpots[t][0])
        && freeSpots == old(freeSpots)[t := old(freeSpots[t][1..])]
        && occupiedSpots == old(occupiedSpots)[spot.value.id := spot.value]
      ensures old(Valid()) ==> Valid()
    {
      var spots := freeSpots[t];
      if |spots| == 0 {
        return None;
      }
      var head := spots[0];
      if Valid() {
        TakeKeepsConsistent(freeSpots, occupiedSpots, t);
      }
      freeSpots := freeSpots[t := spots[1..]];
      occupiedSpots := occupiedSpots[head.id := head];
      return Some(head);
    }

    /** returnSpot: a spot whose id is filed as occupied is unfiled, has its
        vehicle removed and joins the tail of its type's queue; any other
        spot leaves the floor and the spot as they are. */
    method ReturnSpot(spot: ParkingSpot)
      requires Stocked()
      modifies this, spot
      ensures Stocked()
      ensures spot.id !in old(occupiedSpots) ==>
        freeSpots == old(freeSpots) && occupiedSpots == old(occupiedSpots)
        && spot.isFree == old(spot.isFree) && spot.currentVehicle == old(spot.currentVehicle)
      ensures spot.id in old(occupiedSpots) ==>
        occupiedSpots == old(occupiedSpots) - {spot.id}
        && freeSpots == old(freeSpots)[spot.spotType := old(freeSpots[spot.spotType]) + [spot]]
        && spot.isFree
        && spot.currentVehicle == if old(spot.isFree) then old(spot.currentVehicle) else None
      ensures old(spot.Valid()) ==> spot.Valid()
      ensures old(Valid()) ==> Valid()
    {
      if spot.id in occupiedSpots {
        if Valid() {
          ReturnKeepsConsistent(freeSpots, occupiedSpots, spot);
        }
        occupiedSpots := occupiedSpots - {spot.id};
        var _ := spot.RemoveVehicle();
        freeSpots := freeSpots[spot.spotType := freeSpots[spot.spotType] + [spot]];
      }
    }

    /** hasSpace: the type's queue is not empty. */
    predicate HasSpace(t: SpotType)
      requires Stocked()
      reads this
    {
      freeSpots[t] != []
    }
  }

  /** On a consistent floor no spot is both queued as free and filed as
      occupied. */
  lemma FreeAndOccupiedApart(floor: ParkingFloor, t: SpotType, i: int, id: string)
    requires floor.Valid() && 0 <= i < |floor.freeSpots[t]| && id in floor.occupiedSpots
    ensures floor.freeSpots[t][i] != floor.occupiedSpots[id]
  {
  }

  /** A floor with one compact spot, after the spot is handed out and
      returned, has it queued again and nothing occupied; returning it a
      second time changes nothing. */
  method HandOutAndReturn() returns (floor: ParkingFloor, c1: ParkingSpot, again: Option<ParkingSpot>)
    ensures floor.Valid() && floor.freeSpots[Compact] == [c1] && floor.occupiedSpots == map[]
    ensures again.None?
  {
    floor := new ParkingFloor("F1");
    c1 := new ParkingSpot("C1", Compact);
    floor.AddSpot(c1);
    var taken := floor.GetSpot(Compact);
    again := floor.GetSpot(Compact);
    floor.ReturnSpot(c1);
    floor.ReturnSpot(c1);
  }
}
