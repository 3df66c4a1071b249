/** Direction-aware dispatch: each car gets an integer cost for a hall call
    and the call goes to the cheapest car. */
module ElevatorV2Dispatch {
  import opened Wrappers
  import opened ElevatorV2Model

  /** The penalty for a car that is busy elsewhere. */
  const Penalty := 1000

  /** The cost of sending a car at carFloor moving carDir to a call at floor going reqDir. */
  function Score(carFloor: int, carDir: Direction, floor: int, reqDir: Direction): int
  {
    var distance := Abs(carFloor - floor);
    if carDir == Idle then distance
    else if carDir == reqDir && carDir == Up && carFloor <= floor then distance
    else if carDir == reqDir && carDir == Down && carFloor >= floor then distance
    else distance + Penalty
  }

  /** The car is travelling towards the call in the call's direction. */
  predicate OnTheWay(carFloor: int, carDir: Direction, floor: int, reqDir: Direction)
  {
    carDir == reqDir && ((carDir == Up && carFloor <= floor) || (carDir == Down && carFloor >= floor))
  }

  /** The score is the plain distance for an idle or on-the-way car and the
      distance plus the penalty for every other car, so such a car is always
      preferred over a busy one that is fewer than Penalty floors closer. */
  lemma ScoreCases(carFloor: int, carDir: Direction, floor: int, reqDir: Direction)
    ensures carDir == Idle || OnTheWay(carFloor, carDir, floor, reqDir) ==>
      Score(carFloor, carDir, floor, reqDir) == Abs(carFloor - floor)
    ensures !(carDir == Idle || OnTheWay(carFloor, carDir, floor, reqDir)) ==>
      Score(carFloor, carDir, floor, reqDir) == Abs(carFloor - floor) + Penalty
  {
  }

  function ScoreOf(e: Elevator, floor: int, reqDir: Direction): int
    reads e
  {
    Score(e.currentFloor, e.direction, floor, reqDir)
  }

  /** Some car scores below Integer.MAX_VALUE, so the scan selects one. */
  predicate Selectable(cars: seq<Elevator>, floor: int, reqDir: Direction)
    reads cars
  {
    exists i :: 0 <= i < |cars| && ScoreOf(cars[i], floor, reqDir) < IntMax
  }

  /** Index k holds the first car of minimal score. */
  predicate IsFirstBest(cars: seq<Elevator>, k: int, floor: int, reqDir: Direction)
    reads cars
  {
    && 0 <= k < |cars|
    && ScoreOf(cars[k], floor, reqDir) < IntMax
    && (forall j :: 0 <= j < k ==> ScoreOf(cars[j], floor, reqDir) > ScoreOf(cars[k], floor, reqDir))
    && (forall j :: k < j < |cars| ==> ScoreOf(cars[j], floor, reqDir) >= ScoreOf(cars[k], floor, reqDir))
  }

  /** At most one index is the first best. */
  lemma FirstBestUnique(cars: seq<Elevator>, k: int, k': int, floor: int, reqDir: Direction)
    requires IsFirstBest(cars, k, floor, reqDir) && IsFirstBest(cars, k', floor, reqDir)
    ensures k == k'
  {
  }

  /** The arg-min scan: a car of minimal score, the earliest one on ties,
      or None when no car scores below Integer.MAX_VALUE (an empty list). */
  method SelectElevator(cars: seq<Elevator>, floor: int, reqDir: Direction)
    returns (best: Option<Elevator>, ghost index: int)
    ensures best.None? <==> !Selectable(cars, floor, reqDir)
    ensures best.Some? ==> IsFirstBest(cars, index, floor, reqDir) && best.value == cars[index]
  {
    best := None;
    index := -1;
    var bestScore := IntMax;
    for i := 0 to |cars|
      invariant best.None? <==> index == -1
      invariant best.None? ==> bestScore == IntMax
      invariant best.Some? ==> 0 <= index < i && best.value == cars[index] && bestScore == ScoreOf(cars[index], floor, reqDir)
      invariant bestScore <= IntMax
      invariant forall j :: 0 <= j < i ==> ScoreOf(cars[j], floor, reqDir) >= bestScore
      invariant best.Some? ==> forall j :: 0 <= j < index ==> ScoreOf(cars[j], floor, reqDir) > bestScore
      invariant best.Some? ==> bestScore < IntMax
    {
      var score := Score(cars[i].currentFloor, cars[i].direction, floor, reqDir);
      if score < bestScore {
        bestScore := score;
        best := Some(cars[i]);
        index := i;
      }
    }
  }
}
