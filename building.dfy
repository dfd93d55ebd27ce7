/**
 * The building: its floor count, its fleet of cars, and the registry of
 * outstanding calls made from the floors.
 *
 * The fleet is kept in the order the cars were added; each car's id is the
 * car count at the time it was added, so ids increase along the fleet.
 */
module BuildingFleet {
  import opened ElevatorCar

  class Building {
    var rootRequests: map<RequestId, Request>
    var floors: int
    var elevatorCount: int
    var elevators: seq<Elevator>

    /** Every car is consistent, and car ids increase along the fleet up to the count. */
    ghost predicate Valid()
      reads this, elevators
    {
      && (forall i :: 0 <= i < |elevators| ==> elevators[i].Valid())
      && (forall i, j :: 0 <= i < j < |elevators| ==> elevators[i].id < elevators[j].id)
      && (forall i :: 0 <= i < |elevators| ==> elevators[i].id <= elevatorCount)
    }

    /** The count of cars is recorded, but no car is created. */
    constructor (floors: int, elevators: int)
      ensures Valid()
      ensures this.floors == floors && elevatorCount == elevators
      ensures this.elevators == [] && rootRequests == map[]
    {
      this.floors := floors;
      elevatorCount := elevators;
      this.elevators := [];
      rootRequests := map[];
    }

    method AddAFloor()
      modifies this`floors
      ensures floors == old(floors) + 1
    {
      floors := floors + 1;
    }

    /**
     * Appends a new stopped car, numbered with the incremented count, that
     * serves the floors from 0 to the building's floor count.
     */
    method AddAnElevator()
      requires Valid() && floors > 0
      modifies this`elevatorCount, this`elevators
      ensures Valid()
      ensures elevatorCount == old(elevatorCount) + 1
      ensures |elevators| == |old(elevators)| + 1 && elevators[..|old(elevators)|] == old(elevators)
      ensures fresh(elevators[|old(elevators)|])
      ensures var e := elevators[|old(elevators)|];
        && e.id == elevatorCount && e.floorLowerLimit == 0 && e.floorUpperLimit == floors
        && e.currentFloor == 0 && e.direction && e.status == Stopped && e.doorStatus == Closed
        && !e.interruptDoorClose && e.requests == map[] && e.armed == {}
    {
      elevatorCount := elevatorCount + 1;
      var elevator := new Elevator(elevatorCount, 0, floors);
      elevators := elevators + [elevator];
    }

    /** Removes every reported request from the registry; absent ids are ignored. */
    method ElevatorRequestCompleted(request: seq<(RequestId, Request)>)
      modifies this`rootRequests
      ensures rootRequests == old(rootRequests) - (set i | 0 <= i < |request| :: request[i].0)
    {
      var i := 0;
      while i < |request|
        invariant 0 <= i <= |request|
        invariant rootRequests == old(rootRequests) - (set j | 0 <= j < i :: request[j].0)
      {
        rootRequests := rootRequests - {request[i].0};
        i := i + 1;
      }
    }

    /** The position in the fleet of the first car with this id, if any. */
    method FindElevator(elevatorId: int) returns (index: Option<nat>)
      ensures index.Some? ==> index.value < |elevators| && elevators[index.value].id == elevatorId
      ensures index.Some? ==> forall j :: 0 <= j < index.value ==> elevators[j].id != elevatorId
      ensures index.None? <==> forall j :: 0 <= j < |elevators| ==> elevators[j].id != elevatorId
    {
      var i := 0;
      while i < |elevators|
        invariant 0 <= i <= |elevators|
        invariant forall j :: 0 <= j < i ==> elevators[j].id != elevatorId
      {
        if elevators[i].id == elevatorId {
          return Some(i);
        }
        i := i + 1;
      }
      return None;
    }

    /**
     * Sets the upper limit of the car with this id, then its lower limit,
     * which is rejected when it is not below the new upper limit. A rejected
     * call keeps the new upper limit and the old lower limit.
     */
    method AdjustFloor(elevatorId: int, lowerLimit: int, upperLimit: int) returns (outcome: Outcome)
      requires Valid()
      requires exists i :: 0 <= i < |elevators| && elevators[i].id == elevatorId
      modifies elevators`floorUpperLimit, elevators`floorLowerLimit
      ensures Valid()
      ensures forall i :: 0 <= i < |elevators| && elevators[i].id == elevatorId ==>
        && elevators[i].floorUpperLimit == upperLimit
        && (lowerLimit < upperLimit ==> outcome == Pass && elevators[i].floorLowerLimit == lowerLimit)
        && (lowerLimit >= upperLimit ==>
              outcome == Fail(InvalidConfiguration) && elevators[i].floorLowerLimit == old(elevators[i].floorLowerLimit))
      ensures forall i :: 0 <= i < |elevators| && elevators[i].id != elevatorId ==>
        && elevators[i].floorUpperLimit == old(elevators[i].floorUpperLimit)
        && elevators[i].floorLowerLimit == old(elevators[i].floorLowerLimit)
    {
      var index := FindElevator(elevatorId);
      var k := index.value;
      var elevator := elevators[k];
      elevator.SetFloorUpperLimit(upperLimit);
      outcome := elevator.SetFloorLowerLimit(lowerLimit);
    }

    /**
     * Registers a call from a floor under a fresh id and hands it to the
     * (empty) assignment step. A fresh id grows the registry by one entry.
     */
    method SignalElevatorFromOutside(request: Request, newId: RequestId)
      modifies this`rootRequests
      ensures newId in old(rootRequests) ==> rootRequests == old(rootRequests)
      ensures newId !in old(rootRequests) ==>
        rootRequests == old(rootRequests)[newId := request] && |rootRequests| == |old(rootRequests)| + 1
    {
      if newId !in rootRequests {
        rootRequests := rootRequests[newId := request];
      }
      AssignElevator(request);
    }

    /** Assignment of a call to a car: not implemented, so it changes nothing. */
    method AssignElevator(request: Request)
      ensures unchanged(this) && unchanged(elevators)
    {
    }
  }
}
