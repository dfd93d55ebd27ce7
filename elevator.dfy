/**
 * One elevator car: its floor, direction, door and operational state, its
 * private queue of requests, and the four one-shot timers whose elapsed
 * handlers drive it (close, move, door opening, open hold).
 *
 * A timer is modelled by whether it is armed: starting it adds it to `armed`,
 * stopping it removes it, and `TimerElapsed` fires an armed timer, which
 * disarms it first (the timers are one-shot) and then runs its handler as one
 * atomic step.
 */
module ElevatorCar {

  /** The identifier of a request (a Guid in the system). */
  type RequestId = int

  datatype Option<T> = None | Some(value: T)

  /** The result of a validated setter; the system throws where this is `Fail`. */
  datatype Outcome = Pass | Fail(message: string)

  const InvalidConfiguration: string := "Invalid Elevator configuration"

  /** A call for a car; `direction` true means up. */
  datatype Request = Request(elevatorId: int, direction: bool, floor: int, fromInside: bool)

  datatype DoorState = Open | Opening | Closed | Closing

  datatype ElevatorState = Stopped | Working

  /** The four one-shot timers of a car. */
  datatype Timer = MoveToFloorDelay | DoorOpeningDelay | DoorOpenDelay | DoorClosingDelay

  /** The position notification a car emits after each move. */
  datatype Position = Position(liftId: int, direction: bool, nextFloor: int)

  /** Direction and floor of a car, the part of its state a move changes. */
  datatype Motion = Motion(up: bool, floor: int)

  function Distance(a: int, b: int): (d: nat)
    ensures d == a - b || d == b - a
  {
    if a < b then b - a else a - b
  }

  /** The direction after the limit check: it reverses only at a limit it points beyond. */
  function TurnAtLimit(up: bool, floor: int, lower: int, upper: int): (next: bool)
    ensures lower < floor < upper ==> next == up
    ensures InLimits(floor, lower, upper) ==> (next ==> floor < upper) && (!next ==> lower < floor)
  {
    if (up && floor == upper) || (!up && floor == lower) then !up else up
  }

  /** One move of the car: the limit check, then one floor in the resulting direction. */
  function Move(m: Motion, lower: int, upper: int): (next: Motion)
    ensures next.floor == m.floor + 1 || next.floor == m.floor - 1
    ensures next.up <==> next.floor > m.floor
    ensures lower < m.floor < upper ==> next.up == m.up
    ensures lower < upper && lower <= m.floor <= upper ==> lower <= next.floor <= upper
  {
    var up := TurnAtLimit(m.up, m.floor, lower, upper);
    Motion(up, if up then m.floor + 1 else m.floor - 1)
  }

  /** `n` successive moves without stopping. */
  function Sweep(n: nat, m: Motion, lower: int, upper: int): Motion
    decreases n
  {
    if n == 0 then m else Sweep(n - 1, Move(m, lower, upper), lower, upper)
  }

  predicate InLimits(floor: int, lower: int, upper: int)
  {
    lower < upper && lower <= floor <= upper
  }

  /** Some queued request is for this floor and this direction. */
  predicate HasStopFor(rs: map<RequestId, Request>, up: bool, floor: int)
  {
    exists k :: k in rs && rs[k].direction == up && rs[k].floor == floor
  }

  /** Some queued request was made from inside the car. */
  predicate HasInsideRequest(rs: map<RequestId, Request>)
  {
    exists k :: k in rs && rs[k].fromInside
  }

  /** Some queued request is for this floor, in either direction. */
  predicate HasRequestAt(rs: map<RequestId, Request>, floor: int)
  {
    exists k :: k in rs && rs[k].floor == floor
  }

  /**
   * The stop rule after a move: a request for this floor in the direction of
   * travel, or, once no inside request is queued, a request for this floor in
   * either direction.
   */
  predicate ShouldStop(rs: map<RequestId, Request>, up: bool, floor: int)
    ensures ShouldStop(rs, up, floor) ==> HasRequestAt(rs, floor)
    ensures HasRequestAt(rs, floor) && !ShouldStop(rs, up, floor) ==> HasInsideRequest(rs)
  {
    HasStopFor(rs, up, floor) || (!HasInsideRequest(rs) && HasRequestAt(rs, floor))
  }

  /** The requests served when the door opens at `floor`. */
  function ServedAt(rs: map<RequestId, Request>, floor: int): (served: map<RequestId, Request>)
    ensures served.Keys <= rs.Keys
    ensures forall k :: k in served ==> served[k] == rs[k] && rs[k].floor == floor
  {
    map k | k in rs && rs[k].floor == floor :: rs[k]
  }

  /** The requests still queued after the door opens at `floor`. */
  function RemainingAfter(rs: map<RequestId, Request>, floor: int): (remaining: map<RequestId, Request>)
    ensures remaining.Keys <= rs.Keys
    ensures forall k :: k in remaining ==> remaining[k] == rs[k] && rs[k].floor != floor
  {
    map k | k in rs && rs[k].floor != floor :: rs[k]
  }

  class Elevator {
    const id: int
    var floorUpperLimit: int
    var floorLowerLimit: int
    var direction: bool
    var currentFloor: int
    var doorStatus: DoorState
    var status: ElevatorState
    var interruptDoorClose: bool
    var requests: map<RequestId, Request>
    /** The timers started and neither elapsed nor stopped since. */
    var armed: set<Timer>

    /**
     * A stopped car holds no request and at most the open-hold timer (which a
     * call at its own floor can start without starting the car).
     */
    ghost predicate Valid()
      reads this
    {
      status == Stopped ==> requests == map[] && armed <= {DoorOpenDelay}
    }

    predicate InRange()
      reads this
    {
      InLimits(currentFloor, floorLowerLimit, floorUpperLimit)
    }

    /** The effect of starting the job in direction `up` (the close step runs at once). */
    twostate predicate JobStarted(up: bool)
      reads this
    {
      && status == Working
      && direction == TurnAtLimit(up, currentFloor, floorLowerLimit, floorUpperLimit)
      && !interruptDoorClose
      && if old(interruptDoorClose)
         then doorStatus == Opening && armed == old(armed) + {DoorOpeningDelay}
         else doorStatus == Closed && armed == old(armed) + {MoveToFloorDelay}
    }

    /** The limits are not checked here: callers must pass `lowerLimit < upperLimit`. */
    constructor (id: int, lowerLimit: int, upperLimit: int)
      requires lowerLimit < upperLimit
      ensures Valid() && InRange()
      ensures this.id == id && floorLowerLimit == lowerLimit && floorUpperLimit == upperLimit
      ensures currentFloor == lowerLimit && direction
      ensures doorStatus == Closed && status == Stopped && !interruptDoorClose
      ensures requests == map[] && armed == {}
    {
      this.id := id;
      floorLowerLimit := lowerLimit;
      floorUpperLimit := upperLimit;
      currentFloor := lowerLimit;
      direction := true;
      doorStatus := Closed;
      status := Stopped;
      interruptDoorClose := false;
      requests := map[];
      armed := {};
    }

    method SetFloorUpperLimit(value: int)
      modifies this`floorUpperLimit
      ensures floorUpperLimit == value
    {
      floorUpperLimit := value;
    }

    /** Rejects a lower limit that is not below the current upper limit. */
    method SetFloorLowerLimit(value: int) returns (outcome: Outcome)
      modifies this`floorLowerLimit
      ensures value >= floorUpperLimit ==> outcome == Fail(InvalidConfiguration) && floorLowerLimit == old(floorLowerLimit)
      ensures value < floorUpperLimit ==> outcome == Pass && floorLowerLimit == value
    {
      if value >= floorUpperLimit {
        return Fail(InvalidConfiguration);
      }
      floorLowerLimit := value;
      outcome := Pass;
    }

    /**
     * The score of this car for a call: the distance to the called floor,
     * plus the upper limit as a penalty when the car is working in the other
     * direction.
     */
    function CalculateOffset(requestedFloor: int, requestDirection: bool): (offset: int)
      reads this
      ensures status == Working && direction != requestDirection ==>
        offset - floorUpperLimit == Distance(currentFloor, requestedFloor)
      ensures status == Stopped || direction == requestDirection ==>
        offset == Distance(currentFloor, requestedFloor)
    {
      var offset := Distance(currentFloor, requestedFloor);
      if status == Working && direction != requestDirection then offset + floorUpperLimit else offset
    }

    /**
     * A call assigned to this car. At its own floor with the door closed, only
     * the open-hold timer starts; otherwise the request is queued under `rid`
     * (an existing entry is kept) and a stopped car starts in the request's
     * direction.
     */
    method SignalFromOutside(rid: RequestId, request: Request)
      requires Valid()
      modifies this
      ensures Valid()
      ensures currentFloor == old(currentFloor)
      ensures floorLowerLimit == old(floorLowerLimit) && floorUpperLimit == old(floorUpperLimit)
      ensures old(doorStatus == Closed && currentFloor == request.floor) ==>
        && requests == old(requests) && armed == old(armed) + {DoorOpenDelay}
        && doorStatus == old(doorStatus) && status == old(status)
        && direction == old(direction) && interruptDoorClose == old(interruptDoorClose)
      ensures !old(doorStatus == Closed && currentFloor == request.floor) ==>
        requests == if rid in old(requests) then old(requests)
                    else old(requests)[rid := request.(elevatorId := id)]
      ensures !old(doorStatus == Closed && currentFloor == request.floor) && old(status) == Working ==>
        && armed == old(armed) && doorStatus == old(doorStatus) && status == Working
        && direction == old(direction) && interruptDoorClose == old(interruptDoorClose)
      ensures !old(doorStatus == Closed && currentFloor == request.floor) && old(status) == Stopped ==>
        JobStarted(request.direction)
    {
      if doorStatus == Closed && currentFloor == request.floor {
        armed := armed + {DoorOpenDelay};
        return;
      }
      var stamped := request.(elevatorId := id);
      if rid !in requests {
        requests := requests[rid := stamped];
      }
      if status == Stopped {
        PerformLiftJob(stamped.direction);
      }
    }

    /**
     * A destination chosen inside the car. It is queued unless it is the
     * current floor; a stopped car then either opens its door at once or
     * starts towards the destination. It never reports a served request: a
     * stopped car has none queued.
     */
    method SignalFromInside(rid: RequestId, request: Request) returns (served: map<RequestId, Request>)
      requires Valid()
      modifies this
      ensures Valid()
      ensures served == map[]
      ensures currentFloor == old(currentFloor)
      ensures floorLowerLimit == old(floorLowerLimit) && floorUpperLimit == old(floorUpperLimit)
      ensures old(status) == Working ==>
        && armed == old(armed) && doorStatus == old(doorStatus) && status == Working
        && direction == old(direction) && interruptDoorClose == old(interruptDoorClose)
      ensures old(status) == Working && request.floor == old(currentFloor) ==> requests == old(requests)
      ensures old(status) == Working && request.floor != old(currentFloor) ==>
        requests == if rid in old(requests) then old(requests)
                    else old(requests)[rid := request.(fromInside := true, elevatorId := id)]
      ensures old(status) == Stopped && request.floor == old(currentFloor) ==>
        && requests == map[] && doorStatus == Open && status == Stopped && armed == {}
        && direction == old(direction) && interruptDoorClose == old(interruptDoorClose)
      ensures old(status) == Stopped && request.floor != old(currentFloor) ==>
        && requests == map[rid := request.(fromInside := true, elevatorId := id, direction := request.floor > currentFloor)]
        && JobStarted(request.floor > currentFloor)
    {
      served := map[];
      var r := request.(fromInside := true);
      if currentFloor != r.floor {
        r := r.(elevatorId := id);
        if rid !in requests {
          requests := requests[rid := r];
        }
      }
      if status == Stopped {
        if r.floor == currentFloor {
          served := DoorOpeningDelayElapsed();
        } else {
          // The queued entry is the same object whose direction is set here.
          r := r.(direction := r.floor > currentFloor);
          requests := requests[rid := r];
          direction := r.direction;
          PerformLiftJob(direction);
        }
      }
    }

    /** Asks a closing door to reopen; has no effect on a door that is not closing. */
    method InterruptDoorClosing()
      modifies this`interruptDoorClose
      ensures interruptDoorClose == (old(interruptDoorClose) || doorStatus == Closing)
    {
      if doorStatus == Closing {
        interruptDoorClose := true;
      }
    }

    method CancelRequest(rid: RequestId)
      requires Valid()
      modifies this`requests
      ensures Valid()
      ensures requests == old(requests) - {rid}
    {
      requests := requests - {rid};
    }

    /** Enters Working, turns at a limit, and runs the close step at once. */
    method PerformLiftJob(up: bool)
      modifies this`status, this`direction, this`doorStatus, this`interruptDoorClose, this`armed
      ensures Valid()
      ensures JobStarted(up)
    {
      status := Working;
      direction := up;
      if (direction && currentFloor == floorUpperLimit) || (!direction && currentFloor == floorLowerLimit) {
        direction := !direction;
      }
      doorStatus := Closing;
      DoorClosingDelayElapsed();
    }

    /** The close step: reopen if interrupted (consuming the interrupt), else close and start moving. */
    method DoorClosingDelayElapsed()
      requires Valid() && status == Working
      modifies this`doorStatus, this`interruptDoorClose, this`armed
      ensures Valid()
      ensures !interruptDoorClose
      ensures old(interruptDoorClose) ==> doorStatus == Opening && armed == old(armed) + {DoorOpeningDelay}
      ensures !old(interruptDoorClose) ==> doorStatus == Closed && armed == old(armed) + {MoveToFloorDelay}
    {
      if interruptDoorClose {
        doorStatus := Opening;
        interruptDoorClose := false;
        armed := armed + {DoorOpeningDelay};
      } else {
        doorStatus := Closed;
        armed := armed + {MoveToFloorDelay};
      }
    }

    /**
     * The move step: one floor further (turning at a limit), a position
     * notification, then either the door starts opening or the next move is
     * scheduled.
     */
    method MoveToFloorDelayElapsed() returns (notice: Position)
      requires Valid() && status == Working
      modifies this`direction, this`currentFloor, this`doorStatus, this`armed
      ensures Valid()
      ensures Motion(direction, currentFloor) == Move(old(Motion(direction, currentFloor)), floorLowerLimit, floorUpperLimit)
      ensures old(InRange()) ==> InRange()
      ensures notice == Position(id, direction, currentFloor)
      ensures ShouldStop(requests, direction, currentFloor) ==>
        doorStatus == Opening && armed == old(armed) + {DoorOpeningDelay}
      ensures !ShouldStop(requests, direction, currentFloor) ==>
        doorStatus == old(doorStatus) && armed == old(armed) + {MoveToFloorDelay}
    {
      if (direction && currentFloor == floorUpperLimit) || (!direction && currentFloor == floorLowerLimit) {
        direction := !direction;
      }
      if direction {
        currentFloor := currentFloor + 1;
      } else {
        currentFloor := currentFloor - 1;
      }
      notice := Position(id, direction, currentFloor);
      if HasStopFor(requests, direction, currentFloor) {
        doorStatus := Opening;
        armed := armed + {DoorOpeningDelay};
      } else if !HasInsideRequest(requests) && HasRequestAt(requests, currentFloor) {
        doorStatus := Opening;
        armed := armed + {DoorOpeningDelay};
      } else {
        armed := armed + {MoveToFloorDelay};
      }
    }

    /**
     * The door-opening step: the door is open, the requests for this floor are
     * removed and reported; the car stops with every timer stopped when none
     * remain, else the open-hold timer starts.
     */
    method DoorOpeningDelayElapsed() returns (served: map<RequestId, Request>)
      requires Valid()
      modifies this`doorStatus, this`requests, this`status, this`armed
      ensures Valid()
      ensures doorStatus == Open
      ensures served == ServedAt(old(requests), currentFloor)
      ensures requests == RemainingAfter(old(requests), currentFloor)
      ensures requests == map[] ==> status == Stopped && armed == {}
      ensures requests != map[] ==> status == old(status) && armed == old(armed) + {DoorOpenDelay}
    {
      doorStatus := Open;
      served := ServedAt(requests, currentFloor);
      var continueLiftOperation := EmptyRequests();
      if !continueLiftOperation {
        status := Stopped;
        armed := armed - {MoveToFloorDelay};
        armed := armed - {DoorOpeningDelay};
        armed := armed - {DoorOpenDelay};
        armed := armed - {DoorClosingDelay};
        assert forall t: Timer :: t !in armed by {
          forall t: Timer ensures t !in armed {
            match t
            case MoveToFloorDelay =>
            case DoorOpeningDelay =>
            case DoorOpenDelay =>
            case DoorClosingDelay =>
          }
        }
      } else {
        armed := armed + {DoorOpenDelay};
      }
    }

    /** Removes the requests for the current floor; reports whether any request is left. */
    method EmptyRequests() returns (continueLiftOperation: bool)
      requires Valid()
      modifies this`requests
      ensures Valid()
      ensures requests == RemainingAfter(old(requests), currentFloor)
      ensures continueLiftOperation == (requests != map[])
    {
      var requestServed := ServedAt(requests, currentFloor).Keys;
      var pending := requestServed;
      while pending != {}
        invariant pending <= requestServed
        invariant requests == old(requests) - (requestServed - pending)
        decreases pending
      {
        NoMemberMeansEmpty(pending);
        var k :| k in pending;
        requests := requests - {k};
        pending := pending - {k};
      }
      RemainingIsDifference(old(requests), currentFloor);
      continueLiftOperation := exists k :: k in requests && requests[k].floor != currentFloor;
      if requests != map[] {
        NoKeyMeansEmpty(requests);
        var k :| k in requests;
        assert requests[k].floor != currentFloor;
      }
    }

    /** The open-hold step: the door starts closing; a working car schedules the close step. */
    method DoorOpenDelayElapsed()
      requires Valid()
      modifies this`doorStatus, this`armed
      ensures Valid()
      ensures doorStatus == Closing
      ensures armed == if status == Working then old(armed) + {DoorClosingDelay} else old(armed)
    {
      doorStatus := Closing;
      if status == Working {
        armed := armed + {DoorClosingDelay};
      }
    }

    /** An armed timer elapses: it is disarmed, then its handler runs. */
    method TimerElapsed(t: Timer) returns (notice: Option<Position>, served: map<RequestId, Request>)
      requires Valid() && t in armed
      modifies this
      ensures Valid()
      ensures floorLowerLimit == old(floorLowerLimit) && floorUpperLimit == old(floorUpperLimit)
      ensures old(InRange()) ==> InRange()
      ensures notice.Some? <==> t == MoveToFloorDelay
      ensures t != DoorOpeningDelay ==> served == map[] && requests == old(requests)
      ensures t == DoorOpeningDelay ==>
        served == ServedAt(old(requests), currentFloor) && requests == RemainingAfter(old(requests), currentFloor)
      // The move step: one move, the stop rule, and nothing else changes.
      ensures t == MoveToFloorDelay ==>
        && Motion(direction, currentFloor) == Move(old(Motion(direction, currentFloor)), floorLowerLimit, floorUpperLimit)
        && notice == Some(Position(id, direction, currentFloor))
        && status == old(status) && interruptDoorClose == old(interruptDoorClose)
        && (ShouldStop(requests, direction, currentFloor) ==>
              doorStatus == Opening && armed == (old(armed) - {t}) + {DoorOpeningDelay})
        && (!ShouldStop(requests, direction, currentFloor) ==>
              doorStatus == old(doorStatus) && armed == (old(armed) - {t}) + {MoveToFloorDelay})
      // The door-opening step: the door is open; the car stops when nothing is left.
      ensures t == DoorOpeningDelay ==>
        && doorStatus == Open
        && direction == old(direction) && currentFloor == old(currentFloor)
        && interruptDoorClose == old(interruptDoorClose)
        && (requests == map[] ==> status == Stopped && armed == {})
        && (requests != map[] ==> status == old(status) && armed == (old(armed) - {t}) + {DoorOpenDelay})
      // The open-hold step: the door starts closing; a working car schedules the close step.
      ensures t == DoorOpenDelay ==>
        && doorStatus == Closing
        && direction == old(direction) && currentFloor == old(currentFloor)
        && status == old(status) && interruptDoorClose == old(interruptDoorClose)
        && armed == (old(armed) - {t}) + (if status == Working then {DoorClosingDelay} else {})
      // The close step: reopen if interrupted, consuming the interrupt, else close and move.
      ensures t == DoorClosingDelay ==>
        && !interruptDoorClose
        && direction == old(direction) && currentFloor == old(currentFloor) && status == old(status)
        && (old(interruptDoorClose) ==> doorStatus == Opening && armed == (old(armed) - {t}) + {DoorOpeningDelay})
        && (!old(interruptDoorClose) ==> doorStatus == Closed && armed == (old(armed) - {t}) + {MoveToFloorDelay})
    {
      armed := armed - {t};
      notice, served := None, map[];
      match t
      case MoveToFloorDelay =>
        var p := MoveToFloorDelayElapsed();
        notice := Some(p);
      case DoorOpeningDelay =>
        served := DoorOpeningDelayElapsed();
      case DoorOpenDelay =>
        DoorOpenDelayElapsed();
      case DoorClosingDelay =>
        DoorClosingDelayElapsed();
    }
  }

  /** Removing the served requests leaves exactly the ones for other floors. */
  lemma RemainingIsDifference(rs: map<RequestId, Request>, floor: int)
    ensures RemainingAfter(rs, floor) == rs - ServedAt(rs, floor).Keys
  {
  }

  /** Any number of moves keeps a car that starts within valid limits within them. */
  lemma {:induction false} SweepStaysInRange(n: nat, m: Motion, lower: int, upper: int)
    requires InLimits(m.floor, lower, upper)
    ensures InLimits(Sweep(n, m, lower, upper).floor, lower, upper)
    decreases n
  {
    if n > 0 {
      SweepStaysInRange(n - 1, Move(m, lower, upper), lower, upper);
    }
  }

  lemma {:induction false} SweepAdd(a: nat, b: nat, m: Motion, lower: int, upper: int)
    ensures Sweep(a + b, m, lower, upper) == Sweep(b, Sweep(a, m, lower, upper), lower, upper)
    decreases a
  {
    if a > 0 {
      SweepAdd(a - 1, b, Move(m, lower, upper), lower, upper);
    }
  }

  /** Below the upper limit a car going up keeps going up, one floor per move. */
  lemma {:induction false} SweepUp(k: nat, floor: int, lower: int, upper: int)
    requires floor + k <= upper
    ensures Sweep(k, Motion(true, floor), lower, upper) == Motion(true, floor + k)
    decreases k
  {
    if k > 0 {
      assert Move(Motion(true, floor), lower, upper) == Motion(true, floor + 1);
      SweepUp(k - 1, floor + 1, lower, upper);
    }
  }

  /** Above the lower limit a car going down keeps going down, one floor per move. */
  lemma {:induction false} SweepDown(k: nat, floor: int, lower: int, upper: int)
    requires lower <= floor - k
    ensures Sweep(k, Motion(false, floor), lower, upper) == Motion(false, floor - k)
    decreases k
  {
    if k > 0 {
      assert Move(Motion(false, floor), lower, upper) == Motion(false, floor - 1);
      SweepDown(k - 1, floor - 1, lower, upper);
    }
  }

  /** Going up from `floor`: up to the upper limit, turn there, then down to `target`. */
  lemma TurnAtTop(floor: int, target: int, lower: int, upper: int)
    requires lower <= target < upper && target <= floor <= upper
    ensures Sweep((upper - floor) + (upper - target), Motion(true, floor), lower, upper) == Motion(false, target)
  {
    var m := Motion(true, floor);
    SweepUp(upper - floor, floor, lower, upper);
    assert Sweep(1, Motion(true, upper), lower, upper) == Motion(false, upper - 1);
    SweepDown(upper - 1 - target, upper - 1, lower, upper);
    SweepAdd(upper - floor, 1, m, lower, upper);
    SweepAdd(upper - floor + 1, upper - 1 - target, m, lower, upper);
  }

  /** Going down from `floor`: down to the lower limit, turn there, then up to `target`. */
  lemma TurnAtBottom(floor: int, target: int, lower: int, upper: int)
    requires lower < target <= upper && lower <= floor <= target
    ensures Sweep((floor - lower) + (target - lower), Motion(false, floor), lower, upper) == Motion(true, target)
  {
    var m := Motion(false, floor);
    SweepDown(floor - lower, floor, lower, upper);
    assert Sweep(1, Motion(false, lower), lower, upper) == Motion(true, lower + 1);
    SweepUp(target - (lower + 1), lower + 1, lower, upper);
    SweepAdd(floor - lower, 1, m, lower, upper);
    SweepAdd(floor - lower + 1, target - (lower + 1), m, lower, upper);
  }

  /**
   * A car moving without stopping reaches every floor of its range within
   * 2 * (upper - lower) moves, whatever its position and direction.
   */
  lemma SweepReaches(m: Motion, target: int, lower: int, upper: int)
    requires InLimits(m.floor, lower, upper) && lower <= target <= upper
    ensures exists n: nat :: n <= 2 * (upper - lower) && Sweep(n, m, lower, upper).floor == target
  {
    var f := m.floor;
    if f == target {
      assert Sweep(0, m, lower, upper).floor == target;
    } else if m.up && f < target {
      SweepUp(target - f, f, lower, upper);
      assert Sweep(target - f, m, lower, upper).floor == target;
    } else if !m.up && f > target {
      SweepDown(f - target, f, lower, upper);
      assert Sweep(f - target, m, lower, upper).floor == target;
    } else if m.up {
      TurnAtTop(f, target, lower, upper);
      assert Sweep((upper - f) + (upper - target), m, lower, upper).floor == target;
    } else {
      TurnAtBottom(f, target, lower, upper);
      assert Sweep((f - lower) + (target - lower), m, lower, upper).floor == target;
    }
  }

  /**
   * A car moving without stopping comes back to the floor it started from
   * after at least one and at most 2 * (upper - lower) moves.
   */
  lemma SweepReturns(m: Motion, lower: int, upper: int)
    requires InLimits(m.floor, lower, upper)
    ensures exists n: nat :: 1 <= n <= 2 * (upper - lower) && Sweep(n, m, lower, upper).floor == m.floor
  {
    var f := m.floor;
    if m.up && f < upper {
      TurnAtTop(f, f, lower, upper);
      assert Sweep((upper - f) + (upper - f), m, lower, upper).floor == f;
    } else if m.up {
      // At the upper limit: turn, down to the lower limit, turn, back up.
      TurnAtBottom(upper - 1, upper, lower, upper);
      SweepAdd(1, (upper - 1 - lower) + (upper - lower), m, lower, upper);
      assert Sweep(1 + (upper - 1 - lower) + (upper - lower), m, lower, upper).floor == f;
    } else if f > lower {
      TurnAtBottom(f, f, lower, upper);
      assert Sweep((f - lower) + (f - lower), m, lower, upper).floor == f;
    } else {
      // At the lower limit: turn, up to the upper limit, turn, back down.
      TurnAtTop(lower + 1, lower, lower, upper);
      SweepAdd(1, (upper - (lower + 1)) + (upper - lower), m, lower, upper);
      assert Sweep(1 + (upper - (lower + 1)) + (upper - lower), m, lower, upper).floor == f;
    }
  }

  /**
   * With no inside request queued, a car moving within valid limits comes to
   * a floor where the stop rule holds after at least one and at most
   * 2 * (upper - lower) moves, for any queued request in its range.
   */
  lemma OutsideRequestIsReached(rs: map<RequestId, Request>, m: Motion, lower: int, upper: int, rid: RequestId)
    requires rid in rs && !HasInsideRequest(rs)
    requires InLimits(m.floor, lower, upper) && lower <= rs[rid].floor <= upper
    ensures exists n: nat :: (1 <= n <= 2 * (upper - lower) &&
                               ShouldStop(rs, Sweep(n, m, lower, upper).up, Sweep(n, m, lower, upper).floor))
  {
    var target := rs[rid].floor;
    if target == m.floor {
      SweepReturns(m, lower, upper);
    } else {
      SweepReaches(m, target, lower, upper);
    }
    var n: nat :| n <= 2 * (upper - lower) && Sweep(n, m, lower, upper).floor == target && (target == m.floor ==> 1 <= n);
    assert n != 0 by {
      if target != m.floor {
        assert Sweep(0, m, lower, upper).floor != target;
      }
    }
    assert HasRequestAt(rs, Sweep(n, m, lower, upper).floor);
  }

  /**
   * Opening the door at a floor splits the queue: the reported requests are
   * exactly those for that floor, the rest stay queued unchanged, and no
   * request is in both parts.
   */
  lemma ServingPartitions(rs: map<RequestId, Request>, floor: int)
    ensures ServedAt(rs, floor).Keys !! RemainingAfter(rs, floor).Keys
    ensures ServedAt(rs, floor).Keys + RemainingAfter(rs, floor).Keys == rs.Keys
    ensures forall k :: k in ServedAt(rs, floor) ==> ServedAt(rs, floor)[k] == rs[k] && rs[k].floor == floor
    ensures forall k :: k in RemainingAfter(rs, floor) ==> RemainingAfter(rs, floor)[k] == rs[k] && rs[k].floor != floor
  {
  }

  /** A second opening at the same floor reports nothing and changes nothing. */
  lemma ServingIsIdempotent(rs: map<RequestId, Request>, floor: int)
    ensures ServedAt(RemainingAfter(rs, floor), floor) == map[]
    ensures RemainingAfter(RemainingAfter(rs, floor), floor) == RemainingAfter(rs, floor)
  {
  }

  /**
   * The car never stops after a move without serving a request; with no
   * inside request queued it stops exactly when some request is for the floor.
   */
  lemma StopServesARequest(rs: map<RequestId, Request>, up: bool, floor: int)
    ensures ShouldStop(rs, up, floor) ==> ServedAt(rs, floor) != map[]
    ensures !HasInsideRequest(rs) ==> (ShouldStop(rs, up, floor) <==> ServedAt(rs, floor) != map[])
  {
    if ShouldStop(rs, up, floor) {
      var k :| k in rs && rs[k].floor == floor;
      assert k in ServedAt(rs, floor);
    }
    if ServedAt(rs, floor) != map[] {
      NoKeyMeansEmpty(ServedAt(rs, floor));
      var k :| k in ServedAt(rs, floor);
      assert HasRequestAt(rs, floor);
    }
  }

  /** Cancelling twice is cancelling once; no other entry is touched. */
  lemma CancelIsIdempotent(rs: map<RequestId, Request>, rid: RequestId)
    ensures (rs - {rid}) - {rid} == rs - {rid}
    ensures rid !in rs ==> rs - {rid} == rs
    ensures forall k :: k in rs && k != rid ==> k in rs - {rid} && (rs - {rid})[k] == rs[k]
  {
  }

  /**
   * The two directions of a call score alike on a stopped car; on a working
   * car the opposite direction costs exactly the upper limit more.
   */
  lemma OffsetDirectionGap(e: Elevator, floor: int)
    ensures e.CalculateOffset(floor, !e.direction) - e.CalculateOffset(floor, e.direction)
      == if e.status == Working then e.floorUpperLimit else 0
    ensures e.CalculateOffset(floor, e.direction) == Distance(e.currentFloor, floor)
  {
  }

  /** A set with no member is the empty set. */
  lemma NoMemberMeansEmpty(s: set<RequestId>)
    ensures (forall x :: x !in s) ==> s == {}
  {
    if forall x :: x !in s {
      assert forall x :: x in s <==> x in (var none: set<RequestId> := {}; none);
    }
  }

  /** A map with no key is the empty map. */
  lemma NoKeyMeansEmpty(m: map<RequestId, Request>)
    ensures (forall k :: k !in m) ==> m == map[]
  {
    if forall k :: k !in m {
      NoMemberMeansEmpty(m.Keys);
    }
  }
}
