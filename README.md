# Elevator simulation: a verified model of the car state machine and the building's bookkeeping

This project models the core of a multi-elevator simulation. It has two parts.

- **`ElevatorCar`** (`elevator.dfy`, from `Building/Elevator.cs`). One car is a class. Its fields are the current floor, the direction (true means up), the lower and upper floor limits, the door state (Open, Opening, Closed, Closing), the operational state (Stopped, Working), the one-shot interrupt flag for a closing door, and the car's queue of requests (a map from request id to request).
  - The car is driven by four one-shot timers: close, move, door opening and open hold. Each timer is modelled by whether it is armed. Starting a timer adds it to the field `armed` and stopping it removes it.
  - `TimerElapsed(t)` fires an armed timer. It disarms the timer first, because the timers do not restart themselves, and then runs that timer's handler as one atomic step.
  - Each handler is a method whose postconditions give the car's complete new state.
  - The rules behind the handlers are pure functions that the handlers are proved against: the move (`Move`), the stop rule (`ShouldStop`) and the split of the queue when the door opens (`ServedAt`, `RemainingAfter`). Lemmas state what the system promises about those functions.
  - The class invariant `Valid()` says that a stopped car holds no request and has at most the open-hold timer armed. Every operation that changes the state it reads is proved to preserve it.
- **`BuildingFleet`** (`building.dfy`, from `Building/Building.cs`). The building is a class holding the floor count, the car count, the fleet (a sequence of cars) and the registry of outstanding calls made from the floors.
  - Its invariant says every car is valid and car ids increase along the fleet, up to the car count. This is why `AdjustFloor` finds exactly one car for an id.

The floor range of a car is not an invariant of the system. `AdjustFloor` can move the limits past the car's current floor, and it can leave the lower limit at or above the upper limit. So the range is stated conditionally: if `lower < upper` and the floor is within the limits before a move, it is still within them after. The lemma `SweepStaysInRange` extends this to any number of moves. `SweepReaches` proves that a car moving without stopping comes to every floor of its range within `2 * (upper - lower)` moves. `SweepReturns` proves it comes back to its own floor within the same bound, after at least one move.

Where the code and its description differ, the model follows the code.

- Car ids are the incremented count (`Building/Building.cs:40-41`), not positions starting at 0.
- The building's constructor records the car count but creates no car (`Building/Building.cs:27-31`).
- A stopped car called to its own floor with the door closed only starts the open-hold timer. Its door does not open (`Building/Elevator.cs:154-158`).
- A car that serves its last request stops with the door left Open and every timer stopped (`Building/Elevator.cs:310-322`).
- No call is assigned to a car and no call is reassigned, because `AssignElevator` is empty (`Building/Building.cs:72-79`).

## Model

| member | source | states |
|---|---|---|
| `ElevatorCar.Distance` | Building/Elevator.cs:219 | the distance is a natural number equal to one of the two differences of the floors |
| `ElevatorCar.TurnAtLimit` | Building/Elevator.cs:272-276 | the direction reverses only at the limit it points beyond, so between the limits it is kept, and within valid limits the resulting direction never points past a limit (the same check starts each job, `Building/Elevator.cs:239-243`) |
| `ElevatorCar.Move` | Building/Elevator.cs:272-286 | a move changes the floor by exactly one, in the direction the car then travels; the car keeps its direction strictly between the limits; a car within valid limits stays within them |
| `ElevatorCar.SweepStaysInRange` | Building/Elevator.cs:272-304 | any number of consecutive moves keeps a car that starts within valid limits within them |
| `ElevatorCar.SweepUp` | Building/Elevator.cs:272-282 | below the upper limit, a car going up keeps its direction and climbs one floor per move |
| `ElevatorCar.SweepDown` | Building/Elevator.cs:272-286 | above the lower limit, a car going down keeps its direction and descends one floor per move |
| `ElevatorCar.TurnAtTop` | Building/Elevator.cs:272-286 | a car going up climbs to the upper limit, turns there and comes down to any lower floor below that limit, in exactly the number of moves the path needs |
| `ElevatorCar.TurnAtBottom` | Building/Elevator.cs:272-286 | a car going down descends to the lower limit, turns there and climbs to any higher floor above that limit, in exactly the number of moves the path needs |
| `ElevatorCar.SweepReaches` | Building/Elevator.cs:272-304 | from any position and direction within valid limits, a car moving without stopping reaches every floor of its range within 2 * (upper - lower) moves |
| `ElevatorCar.SweepReturns` | Building/Elevator.cs:272-286 | a car within valid limits, moving without stopping, comes back to its own floor after at least one and at most 2 * (upper - lower) moves |
| `ElevatorCar.ShouldStop` | Building/Elevator.cs:291-301 | the car stops after a move only at a floor with a queued request; it passes a floor with a queued request only while some inside request is queued |
| `ElevatorCar.OutsideRequestIsReached` | Building/Elevator.cs:291-301 | with no inside request queued, a car within valid limits comes to a floor where the stop rule holds after at least one and at most 2 * (upper - lower) moves, for any queued request in range, including one for the floor it starts on |
| `ElevatorCar.ServedAt` | Building/Elevator.cs:312 | every reported request is a queued one, with its value unchanged, for the floor where the door opens |
| `ElevatorCar.RemainingAfter` | Building/Elevator.cs:348-354 | every request still queued was queued before, with its value unchanged, and is for another floor |
| `ElevatorCar.StopServesARequest` | Building/Elevator.cs:291-312 | the car never stops after a move without a request to serve at that floor; with no inside request queued, it stops if and only if some request is for that floor |
| `ElevatorCar.ServingPartitions` | Building/Elevator.cs:312-354 | opening the door splits the queue into the reported requests (exactly those for the floor) and the remaining ones (unchanged); the two parts are disjoint and together make up the queue |
| `ElevatorCar.ServingIsIdempotent` | Building/Elevator.cs:344-362 | a second door opening at the same floor reports nothing and leaves the queue unchanged, so no request is reported twice |
| `ElevatorCar.RemainingIsDifference` | Building/Elevator.cs:348-352 | the requests for other floors are exactly the queue minus the keys of the served requests |
| `ElevatorCar.CancelIsIdempotent` | Building/Elevator.cs:229-232 | cancelling twice equals cancelling once; cancelling an absent id changes nothing; every other entry is kept with its value |
| `ElevatorCar.OffsetDirectionGap` | Building/Elevator.cs:216-227 | the two directions of a call score the same on a stopped car; on a working car the opposite direction costs exactly the upper limit more; the car's own direction scores the plain distance |
| `ElevatorCar.Elevator.constructor` | Building/Elevator.cs:134-139 | a new car is stopped at its lower limit, going up, with the door closed, no request queued, no timer armed and the interrupt flag clear; the limits are not checked, so the caller must pass lower < upper |
| `ElevatorCar.Elevator.SetFloorUpperLimit` | Building/Elevator.cs:42 | the upper limit is set without any check |
| `ElevatorCar.Elevator.SetFloorLowerLimit` | Building/Elevator.cs:49-61 | a lower limit at or above the upper limit is rejected with "Invalid Elevator configuration" and the old value kept; otherwise it is set |
| `ElevatorCar.Elevator.CalculateOffset` | Building/Elevator.cs:216-227 | the score is the distance to the called floor, plus exactly the upper limit when the car is working in the other direction; it reads the car and changes nothing |
| `ElevatorCar.Elevator.SignalFromOutside` | Building/Elevator.cs:151-169 | with the door closed at the called floor, only the open-hold timer is armed and the queue is unchanged; otherwise the request, stamped with the car id, is queued only if its key is new, a working car is otherwise unchanged, and a stopped car starts in the request's direction |
| `ElevatorCar.Elevator.SignalFromInside` | Building/Elevator.cs:176-198 | the request is marked as from inside and queued if and only if it is not for the current floor; a stopped car at that floor opens its door and stays stopped; a stopped car with another destination stores and starts in the direction (destination > current floor); nothing is ever reported served |
| `ElevatorCar.Elevator.InterruptDoorClosing` | Building/Elevator.cs:203-209 | the interrupt flag is set only when the door is closing, and is otherwise left as it was |
| `ElevatorCar.Elevator.CancelRequest` | Building/Elevator.cs:229-232 | exactly the given key is removed from the queue |
| `ElevatorCar.Elevator.PerformLiftJob` | Building/Elevator.cs:234-247 | the car is working, its direction is the given one after turning at a limit, and the close step has run at once |
| `ElevatorCar.Elevator.DoorClosingDelayElapsed` | Building/Elevator.cs:249-267 | if interrupted, the door reopens, the flag is cleared and the door-opening timer is armed; otherwise the door is closed and the move timer is armed |
| `ElevatorCar.Elevator.MoveToFloorDelayElapsed` | Building/Elevator.cs:269-306 | direction and floor change as one move, within the limits if the car started within valid limits; the position notified is the new one; the door starts opening with the door-opening timer armed if and only if the stop rule holds, and otherwise only the move timer is re-armed |
| `ElevatorCar.Elevator.DoorOpeningDelayElapsed` | Building/Elevator.cs:308-333 | the door is open; exactly the requests for the current floor are removed and reported; if none remain, the car is stopped with every timer disarmed, and otherwise the open-hold timer is armed |
| `ElevatorCar.Elevator.EmptyRequests` | Building/Elevator.cs:344-362 | the queue loses exactly the requests for the current floor; the result says whether any request is left |
| `ElevatorCar.Elevator.DoorOpenDelayElapsed` | Building/Elevator.cs:335-342 | the door starts closing; only a working car arms the close timer |
| `ElevatorCar.Elevator.TimerElapsed` | Building/Elevator.cs:84-109 | only an armed timer fires; for each timer the car's whole new state is given, with the fired timer disarmed before its handler arms others: the move step makes one move, notifies the new position and arms the door-opening timer exactly when the stop rule holds, else re-arms the move timer; the door-opening step opens the door, reports and removes exactly the requests for the floor, and stops the car with no timer armed when none remain, else arms the open-hold timer; the open-hold step starts closing the door and arms the close timer only on a working car; the close step consumes the interrupt and either reopens the door or closes it and arms the move timer; the limits never change, and every field a handler does not set keeps its value; the car stays valid and within its limits |
| `BuildingFleet.Building.constructor` | Building/Building.cs:27-31 | the floor count and car count are recorded; the fleet and the registry start empty |
| `BuildingFleet.Building.AddAFloor` | Building/Building.cs:33-36 | the floor count grows by exactly one, and no other state changes |
| `BuildingFleet.Building.AddAnElevator` | Building/Building.cs:38-44 | the car count grows by one; exactly one new car is appended, with id equal to the new count, limits 0 and the floor count, floor 0, stopped with the door closed; the existing cars are kept |
| `BuildingFleet.Building.ElevatorRequestCompleted` | Building/Building.cs:46-51 | every reported key is removed from the registry; absent keys are ignored and all other entries are kept |
| `BuildingFleet.Building.FindElevator` | Building/Building.cs:61 | the first car of the fleet with the given id, or none exactly when no car has it |
| `BuildingFleet.Building.AdjustFloor` | Building/Building.cs:59-64 | the car with the id gets the new upper limit, then the new lower limit unless it is not below the new upper limit; a rejection keeps the new upper limit and the old lower limit; other cars are unchanged |
| `BuildingFleet.Building.AssignElevator` | Building/Building.cs:72-79 | assignment changes neither the building nor any of its cars |
| `BuildingFleet.Building.SignalElevatorFromOutside` | Building/Building.cs:66-70 | a call under a new id is added to the registry, which grows by exactly one entry; assignment changes nothing |

No operation other than `AddAFloor` has the floor count in its frame, so the floor count never decreases after construction. `AssignElevator` (`Building/Building.cs:72-79`) is modelled as an empty method without a frame, and its contract states that it changes no state.

## Left out

- Real time: the timer intervals (`Building/Elevator.cs:84-109`) are not modelled. A timer is only armed or disarmed, and an armed timer may fire at any point between other operations.
- Concurrency: the concurrent dictionaries and the lock around the interrupt flag (`Building/Elevator.cs:127`, `254`) are modelled sequentially. Every operation and every timer handler is one atomic step.
- Console output (`Building/Elevator.cs:166`, `187`, `321`) is not modelled.
- Event delivery: `RequestCompleted` and `NofityCurrentPosition` are not delivered to subscribers. The handlers return the served requests and the position notice instead. The building never subscribes to the position notice. The subscription of `Elevator_RequestCompleted` is not modelled, because its signature (an array of pairs) does not match the event's delegate (one pair). `ElevatorRequestCompleted` therefore takes a sequence of pairs and is not wired to the cars.
- Fresh ids: `Guid.NewGuid()` (`Building/Building.cs:68`) becomes a parameter of `SignalElevatorFromOutside`.
- Assignment and reassignment: choosing a car by score and moving calls between cars are not implemented in the source (`AssignElevator` is empty), so they are not modelled.
- The demo program `Elevator/Program.cs` is not part of this model. That includes `SignalElevatorFromInside` and the `ElevaterAssigned`/`ElevaterServed`/`ElevaterReAssigned` events it uses, which `Building` does not declare.
- Aliasing of request objects: requests are values here. In the source, stamping the car id and setting the inside flag also change the caller's request object, even when that object is not queued. The one alias that changes queue contents is modelled: in `SignalFromInside` the direction set on a stopped car's request is also set on the queued entry.
- The uninitialised fleet list (`Building/Building.cs:25`) is taken to start empty.
- Integer width: the source's `int` is 32 bits and wraps on overflow, while the model's integers are unbounded. This affects the floor step (`Building/Elevator.cs:281`, `285`), the direction penalty in the score (`Building/Elevator.cs:223`), the floor count (`Building/Building.cs:35`) and the car count (`Building/Building.cs:40`). It is reachable: once `AdjustFloor` moves the upper limit below a car going up, the limit check never fires and the car climbs without end. In the source the floor would then wrap to the most negative `int`; in the model it grows forever.
- BuildingFleet.Building.AdjustFloor: requires that a car with the id exists; for a missing id the source fails with a null dereference.
- BuildingFleet.Building.AddAnElevator: requires a positive floor count. The car constructor does not check its limits, and the source would create a car with lower limit 0 and an upper limit of 0 or below.
- ElevatorCar.Elevator.constructor: requires lower < upper, which the source does not check.
