# Traffic simulation core in Dafny

This project models the per-tick logic of a small console traffic
simulation, `TrafficManagement.cpp`. The simulation has two lanes. Each lane
has a traffic light that cycles GREEN, YELLOW, RED on a timer. Vehicles of
four types are spawned at random onto a lane and drive towards its end. A
vehicle whose move would carry it onto or past the stop line, 10 m before the
end, while the light is not green, stops where it stands instead; its speed
becomes 0, and it never moves again, not even once the light turns green.
Vehicles are erased from the lane once they reach its end. The simulation runs
one-second ticks until 60 seconds have elapsed.

The model has three modules:

- `LightCycle` (`light_cycle.dfy`) is the light's state machine as pure
  values. `Tick` is one `update(step)`; `Ticks` is n of them. The lemmas
  state the transition rule and the schedule it yields.
- `Kinematics` (`kinematics.dfy`) is one `Vehicle::move` as a pure function
  `Advance` on a speed and position. It uses exact `real` arithmetic and
  includes the stop-line rule. The lemmas state that a halted vehicle never
  moves again; the program behaves this way, and the model keeps it.
- `Traffic` (`traffic.dfy`) holds the objects whose fields the program
  updates in place, as classes with those fields:
  - `TrafficLight` and `Vehicle`;
  - `Lane`, which owns its light and a `seq<Vehicle>`;
  - `Simulation`, which owns its lanes and every vehicle it has spawned.

  Each method is proved against the pure functions. `TrafficLight.Update`
  steps exactly as `Tick`, and `Vehicle.Move` exactly as `Advance`. The
  lane's erase-while-iterating loop leaves exactly `Survivors`, the ordered
  filter of the vehicles still short of the lane's end. `Simulation.Update`
  spawns at most one vehicle and then updates every lane once, as
  `Lane.UpdatedFrom` describes.

The random draws of `Simulation::update` and `generateVehicle` are
parameters, bundled in the datatype `Draws`:

- the spawn draw, in [0, 1);
- the type index, 0..3;
- the speed in km/h, in [20, 50);
- the lane index.

`DrawsInRange` states the ranges of the uniform distributions they come
from. The type, speed and lane draws matter only when the spawn draw is
below 0.3.

The simulation's ownership invariant `Simulation.Valid` has these parts:

- every lane's footprint (`Repr`: the lane, its light and its vehicles) is
  disjoint from every other lane's;
- every vehicle on a lane was spawned by the simulation;
- vehicle ids are 1, 2, 3, ... in spawn order, and `nextId` is the next one.

With the invariant, updating one lane provably leaves every other lane, and
every vehicle no lane lists, unchanged.

## Model

| member | source | states |
|---|---|---|
| Traffic.TrafficLight.constructor | TrafficManagement.cpp:66-67 | A new light is RED with timer 0 and keeps the three durations it was given. |
| Traffic.TrafficLight.Update | TrafficManagement.cpp:69-91 | The new state and timer are exactly `Tick` of the durations, the old state and timer, and the step. |
| LightCycle.TickIsOneTransition | TrafficManagement.cpp:69-91 | One update changes the colour at most once, only to the next colour of GREEN→YELLOW→RED→GREEN. It changes colour if and only if timer+step reaches the colour's duration. On a change the timer becomes 0; otherwise the timer is timer+step. |
| LightCycle.ExcessIsDiscarded | TrafficManagement.cpp:70-89 | When timer+step overshoots the duration, the light still moves to the next colour with timer 0: the excess is not carried over. |
| LightCycle.NextIsAThreeCycle | TrafficManagement.cpp:72-89 | The colour successor has no fixed point and returns to the start after exactly three steps. |
| LightCycle.TickKeepsTimerBelowDwell | TrafficManagement.cpp:69-91 | With positive durations and a non-negative step, a timer below the current colour's duration stays below the duration of the colour after the update. |
| LightCycle.TicksSplit | TrafficManagement.cpp:69-91 | m + n updates are m updates followed by n updates. |
| LightCycle.HoldsForDwell | TrafficManagement.cpp:72-89 | With steps of 1, a colour entered with timer 0 is still shown after k updates, for every k below its duration, with timer k. |
| LightCycle.AdvancesAfterDwell | TrafficManagement.cpp:72-89 | With steps of 1, the duration-th update moves to the next colour with timer 0. |
| LightCycle.FullCycle | TrafficManagement.cpp:72-89 | With steps of 1, green + yellow + red updates bring any colour entered with timer 0 back to itself with timer 0. |
| LightCycle.LaneLightSchedule | TrafficManagement.cpp:114 | A lane's light (10, 3, 7) goes from GREEN with timer 0 to YELLOW after 10 updates of 1, RED after 13 and GREEN after 20. A fresh light (RED, timer 0) turns GREEN after 7. |
| Traffic.Lane.constructor | TrafficManagement.cpp:113-114 | A new lane keeps its id, length and limit and has no vehicles. It owns a fresh light that is RED with timer 0 and has durations green 10, yellow 3, red 7. |
| Traffic.Vehicle.constructor | TrafficManagement.cpp:33-34 | A new vehicle has the given id, type and speed, position 0 and no lane. |
| Traffic.Vehicle.Move | TrafficManagement.cpp:141-155 | A vehicle on no lane keeps its speed and position. Otherwise speed and position become exactly `Advance` under the lane light's current colour and the lane's length. The lane is never changed. |
| Kinematics.GreenNeverHalts | TrafficManagement.cpp:147-152 | Under GREEN the vehicle always advances by speed·1000/3600·step at unchanged speed. |
| Kinematics.NeverBackwards | TrafficManagement.cpp:144-155 | With non-negative speed and step, the position never decreases and the speed stays between 0 and its old value. |
| Kinematics.NoCrossingOnNonGreen | TrafficManagement.cpp:147-152 | Under a light that is not green, a vehicle in front of the stop line is still in front of it after the move. |
| Kinematics.HaltsOnRedBeforeStopLine | TrafficManagement.cpp:147-152 | Under RED, a vehicle 11 m before the lane's end whose tick would cover at least 1 m halts where it is, with speed 0. |
| Kinematics.StoppedStaysPut | TrafficManagement.cpp:144-155 | A vehicle with speed 0 is left exactly as it is by a move, whatever the light. |
| Kinematics.StoppedForever | TrafficManagement.cpp:144-155 | A vehicle with speed 0 stays unchanged through any later sequence of moves, green ones included: there is no resumption. |
| Kinematics.HaltIsPermanent | TrafficManagement.cpp:147-152 | A vehicle that halts at the stop line stays at speed 0 and the same position through any later sequence of moves. |
| Traffic.Lane.AddVehicle | TrafficManagement.cpp:118-121 | The vehicle is appended at the end of the lane's list, the other entries are unchanged, its lane back-reference is the lane, and its speed and position are unchanged. |
| Traffic.Lane.Update | TrafficManagement.cpp:123-132 | The lane's light ticks once. Then every vehicle of the old list moves once under the light's new colour. The new list is exactly the in-order subsequence of the old vehicles whose new position is short of the length. Every vehicle of the old list, erased or not, still points back to the lane. No vehicle the lane did not list changes. |
| Traffic.Lane.MoveVehicles | TrafficManagement.cpp:125-131 | The erase-while-iterating loop: each old vehicle moves once, in order, under the current colour. The list left behind is `Survivors` of the old list. |
| Traffic.Lane.Visit | TrafficManagement.cpp:126-130 | One pass of the loop, with the loop's record carried from n decided entries to n + 1: the list is still the kept entries followed by the undecided ones, the decided vehicles have advanced exactly once, the others have not moved, and the kept entries are `Kept` of the decided ones. |
| Traffic.Lane.MoveAt | TrafficManagement.cpp:126-130 | One pass at index i: the vehicle moves. If it reached the lane's end it is erased and the index stays; otherwise the index advances and the list is unchanged. |
| Traffic.KeptMembers | TrafficManagement.cpp:125-131 | Of a duplicate-free list, the erase filter keeps exactly the entries whose position is short of the length, keeps them in order, repeats none and adds nothing. |
| Traffic.SurvivorsOnLane | TrafficManagement.cpp:125-131 | After a lane update, a vehicle is on the lane if and only if it was on it before and its position is below the length. The list is an in-order subsequence of the old one, without repeats. |
| Traffic.AllMoved | TrafficManagement.cpp:125-131 | When the loop has visited every old vehicle, the entries it kept are the survivors, and every old vehicle has advanced by exactly one move. |
| Traffic.KeptSnoc | TrafficManagement.cpp:127-131 | Deciding one more entry extends the kept prefix by that entry if its position is short of the length, and by nothing otherwise. |
| Traffic.Simulation.constructor | TrafficManagement.cpp:163-170 | A new simulation has no lanes and no vehicles, nextId 1 and time 0. |
| Traffic.Simulation.AddLane | TrafficManagement.cpp:178-179 | One `push_back` of a new lane: the list of lanes grows by one new, empty lane with the given id, length and limit and a fresh RED light of durations 10, 3, 7. The invariant is kept and nothing else changes. |
| Traffic.Simulation.Setup | TrafficManagement.cpp:177-180 | Appends lane 1 (500 m, limit 50) and then lane 2 (600 m, limit 40), both empty with a fresh RED light of durations 10, 3, 7. |
| Traffic.KindOfIsOrdinalInverse | TrafficManagement.cpp:187 | The type index 0..3 maps to CAR, BUS, TRUCK and MOTORCYCLE and back, one-to-one. |
| Traffic.Simulation.GenerateVehicle | TrafficManagement.cpp:182-194 | A fresh vehicle gets id nextId, the drawn type and speed, and position 0, and points back to the drawn lane; nextId grows by 1. The vehicle is appended to exactly the drawn lane and to the simulation's list. Every other lane and every earlier vehicle is unchanged, and an earlier vehicle that no lane listed is still listed by none. |
| Traffic.Simulation.Enlist | TrafficManagement.cpp:191-193 | A fresh vehicle with id nextId, the given type and speed, and position 0 is appended to the simulation's list; nextId grows by 1; no lane changes. |
| Traffic.Simulation.Board | TrafficManagement.cpp:192 | The vehicle is appended to lane i and points back to it. No other lane changes. |
| Traffic.Simulation.Update | TrafficManagement.cpp:196-204 | Time grows by step. With a spawn draw of 0.3 or more, no vehicle is added. Below 0.3, exactly one fresh vehicle is added to the simulation's list, with id nextId and the drawn type, pointing back to the drawn lane; nextId grows by 1. Every lane has then made one `Lane.Update`: the drawn lane from its old contents with the new vehicle appended at speed d.speed and position 0, every other lane from its old contents. No earlier vehicle's lane back-reference changes, and an earlier vehicle that no lane listed does not change at all. |
| Traffic.Simulation.SpawnTick | TrafficManagement.cpp:196-204 | The same as Simulation.Update, for a draw that spawns, including the back-references and the erased vehicles left untouched. |
| Traffic.Simulation.SpawnAndUpdateLanes | TrafficManagement.cpp:198-203 | A spawn followed by the lane loop: the new vehicle points back to the drawn lane, the drawn lane is updated from its contents with the new vehicle appended, every other lane from its old contents. No earlier vehicle's back-reference changes, and an earlier vehicle that no lane listed does not change. |
| Traffic.Simulation.QuietTick | TrafficManagement.cpp:196-204 | The same as Simulation.Update, for a draw that does not spawn, including the back-references and the erased vehicles left untouched. |
| Traffic.Simulation.UpdateLanes | TrafficManagement.cpp:201-203 | Every lane, in stored order, makes exactly one lane update from its contents at the start of the loop. No vehicle's lane back-reference changes, and a vehicle no lane listed does not change at all. |
| Traffic.Simulation.UpdateLaneAt | TrafficManagement.cpp:202 | Lane i makes one lane update. No other lane changes, no vehicle's lane back-reference changes, and no vehicle lane i did not list changes at all. |
| Traffic.Simulation.IsRunning | TrafficManagement.cpp:226 | True exactly while the simulated time is below 60 s. |
| Traffic.Run | TrafficManagement.cpp:226-236 | The main loop with step 1 from a fresh, set-up simulation runs exactly 60 updates and stops with time 60 and `isRunning` false. |

## Left out

- `display()` is terminal output and is not modelled. That covers clearing the screen, the emoji light symbols, `getSymbol` and the 50-column road string. It also covers the `static_cast<int>` column computation that draws a marker only for columns in [0, 50).
- The pause of 500 ms in `main` and the final message are timing and output, not logic.
- `std::mt19937`, `std::random_device` and the uniform distributions are library randomness. Each draw is a parameter (`Draws`), and `DrawsInRange` states the distributions' ranges.
- Raw `new`/`delete` and the destructors are not modelled. A vehicle erased from a lane stays in the simulation's list, as in the program, where it is freed only at the end.
- The C++ `int` fields and parameters (`timer`, the step, `simTime`, `nextId`) are unbounded integers here, so overflow is not modelled; the program's values stay far below the 32-bit limit (at most 60 ticks of step 1).
- `double` arithmetic is modelled with exact `real` numbers. IEEE-754 rounding of `speed*1000.0/3600.0*timeStep` is not modelled.
- `speedLimit` is stored by `Lane` but never read by the program, so the model only keeps it.
- The `getState`, `getPosition` and other getters are the fields themselves (`TrafficLight.Current`, `Vehicle.Dynamics`).
- Traffic.Vehicle.Move: the program's check that the lane's light pointer is not null is not modelled, because a lane's light is a `const` that its constructor always sets.
- Traffic.Lane.AddVehicle: requires that the vehicle is not already on the lane. The program does not check this; its only caller passes a vehicle it has just created.
- Traffic.Simulation.GenerateVehicle: appends the new vehicle to the simulation's list (`Enlist`) before appending it to the lane (`Board`). The program does it the other way round. The two appends change different objects and nothing reads either list in between, so the order cannot be observed; the model's order keeps the rule that every vehicle on a lane was spawned by the simulation.
- Traffic.Lane.MoveVehicles: requires only that the list holds no vehicle twice and that every listed vehicle points back to the lane. The lane's full invariant is re-established by `Lane.Update`.
