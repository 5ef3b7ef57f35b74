# Four-way intersection signal cycle, in Dafny

This project models the signal-cycle engine of `road_trafic.c`, a console simulator of the traffic lights at one four-way intersection. The program keeps four `Road` records (North, South, East, West) in a fixed array. Each record holds a signal (RED, YELLOW or GREEN), a green time, a yellow time, a derived red time and the number of vehicles waiting. The program:

- fills the green and yellow times from a fixed policy (normal or rush) or from demand (adaptive);
- derives each road's red time as the other roads' green + yellow;
- runs a cycle that drives the roads of the active visiting order one at a time through RED → GREEN → YELLOW → RED.

The manual override rebuilds the visiting order: the chosen first road, then the remaining roads in index order.

The model keeps the program's imperative form:

- `Roads` (`roads.dfy`): the `Signal` and `Road` types and the predicates on road snapshots. `ResetSignalsToRed` and `SetVehicles` are loops that update an `array<Road>` in place.
- `Timing` (`timing.dfy`): the total loops, `ApplyModeTimings`, `AdaptiveGreen` and the nested loop of `ComputeRedTimes`. Each is proved against sequence functions (`SumGreen`, `SumOthers`, `FixedTimings`, …), and lemmas about those functions state the red-time identity and the adaptive bounds.
- `Sequencer` (`sequencer.dfy`): the default order and the manual override. `BuildOverrideOrder` is the `used[]`/`newOrder[]` loop of `main`. It is proved equal to a closed-form `OverrideOrder`, which lemmas show is a permutation of the four roads.
- `Engine` (`engine.dfy`): one phase and one full cycle. The countdowns do not change any road, so each phase records a ghost `PhaseSnapshot` of the roads at its GREEN moment and at its YELLOW moment. Lemmas over these traces state mutual exclusion and that each road is served exactly once. The class `Controller` holds the two arrays that `main` keeps between menu choices, and `ServeChoice` serves one menu choice.

Three points of the code's behaviour the model keeps as written:

- **Adaptive cap.** `adaptiveGreen` (road_trafic.c:131-134) caps the extra time `vehiclesWaiting / 5` at `maxExtra` from above only. `main` clamps every demand to ≥ 0 before that call, so the extra is never negative on any path of `main`.
- **Adaptive yellow.** `adaptiveGreen` sets only the green time, so the adaptive path keeps whatever yellow time was set before. At start-up that is 3, from the initialiser at road_trafic.c:226-230.
- **Mode is an integer.** In `applyModeTimings` (road_trafic.c:107-123) mode 1 gives green 8 and every other mode, not only 2, gives green 12.

## Model

| member | source | states |
|---|---|---|
| `Roads.OnlyActiveIsExclusive` | road_trafic.c:165-169 | once every road is forced RED and road idx is lit, exactly one road is non-RED, and it is idx |
| `Roads.AllRedHasNoActive` | road_trafic.c:89-93 | after every signal is forced RED, no road is GREEN or YELLOW |
| `Roads.ClampDemand` | road_trafic.c:102-103 | the stored demand is never negative, and a non-negative entry is stored as entered |
| `Roads.ResetSignalsToRed` | road_trafic.c:89-93 | every signal becomes RED; timings, red time and demand are unchanged |
| `Roads.SetVehicles` | road_trafic.c:95-105 | each road's demand becomes the entered value, or 0 when that value is negative; no other field changes |
| `Timing.TotalGreenTime` | road_trafic.c:73-79 | returns the sum of the four green times; the array is only read |
| `Timing.TotalYellowTime` | road_trafic.c:81-87 | returns the sum of the four yellow times; the array is only read |
| `Timing.SumOthersIsTotalMinusOwn` | road_trafic.c:138-152 | a road's red time, the others' green + yellow, equals total green + total yellow minus the road's own green + yellow |
| `Timing.UniformRedTime` | road_trafic.c:138-152 | when every road has the same green + yellow L, every red time is (Lanes - 1) · L |
| `Timing.ComputeRedTimes` | road_trafic.c:138-152 | each red time becomes the sum of the other roads' green + yellow, which equals the totals minus the road's own; no green, yellow, signal or demand changes |
| `Timing.ApplyModeTimings` | road_trafic.c:107-123 | every road gets yellow 3 and green 8 for mode 1, 12 for any other mode; signal, red time and demand are unchanged |
| `Timing.TruncDiv` | road_trafic.c:131 | C's `int` division by a positive divisor: the remainder is in [0, b) for a non-negative dividend and in (-b, 0] for a negative one |
| `Timing.AdaptiveGreenForDemand` | road_trafic.c:125-136 | for a non-negative demand v the adaptive green is base + min(v / 5, maxExtra), and lies in [base, base + maxExtra] when maxExtra ≥ 0 |
| `Timing.AdaptiveGreenMonotone` | road_trafic.c:125-136 | more waiting vehicles never give a shorter adaptive green |
| `Timing.AdaptiveGreen` | road_trafic.c:125-136 | each green becomes base + the demand/5 extra (truncating), capped at maxExtra; yellow, signal, red time and demand are unchanged |
| `Sequencer.OverrideOrderShape` | road_trafic.c:283-297 | the override order has four entries: the chosen road (0 when out of range), then the other roads strictly ascending |
| `Sequencer.OverrideOrderIsPermutation` | road_trafic.c:283-297 | the override order lists every road exactly once |
| `Sequencer.OverrideOrderBuilt` | road_trafic.c:287-297 | the closed-form order equals the chosen road followed by every unused index in ascending order |
| `Sequencer.OverrideOrderExamples` | road_trafic.c:283-297 | first = 2 gives [2, 0, 1, 3]; first = 9 falls back to [0, 1, 2, 3] |
| `Sequencer.DefaultOrderIsPermutation` | road_trafic.c:233 | the start-up order [0, 2, 1, 3] lists every road exactly once |
| `Sequencer.PermutationFacts` | road_trafic.c:201-204 | an order that is a permutation has four entries, all valid road indices, none repeated, and every road present |
| `Sequencer.BuildOverrideOrder` | road_trafic.c:283-297 | the used-flags loop yields exactly the override order: four entries, starting with the validated first road, a permutation |
| `Sequencer.ApplyManualOverride` | road_trafic.c:283-301 | the active order array afterwards holds the override order, a permutation that starts with the validated first road |
| `Engine.SimulateOneRoadPhase` | road_trafic.c:165-187 | at the GREEN moment only idx is GREEN, at the YELLOW moment only idx is YELLOW, all other roads RED; on return every road is RED and no timing or demand changed |
| `Engine.SimulateCycle` | road_trafic.c:189-211 | red times are derived first; then the roads of the order are served one phase each, in that order; at the end every road is RED with its new red time and nothing else changed |
| `Engine.CycleIsMutuallyExclusive` | road_trafic.c:201-204 | at every GREEN and YELLOW moment of a cycle exactly one road is lit |
| `Engine.CycleVisitsEachRoadOnce` | road_trafic.c:201-204 | a cycle serves the roads in the order given; with a permutation it serves every road, and none twice |
| `Engine.NormalCycleFromStart` | road_trafic.c:226-259 | normal mode from start-up with no vehicles and the default order serves North, East, South, West with GREEN 8 and YELLOW 3, and ends all RED with red time 33 |
| `Engine.Controller.constructor` | road_trafic.c:226-233 | start-up: four RED roads with green 8, yellow 3, no red time, no demand; the default order; the class invariant holds: the order is a permutation, every road RED, every demand ≥ 0 |
| `Engine.Controller.ServeChoice` | road_trafic.c:248-311 | choices 1 and 2 apply the fixed timings, then the demand, then a cycle; 3 applies the demand, then the adaptive green (base 8, cap 8, yellow kept), then a cycle; 4 rebuilds the order, applies the demand and normal timings, then runs a cycle; 5 stops the loop; any other choice changes nothing; between choices the order stays a permutation, every road is RED and every demand is ≥ 0 |
| `Engine.NormalModeFromStart` | road_trafic.c:226-259 | start-up followed by choice 1 with no vehicles: the loop goes on, the order stays [0, 2, 1, 3], the phases serve North, East, South, West with GREEN 8 and YELLOW 3, and every road ends RED with red time 33 |

## Left out

- Console rendering is not modelled: `clearScreen`, `printHeader`, `printRoadStatus`, `signalToStr`, `showMenu`, and every `printf`/`fflush`. It is presentation only. `SimulateCycle` reads the two totals but does not display them.
- `waitSec` and `countdownPrint` are not modelled: they sleep in real time and change no road. Each GREEN or YELLOW hold is a ghost snapshot instead, and the hold length is the served road's green or yellow time in that snapshot.
- The `scanf` parsing, the `while (1)` menu loop and the exit on non-integer input are not modelled. `ServeChoice` serves one choice: the entered demand values and first-road index are its parameters, and `running` says whether the loop goes on.
- Mutual exclusion (`CycleIsMutuallyExclusive`) is stated at the GREEN and YELLOW hold moments of each phase. At every other moment no road is lit: during the cycle-header hold (road_trafic.c:199), between phases, and in the final hold (road_trafic.c:210) every road is RED, which `SimulateOneRoadPhase`, `SimulateCycle` and `AllRedHasNoActive` state.
- The road `name` strings are not modelled; they are display-only.
- C `int` overflow in the sums is not modelled. All integers are mathematical. The timings are small constants, so this changes no path of `main`.
- `SimulateOneRoadPhase` and `SimulateCycle` require every road index they use to be in 0..3. The C code does not check this: an out-of-range index is undefined behaviour, and every caller passes a permutation of 0..3.
