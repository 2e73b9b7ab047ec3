# Dining-philosophers monitor, modelled in Dafny

This project models the monitor `Monitor` of a dining-philosophers program.
`n` philosophers sit round a table with one chopstick between each
neighbouring pair. Philosopher `id` (1..n) eats with the chopstick at index
`id - 1` (its left) and the one at index `id % n` (its right). The monitor
keeps one record per chopstick: whether it is picked up, and which
philosopher last picked it up (0 until anybody has). It also keeps one flag
saying whether somebody is talking. It offers four entry points:

- `pickUp(id)` loops until neither chopstick is held by another philosopher. It then takes both.
- While waiting, `pickUp` may claim a chopstick ahead of time. This fairness rule favours philosophers who were not the last to use a freed chopstick.
- `putDown(id)` releases both chopsticks of `id`.
- `requestTalk()` waits until nobody talks, then sets the flag.
- `endTalk()` clears the flag.

Every entry point runs under the monitor lock, so each one, and each iteration
of a waiting loop, is an atomic step. The model has four layers:

- `table.dfy`, module `TableSpec`: the monitor's state as a value.
  - `Stick` is one chopstick record. `Table` is the chopsticks plus the talk flag.
  - There is one function per atomic step: `PickUpStep`, `PutDownStep`, `RequestTalkStep` and `EndTalkStep`.
  - Each function's contract says exactly what the step changes and what it leaves alone.
- `monitor.dfy`, module `DiningMonitor`: the source's objects.
  - Class `Chopstick` has two mutable fields. Class `Monitor` holds an `array<Chopstick>`, `noP` and `someonetalking`.
  - Each method is proved to change the objects exactly as the matching `TableSpec` step says.
  - Two client methods step a fresh `Monitor` object through the five-seat and talk scenarios.
- `traces.dfy`, module `TableTraces`: runs, meaning any sequence of atomic steps taken by any threads. It proves three things:
  - every chopstick is either untouched or was last taken by one of its two neighbours;
  - steps of other philosophers leave a chopstick alone;
  - once a talk request has completed, no second request can complete until `endTalk`.
- `exclusion.dfy`, module `Exclusion`: mutual exclusion among eating philosophers. See "## Findings".

## Model

| member | source | states |
|---|---|---|
| `DiningMonitor.Chopstick.constructor` | src/Monitor.java:36-40 | a new chopstick is not picked up and was last picked up by nobody (0) |
| `DiningMonitor.Chopstick.LastPickedUpByMe` | src/Monitor.java:47-50 | true exactly when `id` was the last to pick the chopstick up, whether or not it is still held |
| `DiningMonitor.Chopstick.PickedUpByAnother` | src/Monitor.java:57-60 | true exactly when the chopstick is held and its last taker is not `id` |
| `DiningMonitor.Chopstick.PickUp` | src/Monitor.java:66-70 | both fields are set: held, by `id` |
| `DiningMonitor.Chopstick.PutDown` | src/Monitor.java:75-78 | the chopstick is no longer held and its last taker is kept |
| `TableSpec.Stick.PickUp` | src/Monitor.java:66-70 | after pick-up the chopstick is held by `id`: not held by another for `id`, held by another for every other philosopher |
| `TableSpec.Stick.PutDown` | src/Monitor.java:75-78 | after put-down nobody sees the chopstick as held by another, and the last taker is unchanged |
| `TableSpec.QueriesAgree` | src/Monitor.java:47-60 | held by another means held and not last taken by me; a free chopstick is held by another for nobody |
| `TableSpec.Left` | src/Monitor.java:110 | for 1 <= id <= n the left index id - 1 lies in [0, n) |
| `TableSpec.Right` | src/Monitor.java:114 | for 1 <= id <= n the right index lies in [0, n) and is the next index round the table, 0 for the last philosopher |
| `TableSpec.RightIsNextLeft` | src/Monitor.java:110-114 | the right chopstick of `id` is the left chopstick of the next philosopher round the table |
| `TableSpec.Initial` | src/Monitor.java:84-95 | a new table of `n` has `n` chopsticks, none held, none ever taken, and nobody talking |
| `DiningMonitor.Monitor.constructor` | src/Monitor.java:84-95 | the new monitor has `noP == n`, `n` distinct fresh chopstick objects filled in by the loop, and its state is `Initial(n)` |
| `TableSpec.PickUpStep` | src/Monitor.java:112-135 | one loop pass. It exits exactly when neither adjacent chopstick is held by another, and then both are held by `id`. When it waits, the left chopstick becomes held by `id` if either adjacent one is free and was not last taken by `id`, and otherwise stays. No other chopstick and not the talk flag changes |
| `DiningMonitor.Monitor.PickUpStep` | src/Monitor.java:107-145 | one iteration of the `while(true)` loop on the chopstick objects. It writes only the two adjacent objects, its new state is `TableSpec.PickUpStep` of the old one, and `exits` is that step's `done` |
| `TableSpec.PickUpIdempotent` | src/Monitor.java:129-135 | re-entrant acquisition: after an exiting pass, a second pass by the same philosopher exits at once and changes nothing |
| `TableSpec.PutDownStep` | src/Monitor.java:151-158 | afterwards exactly the chopsticks adjacent to `id` are free, whoever held them. Every last-taker is kept, every other chopstick keeps its held flag, and the talk flag is unchanged |
| `DiningMonitor.Monitor.PutDown` | src/Monitor.java:151-158 | writes only the two adjacent chopstick objects; the new state is `PutDownStep` of the old one |
| `TableSpec.PickUpThenPutDown` | src/Monitor.java:129-155 | an exiting pick-up followed by put-down leaves both chopsticks free and last taken by `id`, and every other chopstick as it was before |
| `TableSpec.RequestTalkStep` | src/Monitor.java:164-180 | one check of the talk request: it completes exactly when nobody was talking, and afterwards somebody is; chopsticks unchanged |
| `DiningMonitor.Monitor.RequestTalkStep` | src/Monitor.java:164-180 | changes only `someonetalking`, as `TableSpec.RequestTalkStep` says, and reports whether the request completed |
| `TableSpec.EndTalkStep` | src/Monitor.java:186-191 | the flag is cleared whatever its value; chopsticks unchanged |
| `DiningMonitor.Monitor.EndTalk` | src/Monitor.java:186-191 | changes only `someonetalking`, to false |
| `TableSpec.TalkRoundTrip` | src/Monitor.java:164-191 | a completed talk request followed by `endTalk` gives back exactly the state before the request |
| `TableTraces.Apply` | src/Monitor.java:107-191 | any single step leaves every chopstick that its philosopher does not sit beside unchanged, and chopstick steps leave the talk flag unchanged |
| `TableTraces.Run` | src/Monitor.java:19-22 | any run of steps keeps the number of chopsticks fixed |
| `TableTraces.InitialConsistent` | src/Monitor.java:84-95 | a new table is consistent: every chopstick is untouched |
| `TableTraces.ApplyKeepsConsistent` | src/Monitor.java:107-191 | every step keeps each chopstick either untouched or last taken by one of its two neighbours |
| `TableTraces.RunKeepsConsistent` | src/Monitor.java:107-191 | the same for every run of steps: a held chopstick is always held by one of its neighbours |
| `TableTraces.RunLeavesUntouched` | src/Monitor.java:110-155 | steps of philosophers who do not sit beside chopstick `k`, and talk steps, never change chopstick `k` |
| `TableTraces.NoSecondSpeaker` | src/Monitor.java:164-191 | once the flag is set, every run without `endTalk` keeps it set and leaves any further talk request waiting |
| `TableTraces.FiveSeatScenario` | src/Monitor.java:107-158 | with five at a new table: philosopher 1 acquires at once; philosopher 2 waits; after philosopher 1 puts down, philosopher 2 acquires |
| `DiningMonitor.TableOfFive` | src/Monitor.java:107-158 | the same scenario on a `Monitor` object |
| `TableTraces.TalkScenario` | src/Monitor.java:164-191 | A's request completes; B's waits; after A ends, B's completes and C's waits |
| `DiningMonitor.ThreeSpeakers` | src/Monitor.java:164-191 | the same scenario on a `Monitor` object |
| `Exclusion.IntendedPickUpStep` | src/Monitor.java:124-127 | corrected step. It exits under the same condition as before. While waiting, the left chopstick becomes held by `id` if it passes the claim test. Otherwise the right one becomes held by `id` if it passes the test: this is the branch at line 126, corrected. Nothing else changes |
| `Exclusion.StepsAgreeUnlessOnlyRightClaimable` | src/Monitor.java:114-135 | the as-written and corrected steps agree except when the step waits, the left chopstick fails the claim test and the right one passes it |
| `Exclusion.ExclusiveDisjoint` | src/Monitor.java:110-114 | when every eating philosopher holds both of its chopsticks, no chopstick is adjacent to two eating philosophers |
| `Exclusion.IntendedStepKeepsExclusive` | src/Monitor.java:114-158 | with the corrected step, every step keeps every eating philosopher holding both of its chopsticks. Callers put down only while eating; acquiring is allowed at any time, also again while eating (the re-entrant case of line 131) |
| `Exclusion.IntendedRunExclusive` | src/Monitor.java:114-158 | the same for every run under the same calling rule |
| `Exclusion.IntendedNeverShares` | src/Monitor.java:84-158 | with the corrected step, from a new monitor, after any run under that rule, no chopstick is adjacent to two eating philosophers |
| `Exclusion.IntendedWaitIsStable` | src/Monitor.java:120-127 | with the corrected step, a waiting philosopher's next pass, with nothing in between, waits again |
| `Exclusion.AsWrittenStepBreaksExclusive` | src/Monitor.java:124-126 | as written, one waiting pass of philosopher 2 next to an eating philosopher 1 takes chopstick 1 out of philosopher 1's hand |
| `Exclusion.AsWrittenNeighboursEatTogether` | src/Monitor.java:124-126 | as written, at a new table of five, this run ends with philosophers 1 and 2 both eating, and both use chopstick 1: pickUp(1), a waiting pass of pickUp(2), requestTalk and endTalk (whose `notifyAll` wakes philosopher 2), then an exiting pass of pickUp(2) |

## Findings

| source | as written | input that shows it | evidently intended | confidence | as-written member | corrected member |
|---|---|---|---|---|---|---|
| src/Monitor.java:124-126 | when the right chopstick passes the claim test and the left one does not, the left chopstick is claimed, even though a neighbour may be holding it | five philosophers, new monitor. pickUp(1) returns. One pass of pickUp(2) marks chopstick 1 as held by 2. Another philosopher's requestTalk and endTalk end with `notifyAll`. The next pass of pickUp(2) then returns while philosopher 1 still eats with chopstick 1 | claim the right chopstick, the one that passed the test; the comment at lines 117-119 speaks of picking up the available chopsticks | not executed; medium | `Exclusion.AsWrittenNeighboursEatTogether` | `Exclusion.IntendedRunExclusive` |

`DiningMonitor.Monitor.PickUpStep` and `TableSpec.PickUpStep` keep line 126
as written, because they model what the program does. The corrected step
appears only in `Exclusion`, together with the proof that it keeps mutual
exclusion. Both are stated over the same runs under the same calling rule: a
philosopher puts down only while eating, and may call pickUp at any time,
including again while eating.

## Left out

- The monitor lock, `wait()` and `notifyAll()`: each lock-held segment is one atomic step, and interleavings are sequences of steps (`TableTraces.Run`).
- `DiningMonitor.Monitor.PickUpStep`: models one iteration of the `while(true)` loop (lines 112-144), not the blocking call. A call that returns is a sequence of waiting passes ending in one exiting pass.
- Wake-ups: `TableTraces.Run` and `Exclusion.Follows` allow a waiting pass to follow another at any time, even with no `notifyAll` in between. So runs include more wake-ups than Java gives. This is sound for the invariants proved over all runs, and the counterexample run does contain a `notifyAll`.
- `DiningMonitor.Monitor.RequestTalkStep`: models one check of the waiting loop (lines 167-179). A request that does not complete is the caller waiting and trying again.
- The `InterruptedException` handlers (lines 139-143, 169-175) are left out. They print to standard error, call `DiningPhilosophers.reportException` and exit the process. `DiningPhilosophers` is not part of this model.
- Liveness and starvation freedom: these depend on thread scheduling, not on the steps.
- Philosopher ids outside 1..n: the source indexes the array with them and throws `ArrayIndexOutOfBoundsException`, which nothing catches. The model requires 1 <= id <= n instead.
- A negative number of philosophers: the constructor takes a `nat`, since Java would throw `NegativeArraySizeException`.
- Java's 32-bit `int`: ids are at most n, the array length. So `id % n` and `id - 1` never overflow, and they agree with Dafny's unbounded arithmetic.
- Who holds the talk privilege: the source keeps only a flag, and `endTalk` clears it whoever calls it. The model does the same and does not track a holder.
- A global "no two philosophers share a chopstick" invariant for the program as written: it does not hold (see "## Findings"). It is proved only for the corrected step.
