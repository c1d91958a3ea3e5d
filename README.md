# Alarm delivery-window arbitration

A model of how one pending alarm of the Android alarm manager
(`com.android.server.alarm.Alarm`) derives its delivery window from a small
table of per-policy proposals. Every policy slot proposes an elapsed time
(a floor). The requester slot (`REQUESTER_POLICY_INDEX`) also carries the
requested window length as slack. Every other slot, such as app standby
(`APP_STANDBY_POLICY_INDEX`), is a hard floor with slack 0.

- `whenElapsed` is the largest proposed elapsed time.
- `maxWhenElapsed` is the largest personal ceiling, where a slot's ceiling is
  its elapsed time plus its slack.
- `setPolicyElapsed(slot, v)` always stores `v`. It returns `true` exactly when
  `whenElapsed` or `maxWhenElapsed` moved.

The source of `Alarm.java` is not available. Its behaviour is fixed by the
assertions of `AlarmTest.java`, and every one of them is replayed here as a
verified scenario.

Files:

- `Window.dfy` (module `Window`): the combination rules as pure functions
  over a table of any size. `MaxOf` of the elapsed table is `whenElapsed`.
  `Ceilings` gives each slot's elapsed time plus its slack, and `MaxWhenOf`,
  the `MaxOf` of those ceilings, is `maxWhenElapsed`. The lemmas cover the
  window invariant, how a write to one slot moves each bound, and the
  equivalence `maxWhenElapsed = max(requester elapsed + window, whenElapsed)`
  when only the requester has slack.
- `Alarm.dfy` (module `AlarmArbiter`): the class `Alarm`. It holds the
  elapsed table as an `array<nat>` that is overwritten in place and the slack
  table as a fixed `seq<nat>`. The two bounds are functions of the table and
  are never cached. `ComputeBounds` recomputes both in one loop over the
  slots. `SetPolicyElapsed` compares the bounds before and after its write.
- `Scenarios.dfy` (module `AlarmScenarios`): the four unit tests as five
  scenarios (the `setPolicyElapsed` test is split into its exact-alarm and
  inexact-alarm halves), replayed call by call on an `Alarm`, with each
  expected value asserted where the test asserts it.

## Model

| member | source | states |
|---|---|---|
| `Window.MaxOf` | services/tests/mockingservicestests/src/com/android/server/alarm/AlarmTest.java:60-74 | the result bounds every slot's value and is one of them (0 for an empty table) |
| `Window.RequesterOnly` | services/tests/mockingservicestests/src/com/android/server/alarm/AlarmTest.java:43-53 | the table has one entry per slot, `x` in the requester slot and 0 in every other; it is a new alarm's elapsed table (x = requested elapsed) and its slack table (x = window length) |
| `Window.InitialWindow` | services/tests/mockingservicestests/src/com/android/server/alarm/AlarmTest.java:79-80 | a new alarm's window is `[requestedElapsed, requestedElapsed + windowLength]` |
| `Window.WhenAtMostMaxWhen` | services/tests/mockingservicestests/src/com/android/server/alarm/AlarmTest.java:79-95 | for every table and slack table, `whenElapsed <= maxWhenElapsed` |
| `Window.MaxOfUpdate` | services/tests/mockingservicestests/src/com/android/server/alarm/AlarmTest.java:64-74 | after writing `v` to a slot, `whenElapsed` is the larger of `v` and the other slots' maximum, so lowering the dominant slot exposes the stored value of another |
| `Window.FloorSplitsAtSlot` | services/tests/mockingservicestests/src/com/android/server/alarm/AlarmTest.java:58-74 | the current `whenElapsed` is the larger of any one slot's value and the maximum of the other slots |
| `Window.MaxWhenAfterWrite` | services/tests/mockingservicestests/src/com/android/server/alarm/AlarmTest.java:82-95 | after writing `v` to a slot, `maxWhenElapsed` is the larger of `v` plus that slot's slack and the other slots' largest ceiling |
| `Window.MaxWhenIsRequesterCeilingOrWhen` | services/tests/mockingservicestests/src/com/android/server/alarm/AlarmTest.java:79-95 | when only the requester has slack, `maxWhenElapsed == max(requester elapsed + window, whenElapsed)` |
| `Window.StandbyDominatesOnlyBeyondRequesterCeiling` | services/tests/mockingservicestests/src/com/android/server/alarm/AlarmTest.java:88-95 | the standby slot's ceiling is its own elapsed value; it sets `maxWhenElapsed` exactly when it exceeds requester elapsed plus window |
| `Window.DominatedWriteIsSilent` | services/tests/mockingservicestests/src/com/android/server/alarm/AlarmTest.java:105-107 | a write to a slot that is dominated in floor and ceiling both before and after leaves both bounds unchanged |
| `Window.SoleFloorWriteMovesWhen` | services/tests/mockingservicestests/src/com/android/server/alarm/AlarmTest.java:67-71 | changing the value of the slot that alone sets the floor always moves `whenElapsed` |
| `AlarmArbiter.Alarm.constructor` | services/tests/mockingservicestests/src/com/android/server/alarm/AlarmTest.java:43-53 | the requester slot holds `requestedElapsed`, every other slot 0; `whenElapsed == requestedElapsed` and `maxWhenElapsed == requestedElapsed + windowLength` |
| `AlarmArbiter.Alarm.GetPolicyElapsed` | services/tests/mockingservicestests/src/com/android/server/alarm/AlarmTest.java:52-53 | returns the value last stored for the slot, which never exceeds `whenElapsed` |
| `AlarmArbiter.Alarm.WhenElapsed` | services/tests/mockingservicestests/src/com/android/server/alarm/AlarmTest.java:57-75 | no slot's elapsed value exceeds the result and some slot's value equals it |
| `AlarmArbiter.Alarm.MaxWhenElapsed` | services/tests/mockingservicestests/src/com/android/server/alarm/AlarmTest.java:78-96 | the result is `max(requester elapsed + windowLength, whenElapsed)` and is never below `whenElapsed` |
| `AlarmArbiter.Alarm.ComputeBounds` | services/tests/mockingservicestests/src/com/android/server/alarm/AlarmTest.java:57-96 | one pass over the slots yields exactly `whenElapsed` and `maxWhenElapsed` |
| `AlarmArbiter.Alarm.SetPolicyElapsed` | services/tests/mockingservicestests/src/com/android/server/alarm/AlarmTest.java:99-121 | the table afterwards is the old table with the slot set to `v`, whatever is returned; the result is true exactly when `whenElapsed` or `maxWhenElapsed` differs from before |
| `AlarmScenarios.InitSetsOnlyRequesterPolicy` | services/tests/mockingservicestests/src/com/android/server/alarm/AlarmTest.java:49-54 | an alarm built with `(4567, 2)` reads 4567 in the requester slot and 0 in the standby slot |
| `AlarmScenarios.WhenElapsedScenario` | services/tests/mockingservicestests/src/com/android/server/alarm/AlarmTest.java:56-75 | the test's write sequence observes `whenElapsed` 10, 12, 10, 7, 7 |
| `AlarmScenarios.MaxWhenElapsedScenario` | services/tests/mockingservicestests/src/com/android/server/alarm/AlarmTest.java:77-96 | the test's write sequence observes `maxWhenElapsed` 22, 27, 14, 14, 16, 14 |
| `AlarmScenarios.ExactAlarmChanges` | services/tests/mockingservicestests/src/com/android/server/alarm/AlarmTest.java:100-109 | with window 0 the writes report true, true, false, false, false, true; the standby slot still holds the unreported 8, and after the last write `whenElapsed` is 8, the stored standby value |
| `AlarmScenarios.InexactAlarmChanges` | services/tests/mockingservicestests/src/com/android/server/alarm/AlarmTest.java:111-120 | with window 5 the writes report true, true, true, true, false; the requester write of 8 keeps `whenElapsed` at 10 and moves `maxWhenElapsed` from 10 to 13, and is reported |

## Left out

- Alarm identity and delivery metadata: clock type, trigger time in wall-clock terms, interval, `PendingIntent`, listener, work source, flags, alarm-clock info, calling uid and package. They are stored by the alarm but never take part in the window computation.
- The enclosing scheduler (AlarmManagerService), its ordering of pending alarms, and the conversion between wall-clock and elapsed time. They only consume the boolean returned by `setPolicyElapsed`.
- Java `long` overflow of elapsed time plus window length. Elapsed values and slacks are unbounded `nat`s.
- Negative elapsed values are excluded by the `nat` type, and an out-of-range slot index is excluded by a precondition. In Java both are caller errors (an array index out of bounds for the slot); the model does not turn them into error values.
- The slot table of `Alarm` has exactly the two slots the tests use (`NUM_POLICIES = 2`), and only the requester slot has slack. In `Window`, `MaxOfUpdate`, `FloorSplitsAtSlot`, `MaxWhenAfterWrite`, `WhenAtMostMaxWhen`, `DominatedWriteIsSilent` and `SoleFloorWriteMovesWhen` hold for tables of any size and any per-slot slack. `MaxWhenIsRequesterCeilingOrWhen` holds for any size but only when the requester is the one slot with slack, and so does the `maxWhenElapsed` formula in `Alarm.MaxWhenElapsed`. `StandbyDominatesOnlyBeyondRequesterCeiling` and `InitialWindow` are about the two-slot table only.
- Concurrency: the alarm is used under the scheduler's lock; the model is sequential.
