# Verified models of the NTU Racing Team Zephyr common library

The library runs on the control units of a race car. This project models the parts of it that keep
state over time or do delicate arithmetic, and proves what their documentation promises, or finds
exactly when the code keeps that promise.

`dafny verify dfyconfig.toml` verifies everything.

| files | what they model |
|---|---|
| `Types`, `CInteger`, `Kernel`, `InputEvents` | options; C division and Zephyr's `DIV_ROUND_CLOSEST`; the contracts of kernel timers and delayable work; input events |
| `Aggregation`, `AggregationTiming`, `AggregationLimits`, `AggregationDormancy` | data aggregation: the four entry points; every interleaving of them with timer expiries, the work queue and the clock; exactly when the documented separation and the documented dormancy hold |
| `TypedAggregation` | aggregation of a struct: every interleaving of write, signal, clear and copy |
| `Telemetry`, `TelemetryCoherence`, `TelemetryProgress` | telemetry data, aliases and groups; every interleaving of updates and group publications |
| `SensorAxis`, `SensorAxisArithmetic`, `SensorAxisChecks`, `SensorAxisOutcomes`, `SensorAxisRuns` | the sensor axis: normalisation, debounce, noise and deadzone, in one cycle and over whole runs |
| `Accel`, `AccelInputs`, `AccelTravel`, `PedalPipeline`, `PedalThrottle` | the pedal plausibility device, in terms of the events it receives, its thresholds against the pedal's travel, and both pedal channels feeding it |
| `ErrRegistry` | the error registry with deferred dispatch |
| `ShiftRegister`, `SegText`, `SegPictures`, `SegDisplay` | the shift-register chain, and the seven-segment display on it |
| `HallRpm` | the integer exponential filter of the wheel-speed sensor |

Each module whose source changes state in place has a class with the same fields and methods. The
class is proved equal, call by call, to functions on its abstract state, and the theorems are about
runs of those functions.

## What the models take for granted

- The environment is a parameter of each call: what a sensor reads, what an input report or an SPI
  transfer returns (a negative number is a failure), the clock in ticks. A failed input report
  delivers nothing. A failed SPI transfer leaves the registers as they were.
- Kernel services follow the contracts in `Kernel.dfy`. Timers are one-shot. Time does not pass a
  deadline that has not been served. A queued work item starts within `latency` ticks, and not
  while an expired deadline still waits for its interrupt. Aggregations share one work-queue thread;
  what one of them waits for the others is part of its latency.
- Taking the work item off the queue and the locked section of `agg_work_cb`, its dormant return
  included, are one step. A timer's expiry and its callback are one step.
- Bit masks are sets of bit numbers, which is exact for the operations used (`|`, `&`, `~`, `^`).
  Linked lists are sequences, hash maps are maps, data words are integers.
- What the source asserts, or a definition macro refuses to compile, is a precondition: fewer than
  32 members, distinct addresses and error codes, one severity for each error, aliases of normal
  data, a deadzone no smaller than the noise.
- The divided range between two setpoints is not 0, as the source divides by it.

## What turned out differently from the documentation

- The minimum separation holds between commits, the instants at which both timers restart. It needs
  a minimum separation of at most period plus watermark, unless no publication can be late
  (`AggregationLimits.SeparationCondition`). Publications come closer together by whatever the first
  of them waits for the work queue, up to its latency, but never in the same tick
  (`AggregationLimits.QueueingBreaksPublicationSeparation`,
  `AggregationLimits.PublicationSeparationCondition`).
- An aggregation that is left alone goes dormant exactly if it has a required member, or none that
  counts (`AggregationDormancy.DormancyCondition`). With optional members alone it never does once it
  has started.
- The time tolerance of a sensor axis advances once for each bad sensor rather than once for each
  cycle. It is kept in every run exactly if there is one sensor, or the tolerance is over with the
  first bad cycle anyway (`SensorAxisRuns.ToleranceCondition`). A set error can be cleared exactly if
  there is no tolerance or its decay does not round down to nothing
  (`SensorAxisRuns.ClearCondition`).
- The plausibility thresholds are shares of the pedal's travel but are compared to its value, which
  is right exactly for a minimum of 0, if the maximum is not below it (`AccelTravel.TravelCondition`).
  With a positive minimum the check trips too early and lets go too late, with a negative one the
  other way around.
- The accelerator value `INT32_MAX` also stands for no output. It is lost exactly while it is all
  there has been since the device was last blocked or not ready
  (`Accel.ThrottleIsPassedOnCondition`).
- Deferred errors are dispatched latest report first, and the ones set by definition last
  (`ErrRegistry.DispatchIsBackwards`). `doc/library/errors.rst` says the opposite, which comes out
  only in the cases of `ErrRegistry.DocumentedOrderCondition`.
- A failed initialisation of the shift-register chain is reported once and not made up for, and a
  write that changes nothing succeeds without a transfer. So the chain shows what was written exactly
  once some write has changed the buffer (`ShiftRegister.FailedInitCondition`).
- The end of the display's table of ports is marked by a free entry. There is none exactly if the
  display has decimal points and a port of its own for every segment
  (`SegDisplay.FreeEntryCondition`, `SegDisplay.FullTableCondition`), and then `set_gpios` runs off
  the table.
- Nothing keeps the smoothing factor of the speed filter at or below 1000
  (`HallRpm.BetweenCondition`, `HallRpm.AlphaCondition`).

## Model

| member | source | states |
|---|---|---|
| `Aggregation.Agg.constructor` | include/nturt/msg/aggregation.h:58-80 | A new aggregation has no member marked, no timer armed and no work pending |
| `Aggregation.Agg.Update` | subsys/msg/aggregation.c:34-63 | One update takes the whole state (members, both timers, work flags, commits) to the one the protocol theorems are about, in every case: ignored member, cold start, complete set before or after the minimum separation |
| `Aggregation.Agg.PublishNow` | subsys/msg/aggregation.c:52-60 | Restarts both timers and queues the work without delay; tells an overrun exactly if the item was still queued or running |
| `Aggregation.Agg.PeriodTimerCallback` | subsys/msg/aggregation.c:65-71 | The end of the period only schedules the work for the watermark |
| `Aggregation.Agg.EarlyTimerCallback` | subsys/msg/aggregation.c:73-89 | The end of the minimum separation commits exactly if the set is complete |
| `Aggregation.Agg.WorkCallback` | subsys/msg/aggregation.c:91-121 | Calls publish exactly if the aggregation does not go dormant; a publication clears all members, and restarts the timers if the set was not complete |
| `Aggregation.UpdateCommitsExactly` | subsys/msg/aggregation.c:34-63 | An update marks its member alone, and commits exactly if the member is not ignored, the early timer is not running, and every other member that is neither ignored nor optional is marked |
| `Aggregation.EarlyTimerCommitsExactly` | subsys/msg/aggregation.c:73-89 | The end of the separation commits exactly if no member that is neither ignored nor optional is missing |
| `Aggregation.WorkPublishesExactly` | subsys/msg/aggregation.c:97-120 | The work callback publishes exactly if a member is marked or it always publishes, picks up all marks, and commits exactly if a member that is neither ignored nor optional is missing |
| `Aggregation.RequiredMembers` | include/nturt/msg/aggregation.h:48-49 | The set is complete exactly if every member without one of the two flags is marked |
| `AggregationTiming.StepKeepsInvariant` | subsys/msg/aggregation.c:34-121 | Every step of every interleaving keeps the protocol invariant: timers follow the last commit, a delay is only armed after the period, a queued item is complete or late, a complete set waits on the early timer, updates keep something armed |
| `AggregationTiming.RunKeepsInvariant` | subsys/msg/aggregation.c:34-121 | So does every run |
| `AggregationTiming.CommitsAreSeparated` | subsys/msg/aggregation.c:49-54 | In every run, consecutive commits, by update, by early timer or by late work, are at least the minimum separation apart |
| `AggregationTiming.PublicationsAreSeparated` | doc/library/aggregation.rst:27-30 | Consecutive publications are at least a tick apart, and at least the minimum separation less the latency; one that is incomplete comes period plus watermark, less the latency, after the one before |
| `AggregationTiming.UpdatesAreNeverForgotten` | subsys/msg/aggregation.c:43-47 | No lost wake-up: with a member marked or a publication under way, the period timer is armed or the work is delayed or queued |
| `AggregationTiming.StalenessIsBounded` | subsys/msg/aggregation.c:40-71 | In every run, a marked member waits no longer than period, watermark and latency after the first unpublished update, and no publication has picked one up later than that |
| `AggregationTiming.FullSetIsHeldBackOnlyBySeparation` | subsys/msg/aggregation.c:73-89 | With a required member, a complete set is held back at most until the minimum separation after the last commit: the early timer is armed for exactly that instant |
| `AggregationTiming.NothingToPublishGoesDormant` | subsys/msg/aggregation.c:97-102 | With a required member, a work callback that finds no member marked leaves no timer and no work armed, and publishes nothing |
| `AggregationTiming.DormantStaysSilent` | doc/library/aggregation.rst:57-61 | From then on only time passes in every run without an update of a member that is not ignored |
| `AggregationTiming.UpdateEndsDormancy` | doc/library/aggregation.rst:63-65 | Any such update queues the work: at once if the set is complete or there is no watermark, and otherwise after exactly the watermark |
| `AggregationDormancy.ColdStartPublishesInTime` | doc/library/aggregation.rst:63-65 | In every run from that update, the next publication holds the updated member and starts within watermark and latency |
| `AggregationTiming.AlwaysPublishNeverGoesDormant` | doc/library/aggregation.rst:67-70 | Once started, an aggregation that always publishes stays armed, commits within period, watermark and latency of the last commit, and publishes each commit within the latency |
| `AggregationTiming.OnlyOptionalMembersNeverGoDormant` | subsys/msg/aggregation.c:73-80 | Without a required member it never goes dormant once started, flag or not |
| `AggregationTiming.TimeAlwaysPasses` | subsys/msg/aggregation.c:34-121 | The bounds do not hold because time stops: from every state of a run the kernel alone reaches, in the same tick, a state in which time passes |
| `AggregationLimits.LatePublicationsBreakSeparation` | subsys/msg/aggregation.c:104-110 | If a publication can be late, a run in which a late commit comes too soon for a minimum separation beyond period plus watermark |
| `AggregationLimits.RunCommitsWithEarlyTimer` | subsys/msg/aggregation.c:49-54 | If none can be late, every run commits only once the early timer is over, however long the minimum separation |
| `AggregationLimits.SeparationCondition` | doc/library/aggregation.rst:28 | For every aggregation with a latency below its period, commits are separated in every run exactly if the minimum separation is at most period plus watermark, or no publication can be late |
| `AggregationLimits.QueueingBreaksPublicationSeparation` | subsys/msg/aggregation.c:52-60 | For every aggregation with a member that counts, and every wait up to the latency and below the minimum separation, a run in which two publications are that much closer than the minimum separation |
| `AggregationLimits.PublicationSeparationCondition` | doc/library/aggregation.rst:28 | For every aggregation, publications are separated in every run exactly if the latency is 0, the minimum separation is 1, or every member is ignored |
| `AggregationDormancy.QuietRunGoesDormant` | doc/library/aggregation.rst:57-61 | With a required member, in every run without updates the aggregation is dormant after two rounds of period, watermark and latency |
| `AggregationDormancy.OneUpdateIsNeverForgotten` | subsys/msg/aggregation.c:73-80 | Without one, a run that is not dormant after any number of ticks since its only update |
| `AggregationDormancy.DormancyCondition` | doc/library/aggregation.rst:57-61 | An aggregation that does not always publish goes dormant in every run that leaves it alone for two rounds exactly if some member is required, or all are ignored |
| `TypedAggregation.AggTyped.constructor` | include/nturt/msg/aggregation.h:153-169 | Live data as given, published data zero, and a fresh aggregation with its own memory |
| `TypedAggregation.AggTyped.Update` | include/nturt/msg/aggregation.h:181-191 | Changes one live member and no published one, and signals exactly that member |
| `TypedAggregation.AggTyped.Publish` | subsys/msg/aggregation.c:123-134 | Publishes the live data of that instant, all members, and changes neither it nor the aggregation |
| `TypedAggregation.TypedStepKeepsInvariant` | include/nturt/msg/aggregation.h:181-191 | Every write, signal, clear and copy, in any order, keeps: a signalled version that is not copied is marked or about to be copied |
| `TypedAggregation.TypedRunKeepsInvariant` | subsys/msg/aggregation.c:117-134 | So does every run, and its aggregation is a run of the timed protocol |
| `TypedAggregation.ClearBitMeansPublished` | subsys/msg/aggregation.c:117-134 | After the first publication a member that is not marked equals its published copy, outside the two windows of clear/copy and write/signal |
| `TypedAggregation.SnapshotsCoverWhatTheyClear` | doc/library/aggregation.rst:82-85 | Each publication holds, of every member whose mark it cleared, the value signalled by then or a newer one |
| `TypedAggregation.StaleMemberIsPublishedInTime` | subsys/msg/aggregation.c:117-134 | A published member that differs from the live one is marked, and waits within period, watermark and latency of the first unpublished update |
| `Telemetry.Store.constructor` | subsys/telemetry/telemetry.c:99-135 | After initialisation every address finds its datum, and the lists are the reverse index of the groups |
| `Telemetry.Store.IndexAddresses` | subsys/telemetry/telemetry.c:102-111 | The map holds each datum under its address, and nothing else |
| `Telemetry.Store.BuildLists` | subsys/telemetry/telemetry.c:122-132 | The list of each datum holds exactly the slots that resolve to it through aliases, each once |
| `Telemetry.HoldingIsExact` | subsys/telemetry/telemetry.c:122-132 | Collecting slots in order keeps exactly those that resolve to a datum, without duplicates |
| `Telemetry.Store.DataGet` | subsys/telemetry/telemetry.c:32-45 | Found exactly if some datum or alias has the address, and then the value of what that resolves to |
| `Telemetry.Store.DataUpdate` | subsys/telemetry/telemetry.c:47-63 | Found exactly if some datum or alias has the address; writes what that resolves to and nothing else, and signals each of its slots in order; not found changes nothing |
| `Telemetry.Store.NotifyLock` | subsys/telemetry/telemetry.c:65-70 | Updates the aggregation of every slot in the list of the datum, and no other |
| `Telemetry.Store.PublishGroup` | subsys/telemetry/telemetry.c:72-87 | Copies each slot of one group from its resolved datum, leaves other groups alone, and publishes each copy under the slot's own address |
| `Telemetry.ListsHoldWhatStandsFor` | subsys/telemetry/telemetry.c:122-131 | A slot is in the list of a datum exactly if the slot's own entry is that datum or an alias whose target it is |
| `Telemetry.EntryStandsForOne` | subsys/telemetry/telemetry.c:113-119 | Every entry stands for exactly one datum, and that is a normal one |
| `Telemetry.UpdateSignalsWhatStandsFor` | subsys/telemetry/telemetry.c:47-70 | An update through any address of a datum signals exactly the slots whose entries stand for it |
| `Telemetry.UpdateThenPublish` | subsys/telemetry/telemetry.c:72-87 | After an update through any address, each slot publishes under the address of its own entry: the new value if both stand for the same datum, and what its datum was before otherwise |
| `Telemetry.UpdateThenGet` | include/nturt/telemetry.h:173-205 | A write through one address is read through another exactly if both resolve to the same datum; otherwise the reader sees no change |
| `TelemetryCoherence.StepKeepsInvariant` | subsys/telemetry/telemetry.c:47-87 | Every step of any number of updates, notifications, copies and work items keeps every slot coherent and every group a run of the timed protocol |
| `TelemetryCoherence.RunKeepsInvariant` | subsys/telemetry/telemetry.c:47-87 | So does every run |
| `TelemetryCoherence.PublishedSlotsAreCoherent` | subsys/telemetry/telemetry.c:65-87 | In every run, once its group has published, a slot that is not ignored is marked, or its copy or its notification is still to come, or its published copy equals the datum |
| `TelemetryCoherence.StaleSlotIsPublishedInTime` | include/nturt/telemetry.h:100-107 | With no update or copy under way, a published slot that differs from its datum is marked, and waits within period, watermark and latency of the group's first unpublished update |
| `TelemetryProgress.TimeAlwaysPasses` | subsys/telemetry/telemetry.c:47-87 | From every state of every run, the updates, copies, deadlines and work items under way lead in the same tick, without a new update, to a state in which time passes |
| `TelemetryCoherence.UpdateIsARun` | include/nturt/telemetry.h:193-205 | Left alone, the fine steps of an update add up to what the store does in one call |
| `TelemetryCoherence.CopyIsARun` | subsys/telemetry/telemetry.c:72-87 | Left alone, the fine steps of a copy make the buffers of a group what the store makes them in one call |
| `CInteger.RoundingError` | drivers/input/sensor-axis/sensor_axis.c:370-371 | `DIV_ROUND_CLOSEST`, built on division that truncates, is off by at most half of the divisor, for all signs |
| `CInteger.RoundingIsMonotone` | drivers/input/sensor-axis/sensor_axis.c:596 | It is monotone for a positive divisor, across the change of sign too |
| `CInteger.RoundingStaysBetween` | drivers/input/sensor-axis/sensor_axis.c:596 | A dividend between two multiples rounds to a quotient between the two factors |
| `SensorAxis.Sensor.constructor` | drivers/input/sensor-axis/sensor_axis.c:684-692 | A sensor starts without an error |
| `SensorAxis.Sensor.ErrorUpdate` | drivers/input/sensor-axis/sensor_axis.c:278-332 | Reports only a change between error and none, clears with the code that was set, and keeps the error if the report fails |
| `SensorAxis.Sensor.Get` | drivers/input/sensor-axis/sensor_axis.c:342-396 | State, return value, value and events of one reading, in every case: busy, failed, under, over, good, and each with a failing report |
| `SensorAxis.Channel.ErrorUpdate` | drivers/input/sensor-axis/sensor_axis.c:411-495 | State, return value and events of one call, in every case: accumulate, decay, set, still decaying, clear, and each with a failing report |
| `SensorAxis.Channel.SweepSensors` | drivers/input/sensor-axis/sensor_axis.c:543-568 | The loop over all sensors computes what the recursive specification of the sweep says: every sensor is read once, bad ones do not end it |
| `SensorAxis.Channel.Update` | drivers/input/sensor-axis/sensor_axis.c:537-616 | State, return value and events of one cycle, and the new state of every sensor |
| `SensorAxisArithmetic.NormalisationError` | drivers/input/sensor-axis/sensor_axis.c:359-371 | Between the setpoints, R apart and divided to r, the normalised value differs from the exact one by at most half of (1000000 + r) / r millionths |
| `SensorAxisArithmetic.FirstSetpointIsZero` | drivers/input/sensor-axis/sensor_axis.c:370-371 | At the first setpoint it is exactly 0 |
| `SensorAxisArithmetic.NormalisationFitsInt64` | drivers/input/sensor-axis/sensor_axis.c:359-371 | No step of it overflows 64 bits, for any sensor value and setpoints |
| `SensorAxisArithmetic.NormalisationIsMonotone` | drivers/input/sensor-axis/sensor_axis.c:370-371 | It is monotone in the reading |
| `SensorAxisArithmetic.GoodSweep` | drivers/input/sensor-axis/sensor_axis.c:543-568 | Over good sensors the loop yields the weighted sum and the exact minimum and maximum, reports nothing, and leaves the channel alone |
| `SensorAxisArithmetic.SweepFailsOnBadSensor` | drivers/input/sensor-axis/sensor_axis.c:543-572 | The loop fails exactly if some sensor is bad, whatever reports fail, and reports errors only |
| `SensorAxisArithmetic.WeightedSumBetween` | drivers/input/sensor-axis/sensor_axis.c:565 | With non-negative weights the sum lies between the total weight times the bounds of the values |
| `SensorAxisArithmetic.MeanIsBetween` | drivers/input/sensor-axis/sensor_axis.c:595-596 | The rounded mean lies between the smallest and the largest value |
| `SensorAxisArithmetic.WeightedSumResponds` | drivers/input/sensor-axis/sensor_axis.c:565 | Changing one sensor's value changes the sum by that change times its own weight |
| `SensorAxisArithmetic.MeanError` | drivers/input/sensor-axis/sensor_axis.c:595-596 | The mean times the total weight is off the weighted sum by at most half of the total weight |
| `SensorAxisArithmetic.RescalingError` | drivers/input/sensor-axis/sensor_axis.c:602-605 | The reported value is off its exact place in the output range by at most half a thousandth of the range and half a step |
| `SensorAxisArithmetic.RescaledIsInRange` | drivers/input/sensor-axis/sensor_axis.c:602-605 | Rescaling lands in the output range and hits both ends |
| `SensorAxisArithmetic.NothingOverflowsInt32` | drivers/input/sensor-axis/sensor_axis.c:543-605 | With a total weight up to 2147 and an output span up to 2147483, no product, partial sum or rounding overflows 32 bits |
| `SensorAxisArithmetic.AxisIsMonotone` | drivers/input/sensor-axis/sensor_axis.c:359-605 | Raising raw readings never lowers the axis, through normalisation, clamping, mean, deadzone and rescaling |
| `SensorAxisOutcomes.ReadingOutcome` | drivers/input/sensor-axis/sensor_axis.c:369-395 | What any reading leads to, from its fraction alone: too low, too high or good by the tolerance in force (a tenth off while a range error is set), with state, return value and events |
| `SensorAxisOutcomes.ReadingIsRefusedExactly` | drivers/input/sensor-axis/sensor_axis.c:373-385 | Without an error, a checked reading is refused as over or under exactly if its fraction is beyond the setpoint by more than the tolerance |
| `SensorAxisOutcomes.NoReadingOutcome` | drivers/input/sensor-axis/sensor_axis.c:347-357 | A sensor that is busy or fails reports that very error, unless one is set |
| `SensorAxisOutcomes.FailedReportOutcome` | drivers/input/sensor-axis/sensor_axis.c:295-298 | A failing report is returned, and the error stays as it was |
| `SensorAxisOutcomes.GoodSweepDeviatesExactly` | drivers/input/sensor-axis/sensor_axis.c:574-583 | Good sensors deviate exactly if two of them are further apart than the tolerance in force |
| `SensorAxisOutcomes.GoodCycleOutcome` | drivers/input/sensor-axis/sensor_axis.c:574-615 | With good sensors and reports delivered: -EINVAL exactly if they disagree, -EAGAIN while a set error has time left, and otherwise success, with a clear event of code 0 if one was set and a value exactly if the output has moved by the noise or none is remembered |
| `SensorAxisOutcomes.BadCycleErrorCode` | drivers/input/sensor-axis/sensor_axis.c:547-563 | A cycle with failing sensors sets an error exactly if they use up the tolerance, and reports once, with the code of the sensor that does: not ready or input/output |
| `SensorAxisOutcomes.GoodCycleErrorCode` | drivers/input/sensor-axis/sensor_axis.c:575-583 | Good sensors set an error exactly if they disagree and that uses up the tolerance, and it is the deviation error |
| `SensorAxisChecks.DecayIsShare` | drivers/input/sensor-axis/sensor_axis.c:424-427 | One good call takes off the configured share of the tolerance, rounded down |
| `SensorAxisChecks.AccumulationIsBounded` | drivers/input/sensor-axis/sensor_axis.c:416-430 | Over any calls, whatever reports fail, the accumulated time stays between 0 and the tolerance |
| `SensorAxisChecks.CallsKeepTrigger` | drivers/input/sensor-axis/sensor_axis.c:411-461 | With reports delivered, a set error always has accumulated time left, and a clear one is always below the tolerance |
| `SensorAxisChecks.SettingNeedsBadCalls` | drivers/input/sensor-axis/sensor_axis.c:416-444 | However calls mix, an error is only set if the poll periods of the bad ones make up what was missing to the tolerance |
| `SensorAxisChecks.ClearingNeedsGoodCalls` | drivers/input/sensor-axis/sensor_axis.c:423-455 | And only cleared if the decays of the good ones make up what was accumulated |
| `SensorAxisChecks.BadCallsInARow` | drivers/input/sensor-axis/sensor_axis.c:416-444 | In a row, bad calls set the error exactly when their poll periods reach the tolerance |
| `SensorAxisChecks.GoodCallsInARow` | drivers/input/sensor-axis/sensor_axis.c:423-455 | In a row, good calls clear it exactly when their decays reach the accumulated time |
| `SensorAxisChecks.ErrorCanClear` | drivers/input/sensor-axis/sensor_axis.c:423-430 | Some number of good calls clears a set error exactly if tolerance times decay rate is at least 100 |
| `SensorAxisChecks.SweepMakesCalls` | drivers/input/sensor-axis/sensor_axis.c:547-563 | One sweep is one bad call for each bad sensor |
| `SensorAxisChecks.EachBadSensorCounts` | drivers/input/sensor-axis/sensor_axis.c:547-563 | One cycle adds a poll period for each bad sensor, and sets the error exactly if those reach the tolerance |
| `SensorAxisChecks.ReportIsHealthy` | drivers/input/sensor-axis/sensor_axis.c:570-613 | An axis value is only reported without a set error and with all sensors good; it is the weighted mean of their readings through deadzone and rescaling, lies in the output range, and is off the exact place of the mean, or of the deadzone's rest, by the rounding alone |
| `SensorAxisChecks.SensorsAgreeOnReport` | drivers/input/sensor-axis/sensor_axis.c:574-593 | In every successful cycle each sensor is within the deviation tolerance of the mean before the deadzone |
| `SensorAxisChecks.UpdateKeepsOutput` | drivers/input/sensor-axis/sensor_axis.c:595-613 | What is remembered as last output is nothing, or the deadzone's image of some mean |
| `SensorAxisChecks.LastReportIsCurrent` | drivers/input/sensor-axis/sensor_axis.c:497-613 | After every successful cycle the last reported value equals the current one or differs by less than the noise, and both are in the deadzone or neither is |
| `SensorAxisRuns.PollMakesCalls` | drivers/input/sensor-axis/sensor_axis.c:543-593 | One cycle leaves error and accumulated time as its error calls do, one for each bad sensor or one for the checks that follow |
| `SensorAxisRuns.OneSensorKeepsTolerance` | drivers/input/sensor-axis/sensor_axis.c:416-444 | With one sensor, in every run a set error has had enough bad cycles to make up the time tolerance |
| `SensorAxisRuns.SeveralSensorsBreakTolerance` | drivers/input/sensor-axis/sensor_axis.c:547-563 | With more of them and a tolerance of more than a cycle, a run that sets the error before the tolerance is over |
| `SensorAxisRuns.ErrorAfterOneCycle` | drivers/input/sensor-axis/sensor_axis.c:547-563 | Two sensors, a poll period of 10 and a tolerance of 20: the error is set after one cycle |
| `SensorAxisRuns.ToleranceCondition` | drivers/input/sensor-axis/sensor_axis.c:416-444 | A set error implies that the poll periods of the bad cycles make up the tolerance, in every run, exactly if there is one sensor or the tolerance is at most one poll period |
| `SensorAxisRuns.ClearCondition` | drivers/input/sensor-axis/sensor_axis.c:423-430 | After every run that has set an error, some further cycles clear it exactly if there is no tolerance, or tolerance times decay rate is at least 100 |
| `SensorAxisRuns.ErrorStaysForever` | drivers/input/sensor-axis/sensor_axis.c:423-430 | A tolerance of 9 and a decay of 10 percent: after one bad cycle no cycles whatever clear the error |
| `SensorAxisRuns.RunReportsAreCurrent` | drivers/input/sensor-axis/sensor_axis.c:497-613 | In every run, whatever reports fail: after a successful cycle the last reported value equals the current one or is within the noise of it, on the same side of the deadzone |
| `Accel.Device.constructor` | drivers/input/accel/accel.c:200-207 | The device starts without an error, a failed check or an output, waiting for both pedals |
| `Accel.Device.ErrorUpdate` | drivers/input/accel/accel.c:64-116 | State, return value and events in every case: raise, clear, no change, and each failing report |
| `Accel.Device.Update` | drivers/input/accel/accel.c:118-160 | State and events of one evaluation, in every case |
| `Accel.Device.AccelCallback` | drivers/input/accel/accel.c:162-179 | One accelerator event, a value or an error code, and the evaluation it triggers |
| `Accel.Device.BrakeCallback` | drivers/input/accel/accel.c:181-198 | One brake event and the evaluation it triggers |
| `Accel.InputsKeepInvariant` | drivers/input/accel/accel.c:64-198 | In every run, whatever reports fail: silence until both pedals have reported; with an error set the last throttle is 0; the last output and the error are the ones listeners know of |
| `Accel.InputsKeepUpToDate` | drivers/input/accel/accel.c:118-160 | With reports delivered, once both pedals have reported, an error is set exactly if a pedal is in error or the check has failed, and otherwise the output is the accelerator |
| `Accel.ErrorEventsAlternate` | drivers/input/accel/accel.c:64-116 | In every run the error events alternate between setting a code and clearing that code |
| `Accel.ThrottleIsExact` | drivers/input/accel/accel.c:118-160 | The last throttle after any run with reports delivered: none before both pedals have reported, 0 while blocked, the accelerator otherwise, except for `INT32_MAX` with no other value before it |
| `Accel.SampleIsPassedOnCondition` | drivers/input/accel/accel.c:150-159 | An evaluated sample of a device that is not blocked is the last throttle exactly if it is not `INT32_MAX`, or another value is the last output, or `INT32_MAX` is the last throttle already |
| `Accel.ThrottleIsPassedOnCondition` | drivers/input/accel/accel.c:150-159 | Over whole runs: exactly unless the accelerator has been at `INT32_MAX` ever since the device was last blocked or not ready |
| `Accel.MaximumIsLostAtFirst` | drivers/input/accel/accel.c:150 | A run in which `INT32_MAX` as the first sample is not reported at all |
| `Accel.MaximumIsLostAfterError` | drivers/input/accel/accel.c:150 | A run in which the throttle stays 0 without an error, as `INT32_MAX` is the sample that clears it |
| `Accel.MaximumIsPassedOnAfterValue` | drivers/input/accel/accel.c:150 | A run in which `INT32_MAX` is reported, after another value |
| `Accel.LatchHolds` | drivers/input/accel/Kconfig:6-7 | From a failed check until a sample at or below 5 percent is evaluated, no throttle but 0 is reported, whatever pedals and reports do |
| `Accel.LatchFollowsSample` | drivers/input/accel/accel.c:132-141 | Each evaluated sample trips the check exactly above 25 percent with the brake, and releases it exactly at or below 5 percent |
| `AccelInputs.InputsAreRemembered` | drivers/input/accel/accel.c:162-198 | In every run, whatever reports fail: each pedal is good, in error or unknown by its last value or error with a code, the accelerator is its last value, and the brake is on exactly if its last value is positive |
| `AccelInputs.CheckFollowsInputs` | drivers/input/accel/accel.c:130-141 | In every run the check has failed exactly if the events say so: tripped above 25 percent with both pedals good and the brake on, held until 5 percent |
| `AccelInputs.ErrorCodeIsExact` | drivers/input/accel/accel.c:69-93 | With reports delivered, the device goes from no error to one exactly if a pedal is in error or the check has failed, and reports throttle 0 and then the input/output error in the first case and the plausibility error in the second |
| `AccelTravel.TravelCondition` | drivers/input/accel/accel.c:130-141 | In every run, judged by the events alone, the check trips exactly beyond 25 percent of the travel with the brake, and lets go exactly within 5 percent, if and only if the minimum is 0; and the condition for a maximum below the minimum |
| `AccelTravel.TripsEarly` | drivers/input/accel/accel.c:138 | With a minimum of 10, a run that trips at 20 percent of the travel |
| `AccelTravel.ReleasesLate` | drivers/input/accel/accel.c:133 | With a minimum of 10, a run that does not let go at 2 percent |
| `AccelTravel.TripsLate` | drivers/input/accel/accel.c:138 | With a minimum of -10, a run that does not trip at 30 percent |
| `AccelTravel.ReleasesEarly` | drivers/input/accel/accel.c:133 | With a minimum of -10, a run that lets go at 15 percent |
| `PedalPipeline.UpdateKeepsLink` | drivers/input/sensor-axis/sensor_axis.c:433-461 | One cycle of a channel, whatever its reports do, keeps: a set channel error is seen by the device, and a pedal not seen as good has a fresh value to report |
| `PedalPipeline.UpdateKeepsStep` | drivers/input/sensor-axis/sensor_axis.c:590-613 | With reports delivered it keeps the device's view in step: a clear event carries code 0, but the same cycle reports a value |
| `PedalPipeline.PollsKeepLink` | drivers/input/accel/accel.c:162-198 | So in every run of polls of both pedals, whatever reports of channels and device fail |
| `PedalPipeline.PollsKeepErrorIsBlock` | drivers/input/accel/accel.c:118-160 | With the device's reports delivered, its error is set exactly while it is blocked, at every poll boundary |
| `PedalPipeline.PedalErrorCutsThrottle` | drivers/input/accel/accel.c:64-198 | While either pedal channel has an error set, the last throttle reported is 0 or none was, even if reports of the channels fail |
| `PedalPipeline.PollsKeepStep` | drivers/input/sensor-axis/sensor_axis.c:433-461 | With the channels' reports delivered, the device sees each pedal in error exactly while its channel has an error set |
| `PedalThrottle.UpdateKeepsCurrent` | drivers/input/sensor-axis/sensor_axis.c:595-613 | One cycle, whatever its reports do, keeps: a pedal seen as good has the value that its channel remembers as last output, rescaled |
| `PedalThrottle.PollsKeepCurrent` | drivers/input/accel/accel.c:162-179 | So in every run of polls of both pedals |
| `PedalThrottle.ThrottleIsChannelOutput` | drivers/input/accel/accel.c:150-159 | With the device's reports delivered, while nothing is blocked neither channel has an error set, and the last throttle is the rescaled last output of the accelerator channel |
| `ErrRegistry.FilterAcceptsWhatItLists` | subsys/err/err.c:115-134 | A filter accepts exactly the codes, or the severities, that it lists, and one of an unknown type nothing |
| `ErrRegistry.MatchFilters` | subsys/err/err.c:109-135 | The nested loops with early exits decide: for every filter before the terminator some element matches |
| `ErrRegistry.Registry.constructor` | subsys/err/err.c:173-197 | After initialisation codes find their errors, and the list holds the enabled errors set by definition |
| `ErrRegistry.Registry.InsertErrors` | subsys/err/err.c:176-194 | The loop indexes every error under its code, and lists the enabled set ones, last one first |
| `ErrRegistry.Registry.Report` | subsys/err/err.c:55-91 | One report changes flag and list together, or nothing if disabled or no change, and is passed on exactly after the dispatch |
| `ErrRegistry.Registry.Dispatch` | subsys/err/err.c:199-209 | The dispatch passes the listed errors on, in the order of the list |
| `ErrRegistry.Registry.NotifyCallbacks` | subsys/err/err.c:107-142 | Exactly the callbacks whose filters match are told |
| `ErrRegistry.ReportKeepsInvariant` | subsys/err/err.c:55-91 | Every report keeps list, flags and replicas in agreement |
| `ErrRegistry.DispatchKeepsInvariant` | subsys/err/err.c:199-209 | So does the dispatch, which brings every replica from nothing to all matching set errors |
| `ErrRegistry.ReplicasAgree` | doc/library/errors.rst:32-34 | In every run the list has no duplicates and holds exactly the enabled set errors; from the dispatch onward what each callback was told adds up to those that match its filters, and every notification was news |
| `ErrRegistry.ReportsAreListedInReverse` | subsys/err/err.c:73-80 | Whatever was set and cleared before the dispatch, the set errors that were reported are listed latest first, before those left from the definition |
| `ErrRegistry.ReportsRun` | subsys/err/err.c:55-91 | Any sequence of reports is a run, and so is a dispatch after it |
| `ErrRegistry.DispatchIsBackwards` | doc/library/errors.rst:36-38 | After any reports, each callback is told, of the errors that match its filters, the reported ones latest first, and those left from the definition last |
| `ErrRegistry.DocumentedOrderCondition` | doc/library/errors.rst:36-38 | After any reports, a callback is told the errors left from the definition first and then the reported ones in order exactly if, of those that match its filters, none was reported, or one was and none is left from the definition |
| `ShiftRegister.ShiftingReverses` | drivers/gpio/74hc595/gpio_74hc595.c:219 | The byte sent first ends up farthest down the chain, which is why buffers are indexed backwards |
| `ShiftRegister.WriteKeepsCache` | drivers/gpio/74hc595/gpio_74hc595.c:55-80 | Once anything was shifted out, the registers hold the buffer after every write; a failed write changes nothing, rollback included |
| `ShiftRegister.WriteFailsExactly` | drivers/gpio/74hc595/gpio_74hc595.c:62-79 | A write fails exactly if the byte changes and the bus fails, and otherwise the buffer holds what was asked for |
| `ShiftRegister.InitIsShown` | drivers/gpio/74hc595/gpio_74hc595.c:181-196 | The first initialisation succeeds exactly if the bus is ready and works, and then the registers show the buffer |
| `ShiftRegister.Chain.Shift` | drivers/gpio/74hc595/gpio_74hc595.c:69-77 | A successful transfer makes the registers show the buffer; a failed one changes nothing |
| `ShiftRegister.Chain.Init` | drivers/gpio/74hc595/gpio_74hc595.c:169-197 | Only the first call transfers anything, and may fail; all later ones succeed and change nothing |
| `ShiftRegister.Chain.WriteOutput` | drivers/gpio/74hc595/gpio_74hc595.c:55-80 | Transfers exactly if the byte changes, and rolls back if that fails |
| `ShiftRegister.Chain.PortSetMaskedRaw` | drivers/gpio/74hc595/gpio_74hc595.c:125-140 | Writes the masked pins of one register, and keeps the cache coherent |
| `ShiftRegister.Chain.PortToggleBits` | drivers/gpio/74hc595/gpio_74hc595.c:152-167 | Toggles pins of one register, and keeps the cache coherent |
| `ShiftRegister.Chain.Configure` | drivers/gpio/74hc595/gpio_74hc595.c:82-107 | Sets the initial level of one pin, if one is asked for |
| `ShiftRegister.ToggleIsMaskedComplement` | drivers/gpio/74hc595/gpio_74hc595.c:162-163 | Toggling is a masked write of the complement, and twice is nothing |
| `ShiftRegister.ClientsDoNotDisturb` | drivers/gpio/74hc595/gpio_74hc595.c:125-140 | For any interleaving of writes, some of them failing, by clients with disjoint pins, each client's pins hold its own last successful write |
| `ShiftRegister.OpsKeepCache` | drivers/gpio/74hc595/gpio_74hc595.c:55-80 | And the registers show the buffer, from the first successful transfer onward |
| `ShiftRegister.FailedInitCondition` | drivers/gpio/74hc595/gpio_74hc595.c:64-79 | After a failed initialisation and any writes, the registers show the buffer, whatever they held at first, exactly if some write has succeeded that changed the buffer |
| `ShiftRegister.FailedInitThenWrite` | drivers/gpio/74hc595/gpio_74hc595.c:64-79 | For one successful write: exactly if it changes the buffer |
| `ShiftRegister.FailedInitExample` | drivers/gpio/74hc595/gpio_74hc595.c:175-184 | A chain whose initialisation fails and on which clearing all pins succeeds, with one of them still set |
| `SegText.IndexStaysInBounds` | drivers/auxdisplay/gpio-seg-display/gpio_seg_display.c:125-226 | The write position stays on the display, and is past a digit after the first character, so no write is out of bounds |
| `SegText.Parse` | drivers/auxdisplay/gpio-seg-display/gpio_seg_display.c:120-235 | The loop computes what folding the text character by character says, early ends and errors included |
| `SegText.ScanEnds` | drivers/auxdisplay/gpio-seg-display/gpio_seg_display.c:127-135 | After a terminator, an overflow or an error the rest of the text does not matter |
| `SegText.PrintedTextIsShown` | drivers/auxdisplay/gpio-seg-display/gpio_seg_display.c:120-235 | Round trip: any printed cells read back as their segments, cut off at the end of the display or padded with blanks |
| `SegPictures.GlyphIsPicture` | drivers/auxdisplay/gpio-seg-display/gpio_seg_display.c:137-220 | Each supported character lights exactly the segments of its picture, and no other character is supported |
| `SegPictures.RefusalCondition` | drivers/auxdisplay/gpio-seg-display/gpio_seg_display.c:126-235 | A text is refused exactly if it holds a character that cannot be shown before a terminator or the end of the display |
| `SegPictures.LeadingPointTakesDigit` | drivers/auxdisplay/gpio-seg-display/gpio_seg_display.c:222-229 | A point at the start lights a digit of its own, and the cells after it move on by one |
| `SegPictures.LeadingPointIsRefused` | drivers/auxdisplay/gpio-seg-display/gpio_seg_display.c:225-228 | Without decimal points it is refused |
| `SegDisplay.Display.Intern` | drivers/auxdisplay/gpio-seg-display/gpio_seg_display.c:336-347 | The search ends, at the entry of the port if it has one, and otherwise at the first free one, which it takes |
| `SegDisplay.EnteringKeepsTable` | drivers/auxdisplay/gpio-seg-display/gpio_seg_display.c:336-350 | Entering a segment keeps ports distinct and masks exactly the union of the pins entered |
| `SegDisplay.TableIsExact` | drivers/auxdisplay/gpio-seg-display/gpio_seg_display.c:336-347 | Once all segments are entered there are exactly as many entries as ports |
| `SegDisplay.FreeEntryCondition` | drivers/auxdisplay/gpio-seg-display/gpio_seg_display.c:397-398 | Then some entry is free, to mark the end, exactly if there are fewer than 8 ports for each digit |
| `SegDisplay.FullTableCondition` | drivers/auxdisplay/gpio-seg-display/gpio_seg_display.c:397-398 | There are that many ports exactly if the display has decimal points and no two segments share a port |
| `SegDisplay.FullTableExists` | drivers/auxdisplay/gpio-seg-display/gpio_seg_display.c:397-398 | A display of one digit on eight ports, and its table without a free entry |
| `SegDisplay.Display.InternPorts` | drivers/auxdisplay/gpio-seg-display/gpio_seg_display.c:326-352 | Succeeds exactly if every port is ready; then every segment is found through the table, and nothing else is in it; no output changes |
| `SegDisplay.Display.InternDigit` | drivers/auxdisplay/gpio-seg-display/gpio_seg_display.c:328-351 | The same for one digit |
| `SegDisplay.AssigningKeepsValues` | drivers/auxdisplay/gpio-seg-display/gpio_seg_display.c:240-246 | Setting or clearing one segment does not disturb another with a pin of its own |
| `SegDisplay.Display.AssignBits` | drivers/auxdisplay/gpio-seg-display/gpio_seg_display.c:237-248 | After the loops every segment's bit is what the cell asks for |
| `SegDisplay.PortIsWrittenOnce` | drivers/auxdisplay/gpio-seg-display/gpio_seg_display.c:102-110 | Writing the entries one after the other changes each port by its own entry only |
| `SegDisplay.Display.SetGpios` | drivers/auxdisplay/gpio-seg-display/gpio_seg_display.c:98-113 | Ends at the first free entry; success means all entries are written, failure that exactly those before it are; runs off the table exactly if the ports fill it and no transfer fails |
| `SegDisplay.WrittenPortsDecode` | drivers/auxdisplay/gpio-seg-display/gpio_seg_display.c:98-113 | The written ports decode to the cells, and pins that belong to no segment keep their level |
| `SegDisplay.Display.Write` | drivers/auxdisplay/gpio-seg-display/gpio_seg_display.c:115-251 | A bad text changes nothing and returns -EINVAL; without a failure the outputs decode to the parsed text, and the write runs off the table exactly if the ports fill it |
| `SegDisplay.Display.Init` | drivers/auxdisplay/gpio-seg-display/gpio_seg_display.c:319-360 | Without a failure, initialisation leaves a table of all segments and a blank display, and runs off the table exactly if the ports fill it |
| `SegDisplay.ShowCells` | drivers/auxdisplay/gpio-seg-display/gpio_seg_display.c:115-251 | Round trip through the hardware: after printed cells were written without a failure, outputs and registers decode to those cells |
| `HallRpm.Sensor.TimerCallback` | drivers/sensor/hall-rpm/hall_rpm.c:71-74 | One update of the filter, in truncating integer arithmetic; the next raw speed is measured from here |
| `HallRpm.Sensor.SetFrequency` | drivers/sensor/hall-rpm/hall_rpm.c:149-155 | A new frequency changes interval and smoothing factor together, restarts the timer and the measurement, and keeps the speed |
| `HallRpm.FilterIsWeightedMean` | drivers/sensor/hall-rpm/hall_rpm.c:74 | For non-negative values the result is the weighted mean of state and input, rounded down |
| `HallRpm.AlphaIsShare` | drivers/sensor/hall-rpm/hall_rpm.c:109 | The factor is the interval in thousandths of the time constant, rounded down |
| `HallRpm.FilterIsMonotone` | drivers/sensor/hall-rpm/hall_rpm.c:74 | A larger state or input never gives a smaller result |
| `HallRpm.UpdateIsBetween` | drivers/sensor/hall-rpm/hall_rpm.c:74 | With a smoothing factor of 0 to 1000 each update stays between the old value and the input, for all signs |
| `HallRpm.BetweenCondition` | drivers/sensor/hall-rpm/hall_rpm.c:74 | It does so for all values exactly if the factor is 0 to 1000 |
| `HallRpm.AlphaCondition` | drivers/sensor/hall-rpm/hall_rpm.c:109 | The factor is at most 1000 exactly if 1000 intervals are less than 1001 time constants, and 0 exactly if they are less than one |
| `HallRpm.RunStaysInRange` | drivers/sensor/hall-rpm/hall_rpm.c:63-75 | Over any inputs, with smoothing factors of 0 to 1000 that may change on the way, the filter stays in the range of the inputs |
| `HallRpm.RunIsMonotone` | drivers/sensor/hall-rpm/hall_rpm.c:63-75 | With the same such factors, an input that is larger at every instant gives an output that is nowhere smaller |
| `HallRpm.FilterFitsInt64` | drivers/sensor/hall-rpm/hall_rpm.c:74 | No overflow while speed and input are below a thousandth of the 64-bit range |
| `HallRpm.ReachesFromAbove` | drivers/sensor/hall-rpm/hall_rpm.c:74 | Under constant input, from above, the value falls in every update until it equals the input, and stays |
| `HallRpm.SettlesFromBelow` | drivers/sensor/hall-rpm/hall_rpm.c:74 | From below it rises in every update until its share of the rest is less than one, and then stays: a fixed point exactly there |
| `HallRpm.ReachesExactlyCondition` | drivers/sensor/hall-rpm/hall_rpm.c:74 | It reaches every input exactly, from below, only with a factor of 1000 |
| `HallRpm.ZeroNeverMoves` | drivers/sensor/hall-rpm/hall_rpm.c:74 | A factor of 0 never moves, whatever the input |
| `HallRpm.DecaysFromAbove` | drivers/sensor/hall-rpm/hall_rpm.c:74 | From above, the distance after n updates is at most its (1 - alpha/1000)^n share |
| `HallRpm.DecaysFromBelow` | drivers/sensor/hall-rpm/hall_rpm.c:74 | From below, so is what the distance is over the one that rounding leaves |

## Left out

- Interleaving the dequeue with the start of `agg_work_cb`, or a timer's expiry with its callback: they are one step, which the lock of the aggregation does not enforce.
- Updates that land between the unlock of the dormant branch and the work going idle, and a work queue with unbounded latency: the bounds do not hold there.
- The overrun warning of a publication, and all other log text.
- The offset map of typed aggregations: members are numbered.
- Atomicity of a whole telemetry group: each datum is locked on its own, so coherence is stated slot by slot.
- Failing hash map insertions, which the kernel only returns for lack of memory.
- Err registry: a report is one step, so a preemption between unlock and notification, and handlers that report errors themselves, are not covered.
- Err registry: the order of callbacks for one error, which is the order of the linker section.
- Sensor axis: raw-value callbacks, calibration and settings, and the poll thread itself; setpoints are fixed.
- Sensor axis: 32-bit overflow of configured percentages such as the tolerances, which the devicetree bounds in practice.
- Channels with a total weight of more than 2147 or an output span of more than 2147483, which may overflow 32 bits.
- Accel and Hall sensor: 32-bit overflow of `range * 25` and `range * 5` (drivers/input/accel/accel.c:133-138) and of `sampling_int * 1000` (drivers/sensor/hall-rpm/hall_rpm.c:109): the integers are unbounded.
- Accel: events of other axes are not told apart from error events with code 0, which do the same.
- Display: brightness, clearing through other entry points, active-low pins, and ports that are not registers of one chain.
- Shift registers: reading a port back, and what a transfer that fails half-way leaves in the registers.
- Display: what reading beyond a full table of ports does; the model stops there.
- Hall sensor: the pulse count race and the wrap of the cycle counter; the raw speed is arbitrary.
- `subsys/msg/logging.c` and `subsys/cmd/cmd.c`: their behaviour rests on packet buffers, files and mutex ownership of the kernel.
- `drivers/led_strip/gpio/led_strip_gpio.c`, which repeats the interning of the display, and the sensor drivers that are a single formula.
- Shells, settings, USB, CANopen, the real-time clock, boards and scripts: plumbing and input/output.
