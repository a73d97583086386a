# DDCS in Dafny

DDCS is a controller that keeps a fleet of devices in the operating mode its policy asks for, and an agent on each
device that carries the commands out. This project models five parts of it and proves what they promise.

**Control loop.** The controller decides a mode per device, tracks one command per device with timeout, backoff, resend
and supersede, and routes it to the device's one active session; the agent acknowledges, applies, and remembers only the
last command id. `DeviceControl`, `CommandService`, `PolicyService`, `AgentSession`, `SessionRegistry`, `SessionService`
and `Server` are classes as in the source, each proved against functions on values. `ControlLoop` uses the same functions
in a step system for one device - its record, its tracked command, its connections with two message queues each, its
agent - and `ControlSafety` runs any number of devices that share the id counter. A connection that ends loses the tail
of each queue, and its two ends notice at different times. The results in `ControlSafety` hold in every state of every
run. `ControlProtocol` shows that neither end ever says what the other does not expect, `ControlOutcomes` follows a
command from acceptance to settlement. `DeviceReadings` and `PolicyReadings` tell what is issued from the loads and
temperatures alone, `CommandTiming` when the command service acts, `CommandCounts` what its counters count, `CommandSinks`
whom it tells of a failure. `Transport` and `Callbacks` prove the synchronous teardown: callbacks that disconnect while a
callback runs.

**Timers.** `TimerHistory` says what a timer service promises, on the history of what was scheduled, cancelled and fired.
`TimerQueue` (heap), `TimerRegistry` (slot table with generations) and `TimerScheduler` (both, with one armed deadline)
keep every history legal, also when callbacks schedule, cancel, stop and restart during a dispatch.

**Bytes to messages.** `CircularBuffer`, `LinearBuffer`, `FrameReceiver`, `MessageCodec` and `CommandSender` are the
classes and loops; `FrameStream` and `Messages` are the pure decoders they compute; `WirePath` goes from messages to
messages through arbitrary chunks. `ControlWire` shows that a link's queue in `ControlLoop` is these bytes, and
`ControlRuns` that every run of the loop is a run of the command service.

**JSON.** `JsonGrammar` is what the hand-written parser accepts, `JsonValues` what the writer writes, `JsonText` the parser
and writer themselves, `JsonRoundTrip` that they undo each other. `JsonSyntax`, with `JsonNumerals`, `JsonStrings` and
`JsonUnicode`, writes the texts of RFC 8259 down without a parser and shows that the parser accepts exactly these and what
it makes of each; `JsonWritten` places the writer's texts among them.

**Profile.** `Serializer` writes a recording; `Recordings`, `Analysis`, `TickSummaries`, `Distributions` and `CrossCheck` go
from its text to its summary and its cross-check, and `RecordingPath` all the way; `DecimalSeconds` and `RttHistogram` are
the exporter's numbers.

What a clock, the network, the reactor, a hash table's order, a device's reaction or a callback contributes is a
parameter, and the results hold for all of them. Loads and temperatures are reals; a double in a message is its 64 bits;
text is a sequence of chars that stand for bytes. One agent runs per device and a device's mode changes only by a command.

`dafny verify dfyconfig.toml` checks the project.

## Where code and comments differ

`timer_queue.hpp` line 55 says that of two timers with one deadline the one registered first fires first. The code
compares ids, which hold a slot's generation above its index, so a timer in a reused slot fires after one in a fresh slot
whatever the order of registration. `TimerSchedulers.TiesIgnoreScheduleOrder` runs the scheduler into this;
`TimerHistory.TieFollowsScheduleOrder` and `TimerSchedulers.TieIsDecidedByTheTable` say exactly when the order is kept.

The agent's `session_service.cpp` lines 95-96 say that the memory of the last command is emptied where a session ends.
A send can end the session while a handler runs (`connector.cpp` lines 366-403), and the handler then sets the memory, or
the state, after the reset. `AgentSessions.WhenAFaultIsForgotten` says exactly when the session is left as intended, and
`AgentSessions.BrokenOffCommandIsRemembered` what follows otherwise.

The model follows the code in both.

## Model

| member | source | states |
|---|---|---|
| ControlSafety.BeliefMatchesTruth | lib/ctrl/domain/src/device_control.cpp:41-72 | In every state of every run of any number of devices: a record that holds a mode, has not failed, awaits no dispatch and whose command is no longer tracked names the mode the device is really in |
| ControlSafety.NoLostFailure | lib/ctrl/app/src/device/policy_service.cpp:100-120 | In every state of every run: an unfailed record has its command tracked with exactly its mode or carried out; a failed one has no tracked command; a record stands only while the device has an operating session |
| ControlSafety.SameModeReplacementNeedsClearedRecord | lib/ctrl/app/src/device/policy_service.cpp:165-196 | In every run, if an evaluation replaces a tracked command by one with the same mode, then in some earlier step its record was cleared because the operating session ended or the policy was replaced, and ever since that command has been tracked without a record |
| ControlSafety.HowARecordGoes | lib/ctrl/app/src/device/command_service.cpp:38-208 | In every step: a command tracked without a record was so before, or its record goes in that step because the session ends - closed, evicted or lost inside a send - or the policy is replaced |
| ControlSafety.AtMostOncePerSession | lib/agent/app/src/session/session_service.cpp:136-173 | In every run, what the agent heard on a connection are commands as issued, in nondecreasing id order; ids are applied at most once, in strictly increasing order, and every answer to one id is the same |
| ControlSafety.QueueContinuesSession | lib/ctrl/app/src/device/command_service.cpp:185-208 | In every run, the commands still on their way to an active agent continue that order: genuine, nondecreasing, none below the last id heard |
| ControlSafety.OneSessionPerDevice | lib/ctrl/app/src/session/session_service.cpp:138-157 | In every run, a connection is confirming or operating exactly when it is the one the device is bound to |
| ControlProtocol.NobodySpeaksOutOfTurn | lib/ctrl/app/src/session/session_service.cpp:86-121 | In every state of every run neither end is about to hang up on the other: the next message to the controller, from whatever bytes it is decoded, is one its session service expects at the session's stage, and the agent accepts the next message it reads |
| ControlProtocol.AcknowledgedBeforeAnswered | lib/agent/app/src/session/session_service.cpp:138-166 | In every run, on an operating session every outcome but the next message comes directly behind the acknowledgement of the same command |
| ControlProtocol.StepSpeaks | lib/ctrl/app/src/session/session_service.cpp:86-165 | Every step of either end keeps that order of what agents say: registration, its confirmation, then acknowledgements each followed by its outcome, with telemetry between |
| ControlOutcomes.AcceptedCommandSucceeds | lib/ctrl/app/src/device/command_service.cpp:96-118 | From acceptance to settlement, in every run: when the agent hears a command anew, the device accepts, and the controller reads an outcome of it on that connection while it tracks the command, then the device was put into the mode asked for, the outcome is a success, nothing is tracked any more, the record stands unfailed and one more success is counted |
| ControlOutcomes.AllSuccessKeeps | lib/agent/app/src/session/session_service.cpp:136-173 | Every step keeps that an accepted command has only success among its outcomes on the way and in the agent's memory |
| ControlOutcomes.UpToLastKeeps | lib/agent/app/src/session/session_service.cpp:136-173 | Every step keeps that the outcomes on the way on the agent's connection are of commands up to the last one heard |
| ControlSafety.EveryStateSafe | lib/ctrl/app/src/device/command_service.cpp:38-208 | Every state of every run of the whole system satisfies the invariant that the safety results are read from |
| ControlSafety.SystemStepKeeps | lib/ctrl/app/src/device/command_service.cpp:55-56 | Steps of one device keep the invariant of every device, though they draw ids from one counter |
| ControlSafety.HistoryInOrder | lib/agent/app/src/session/session_service.cpp:136-173 | Of two requests heard on one connection: ids do not decrease, two applied ones differ, equal ids mean the same request and answer |
| ControlSafety.ServiceDispatches | lib/ctrl/app/src/device/command_service.cpp:38-79 | A dispatch step of the loop leaves the same tracked command as the command service does |
| ControlSafety.ServiceSweeps | lib/ctrl/app/src/device/command_service.cpp:131-208 | A sweep step of the loop leaves the same tracked command as the command service, and the loop tells the record exactly when the service calls the failure sink |
| ControlSafety.ServiceSettles | lib/ctrl/app/src/device/command_service.cpp:96-129 | Likewise for an outcome message |
| ControlRuns.LoopRunsTheService | lib/ctrl/app/src/device/command_service.cpp:38-208 | Every run of the loop, with any number of devices, is a run of the command service: in every state both track the same command for every device and have given out the same ids |
| ControlRuns.AccountsBalanceInTheLoop | lib/ctrl/app/include/ddcs/ctrl/app/device/command_service.hpp:22-47 | So in every state of every run of the loop the service's accounts balance, and what is pending in them is exactly what the loop tracks |
| ControlRuns.StepAgrees | lib/ctrl/app/src/device/command_service.cpp:38-208 | A step of the loop, as the event it is for the service, keeps the two in agreement |
| ControlWire.QueueArrives | lib/wire/frame/include/ddcs/wire/frame/frame.hpp:74-100 | Whatever beginning of the bytes of a link's messages arrives, in whatever chunks, the agent hears a front of the loop's queue, and from all bytes all of it |
| ControlWire.EveryFrontCanArrive | lib/wire/frame/include/ddcs/wire/frame/frame.hpp:74-100 | And every front of the queue is heard from some beginning of the bytes: losing a tail of the queue is losing the end of the stream |
| ControlWire.QueueArrivesBack | lib/wire/frame/include/ddcs/wire/frame/frame.hpp:74-100 | Likewise for what the agent has sent |
| ControlWire.SendingEnqueues | lib/ctrl/app/src/session/command_sender.cpp:33-61 | The bytes the command sender hands to the transport extend the stream by exactly the message the loop puts into the queue |
| ControlWire.UnexpectedEndsTheLink | lib/ctrl/app/src/session/session_service.cpp:86-121 | A message the session service does not expect at its stage ends the connection in the loop |
| ControlWire.BothHearTheSame | lib/ctrl/app/src/session/session_service.cpp:167-196 | Loop and session service make the same of a decoded message: same kind, same id, same verdict |
| ControlWire.OutcomeBytesAreHeard | lib/wire/message/include/ddcs/wire/message/message.hpp:98-109 | The controller hears an outcome with the code its last byte says, and an unknown code as a failure |
| ControlWire.RegistrationBytesAreHeard | lib/agent/app/src/session/session_service.cpp:122-127 | The agent hears that it is registered exactly if the code byte is zero |
| ControlInvariant.StepKeeps | lib/agent/app/src/session/session_service.cpp:57-173 | Every step of the loop - connect, register, kick-old, messages both ways, disconnects seen by the two ends at different times, sweeps, evaluations, dispatches that lose their connection midway, policy replacement - keeps the invariant |
| ControlInvariant.OtherStepsUseNoId | lib/ctrl/app/src/device/command_service.cpp:55-55 | Steps other than a dispatch keep the invariant with the id counter where it was |
| ControlInvariant.CommandKeeps | lib/agent/app/src/session/session_service.cpp:136-173 | Handling a command moves the agent's memory and its mode together, or neither, and keeps the invariant |
| ControlInvariant.SendKeeps | lib/ctrl/app/src/device/command_service.cpp:185-208 | A send that may tear its own connection down before it returns keeps the invariant |
| ControlInvariant.DispatchKeeps | lib/ctrl/app/src/device/policy_service.cpp:184-196 | A decided command's dispatch keeps the invariant whether it is sent, is refused or loses its connection; a result for a record cleared meanwhile is ignored |
| ControlInvariant.SweepKeeps | lib/ctrl/app/src/device/command_service.cpp:131-208 | A sweep keeps the invariant, including the give-up that reports back to the record |
| ControlInvariant.RegisterKeeps | lib/ctrl/app/src/session/session_service.cpp:123-156 | Registering a connection, which first disconnects the device's old one, keeps the invariant |
| ControlInvariant.ConfirmKeeps | lib/ctrl/app/src/session/session_service.cpp:158-165 | An agent's confirmation that makes its session an operating one keeps the invariant |
| ControlInvariant.SuccessKeeps | lib/ctrl/app/src/device/command_service.cpp:113-128 | A reported success that settles the tracked command means that the device took the mode |
| ControlInvariant.EvaluateKeeps | lib/ctrl/domain/src/device_control.cpp:10-50 | A decision keeps the invariant |
| ControlInvariant.LeaveKeeps | lib/agent/app/src/session/session_service.cpp:92-99 | The agent leaving its connection, with part of its messages lost, keeps the invariant |
| ControlInvariant.CloseKeeps | lib/ctrl/app/src/session/session_service.cpp:41-59 | The controller ending a connection, with part of its messages lost, keeps the invariant |
| ControlInvariant.ReplaceKeeps | lib/ctrl/app/src/device/policy_service.cpp:106-113 | Replacing the policy keeps the invariant |
| DeviceControls.DeviceControl.Decide | lib/ctrl/domain/src/device_control.cpp:10-50 | One evaluation leaves the record and returns the mode that `Decided` gives, which `DeviceReadings.ReadingsDecide` tells from the readings |
| DeviceReadings.ReadingsDecide | lib/ctrl/domain/src/device_control.cpp:10-50 | Whatever happened before and since the rule came into force: an evaluation drives the device to the hot mode if its temperatures say hot, and otherwise to the busy or idle mode as the loads say; it issues exactly if the record did not already stand there unfailed |
| DeviceReadings.ThermalFollowsReadings | lib/ctrl/domain/src/device_control.cpp:10-17 | Dispatches, failures, releases and replacements do not touch the thermal judgement: it follows the temperatures alone |
| DeviceControls.DeviceControl.RecordDispatch | lib/ctrl/domain/src/device_control.cpp:52-59 | A dispatch result is taken only while one is awaited; no id means that it failed |
| DeviceControls.DeviceControl.RecordFailure | lib/ctrl/domain/src/device_control.cpp:61-65 | A failure is taken only for the record's own command |
| DeviceControls.DeviceControl.ClearRecord | lib/ctrl/domain/src/device_control.cpp:67-72 | The issue record goes; the thermal regime and the protection latch stay |
| DeviceControls.ProtectionHistory | lib/ctrl/domain/src/device_control.cpp:10-72 | Over every history of evaluations, results, failures, releases and replacements the latch is set exactly when a hot issue was followed only by hot issues or issues made under an unknown load |
| DeviceControls.OwedAfter | lib/ctrl/domain/src/device_control.cpp:44-48 | How one more issue changes whether a hot issue is still owed its way back |
| DeviceControls.LatchAfter | lib/ctrl/domain/src/device_control.cpp:44-48 | Only an evaluation that issues moves the latch |
| DeviceControls.CooledDeviceReturnsToIdle | lib/ctrl/domain/src/device_control.cpp:25-50 | While a hot issue is owed, a cooled device under an unknown load is driven to the idle mode until that issue stands unfailed, even without a thermal rule |
| DeviceControls.UnknownLoadLeavesDeviceAlone | lib/ctrl/domain/src/device_control.cpp:25-40 | Otherwise a cool device under an unknown load is left alone, except that a failed target is tried again |
| DeviceControls.LoadRegimeIsLastCrossing | lib/ctrl/domain/include/ddcs/ctrl/domain/group_policy.hpp:97-107 | After any sequence of loads the regime is that of the last reading outside the band, or the starting one |
| DeviceReadings.LoadIsLastCrossing | lib/ctrl/domain/include/ddcs/ctrl/domain/group_policy.hpp:97-107 | A group is busy exactly if its load was above the band and not below it since, or began busy and stayed in the band; idle likewise |
| DeviceControls.ThermalIsLastCrossing | lib/ctrl/domain/include/ddcs/ctrl/domain/group_policy.hpp:109-123 | A device is hot exactly if some reading was above the hot bound and none below the cool bound since, or it began hot and every reading stayed in the band; never without a thermal rule |
| DeviceControls.CreatedIffBandsAreWide | lib/ctrl/domain/include/ddcs/ctrl/domain/group_policy.hpp:59-70 | A rule is created exactly when its load band, and its thermal band if it has one, holds more than one reading that changes nothing |
| CommandSlots.DueSweepLowersPatience | lib/ctrl/app/src/device/command_service.cpp:156-208 | Every due sweep closes a command or strictly lowers twice the attempts left plus one while an answer is awaited |
| CommandSlots.UnansweredRun | lib/ctrl/app/src/device/command_service.cpp:131-208 | Over any sequence of sweeps without answers that measure bounds the due sweeps, and the attempts bound the sends |
| CommandSlots.UnansweredCommandCloses | lib/ctrl/app/src/device/command_service.cpp:131-208 | A command nobody answers is sent at most max(1, max_attempts) times and is gone after 2 max(1, max_attempts) - 1 due sweeps |
| CommandLedger.EveryRunBalances | lib/ctrl/app/include/ddcs/ctrl/app/device/command_service.hpp:22-47 | After every run: dispatched = succeeded + failed + superseded + pending; accepted sends = dispatched + resends; the round-trip buckets add up to succeeded; every failure was told to its sink or had none; ids are unique and in order per device |
| CommandLedger.EventBalances | lib/ctrl/app/src/device/command_service.cpp:38-208 | Every operation keeps those accounts |
| CommandLedger.SweepOrderIrrelevant | lib/ctrl/app/src/device/command_service.cpp:131-154 | Two sweeps over the same commands in different orders leave the same commands and counters and make the same sends and notifications |
| CommandLedger.SweepIsPointwise | lib/ctrl/app/src/device/command_service.cpp:131-154 | What a sweep leaves of a device's command depends on that command alone |
| CommandLedger.SweepOneCommutes | lib/ctrl/app/src/device/command_service.cpp:141-153 | Sweeping two devices in either order comes to the same |
| CommandLedger.BucketIsLeastBound | lib/ctrl/app/src/device/command_service.cpp:119-125 | A round trip is counted at the least bound it does not exceed, or in the last bucket |
| CommandServices.CommandService.Dispatch | lib/ctrl/app/src/device/command_service.cpp:38-79 | Supersedes whatever the send does, tracks only what was sent, with its answer awaited for the timeout (`CommandTiming.AnswerIsAwaited`), leaves no empty entry; the new state is the ledger's |
| CommandServices.CommandService.Acknowledge | lib/ctrl/app/src/device/command_service.cpp:81-94 | An acknowledgement extends the deadline of the tracked command or is counted as stale |
| CommandServices.CommandService.Settle | lib/ctrl/app/src/device/command_service.cpp:96-129 | A success closes and counts, a failure ends the attempt, anything else is stale |
| CommandServices.CommandService.Sweep | lib/ctrl/app/src/device/command_service.cpp:131-154 | Visits exactly the commands that were due, each once, in some order, and leaves what the ledger says |
| CommandServices.CommandService.CollectDue | lib/ctrl/app/src/device/command_service.cpp:132-140 | Collects exactly the due commands |
| CommandServices.CommandService.FailAttempt | lib/ctrl/app/src/device/command_service.cpp:156-183 | The attempt is counted and the command waits to be resent or is given up |
| CommandServices.CommandService.Resend | lib/ctrl/app/src/device/command_service.cpp:185-208 | The command goes out again under its id, or is given up and counted by reason |
| CommandServices.CommandService.CloseFailedSlot | lib/ctrl/app/src/device/command_service.cpp:268-277 | The command is removed before its sink is told |
| CommandServices.CommandService.CloseSlot | lib/ctrl/app/src/device/command_service.cpp:279-292 | The command goes, and with it an empty entry |
| CommandServices.CommandService.FindSlot | lib/ctrl/app/src/device/command_service.cpp:244-256 | Finds the device's command by its id |
| CommandServices.CommandService.Backoff | lib/ctrl/app/src/device/command_service.cpp:236-242 | The doubling loop gives base times two to the attempts made less one, at most fifteen doublings |
| CommandServices.CommandService.Bucket | lib/ctrl/app/src/device/command_service.cpp:119-125 | The search loop finds the bucket of the ledger |
| CommandServices.CommandService.DetachFailureSink | lib/ctrl/app/src/device/command_service.cpp:258-266 | Afterwards no tracked command refers to the sink and nothing else changed |
| CommandServices.CommandService.PendingCount | lib/ctrl/app/src/device/command_service.cpp:30-36 | Counts the tracked commands |
| CommandTiming.AnswerIsAwaited | lib/ctrl/app/src/device/command_service.cpp:38-94 | A command dispatched, acknowledged or resent at t and not answered is left alone by every sweep up to t + timeout; the first sweep after that gives it up on its last attempt and otherwise sets it back to be resent |
| CommandTiming.ResendIsAwaited | lib/ctrl/app/src/device/command_service.cpp:156-242 | A command whose k-th attempt failed at t is resent by no sweep up to t + base * 2^min(k - 1, 15); the first one after that puts it on the wire once more, or gives it up if it cannot be sent |
| CommandTiming.SilenceTakesTime | lib/ctrl/app/src/device/command_service.cpp:131-242 | So a command that nobody answers, while sending works, is not given up before the answer timeout of every attempt and the waits between them have passed |
| CommandTiming.SilenceIsVisits | lib/ctrl/app/src/device/command_service.cpp:131-154 | Whatever else happens in the ledger, a command that is not answered changes only by the sweeps' visits to it |
| CommandTiming.CompletedRoundTrip | lib/ctrl/app/src/device/command_service.cpp:107-118 | A completed command counts the time since its dispatch in whole microseconds, rounded down, in the sum and in the first bucket whose bound that time does not exceed by a microsecond |
| CommandTiming.DispatchTimeStays | lib/ctrl/app/src/device/command_service.cpp:185-208 | Resending, acknowledging and sweeping leave the time of dispatch that the round trip is measured from |
| CommandCounts.CountersCount | lib/ctrl/app/include/ddcs/ctrl/app/device/command_service.hpp:22-47 | After every run each counter is the number of its happenings: dispatches, resends, acknowledgements, stale answers, timeouts, failed sends by reason, supersessions, give-ups by reason, successes |
| CommandSinks.ToldAsPromised | lib/ctrl/app/src/device/command_service.cpp:258-277 | In every run, whoever was told that a command was given up is the sink it had been dispatched with, not detached by then, and the command was tracked for that device |
| CommandSinks.TrackedAsPromised | lib/ctrl/app/src/device/command_service.cpp:38-79 | After every run a tracked command has exactly the sink it was dispatched with, or none if that was detached |
| CommandSinks.DetachedIsToldNothing | lib/ctrl/app/src/device/command_service.cpp:258-266 | A detached sink is told nothing any more until it is given to another dispatch |
| CommandTraffic.FirstSend | lib/ctrl/app/src/device/command_service.cpp:55-79 | A send under a new id keeps sends of a device in id order and the tracked command the newest |
| CommandTraffic.AnotherSend | lib/ctrl/app/src/device/command_service.cpp:185-208 | So does a resend |
| AgentSessions.AgentSession.HandleCommand | lib/agent/app/src/session/session_service.cpp:136-173 | Acknowledges, applies unless it repeats the last id, answers with the code (`AgentSessions.AnswerSaysWhy`), remembers id and code; when one of the two sends ends the connection the session is reset and the handler still goes on as the source does |
| AgentSessions.AnswerSaysWhy | lib/agent/app/src/session/session_service.cpp:145-173 | The answer to a request that does not repeat the last one is success exactly if it is a one-byte set-mode request for mode 0, 1 or 2 and the device accepts, and then the device is in that mode; each other code has exactly one cause |
| AgentSessions.AgentSession.OnReceive | lib/agent/app/src/session/session_service.cpp:57-90 | Follows the session protocol, also when a send ends the connection inside a handler; whatever it does not expect makes it hang up |
| AgentSessions.AgentSession.OnDisconnected | lib/agent/app/src/session/session_service.cpp:92-99 | The memory of the last command ends with the connection |
| AgentSessions.AgentSession.OnConnected | lib/agent/app/src/session/session_service.cpp:46-55 | A fresh connection starts registering |
| AgentSessions.AppliedOncePerId | lib/agent/app/src/session/session_service.cpp:136-173 | On ids that do not decrease, a request is applied exactly when its id is new, and equal ids get equal answers |
| AgentSessions.DecreasingIdIsAppliedTwice | lib/agent/app/src/session/session_service.cpp:138-143 | A smaller id after a larger one is applied a second time |
| AgentSessions.AppliedOnceIffGrouped | lib/agent/app/src/session/session_service.cpp:136-173 | For every stream of requests: each id is applied at most once exactly when requests with one id stand together and id 0, which is never remembered, comes at most once |
| AgentSessions.WhenAFaultIsForgotten | lib/agent/app/src/session/session_service.cpp:92-99 | After a send ended the connection inside a handler, the session is idle with an empty memory exactly if it was the second send of a registration, or a command that repeats the last one or has id 0 |
| AgentSessions.BrokenOffCommandIsRemembered | lib/agent/app/src/session/session_service.cpp:166-169 | Otherwise a command's memory survives into the next session, where a command of the same id is answered from it and not applied |
| AgentSessions.RefusalIsRepeated | lib/agent/app/src/session/session_service.cpp:138-143 | Resending a refused command within the session changes nothing and gets the same refusal |
| PolicyServices.PolicyService.Evaluate | lib/ctrl/app/src/device/policy_service.cpp:122-182 | Judges exactly the groups with a reporting member, decides exactly for their reporting active members, queues the issues in enumeration order |
| PolicyReadings.QueueFollowsReadings | lib/ctrl/app/src/device/policy_service.cpp:122-182 | Over every run of evaluations under one policy, with dispatches, failures and releases between them: an evaluation with an active device that reports leaves its record at the hot mode if its temperatures say hot and otherwise at the busy or idle mode as its group's average loads say, and queues that mode exactly if the record did not stand there |
| PolicyReadings.OthersAreLeftAlone | lib/ctrl/app/src/device/policy_service.cpp:154-162 | A device that is not active, has not reported, or whose group has no name or no rule keeps its record, and nothing is queued for it |
| PolicyReadings.RegimeFollowsLoads | lib/ctrl/app/src/device/policy_service.cpp:122-149 | In such a run a group's regime is that of the average loads of the passes in which some member reported |
| PolicyReadings.ThermalFollowsTemps | lib/ctrl/app/src/device/policy_service.cpp:151-182 | And a device's thermal regime is that of the temperatures it was seen with |
| PolicyReadings.CountedIffReporting | lib/ctrl/app/src/device/policy_service.cpp:127-141 | A group is judged exactly if it has a rule and a name and an active device of it reports |
| PolicyReadings.AverageIsBetween | lib/ctrl/app/src/device/policy_service.cpp:127-149 | The judged load lies between the least and the greatest load of the reporting members |
| PolicyReadings.OneMoreMember | lib/ctrl/app/src/device/policy_service.cpp:127-149 | One more reporting device moves the judged load toward its own by its share of the group; any other device does not move it |
| PolicyReadings.UnanimousGroup | lib/ctrl/app/src/device/policy_service.cpp:136-149 | If some device of the group reports and all that do are above the busy threshold the group is judged busy, below the idle threshold idle; if none reports its judgement stands |
| PolicyServices.PolicyService.JudgeGroups | lib/ctrl/app/src/device/policy_service.cpp:136-149 | The group loop computes each judged regime from the average load |
| PolicyServices.PolicyService.Aggregate | lib/ctrl/app/src/device/policy_service.cpp:127-141 | Counts and adds up the loads of a group's reporting members |
| PolicyServices.PolicyService.CommandOne | lib/ctrl/app/src/device/policy_service.cpp:184-196 | Dispatches, then records the result; records cleared while sending ignore it |
| PolicyServices.PolicyService.SetPolicy | lib/ctrl/app/src/device/policy_service.cpp:106-113 | Clears every record and keeps regimes and latches |
| PolicyServices.PolicyService.OnDeviceReleased | lib/ctrl/app/src/device/policy_service.cpp:115-120 | Clears the one device's record |
| PolicyServices.PolicyService.OnCommandFailed | lib/ctrl/app/src/device/policy_service.cpp:100-104 | Tells the one device's record |
| PolicyServices.CountedMember | lib/ctrl/app/src/device/policy_service.cpp:138-141 | A judged group has a member, so the average is defined |
| PolicyServices.KnownLoadStaysKnown | lib/ctrl/domain/include/ddcs/ctrl/domain/group_policy.hpp:97-107 | A group whose load is known never becomes unknown again |
| Sessions.BoundOnce | lib/ctrl/app/include/ddcs/ctrl/app/session/session_registry.hpp:67-82 | No two sessions are bound to one device |
| Sessions.SessionRegistry.Add | lib/ctrl/app/include/ddcs/ctrl/app/session/session_registry.hpp:57-61 | A new connection gets an unbound session, a known one changes nothing |
| Sessions.SessionRegistry.Bind | lib/ctrl/app/include/ddcs/ctrl/app/session/session_registry.hpp:63-82 | Binds and indexes, or rolls the claim back and changes nothing; the index stays the inverse of the bound sessions |
| Sessions.SessionRegistry.Erase | lib/ctrl/app/include/ddcs/ctrl/app/session/session_registry.hpp:84-97 | Removes session and index entry together |
| Sessions.SessionRegistry.Confirm | lib/ctrl/app/include/ddcs/ctrl/app/session/session.hpp:60-68 | Only a confirming session becomes active |
| Sessions.SessionRegistry.UpdateSeen | lib/ctrl/app/include/ddcs/ctrl/app/session/session.hpp:70-73 | Moves the last sign of life and nothing else |
| Sessions.SessionRegistry.FindDevice | lib/ctrl/app/include/ddcs/ctrl/app/session/session_registry.hpp:33-37 | Finds the one session bound to a device, or there is none |
| Transport.Drive | lib/ctrl/infra/src/transport/server.cpp:176-303 | Over every sequence of accepts, connection events with nested disconnects and sends, commands sent between them, sweeps and stops: afterwards nothing waits to be reaped, the server's connections are the registry's sessions, the index is their inverse, and every announced connection is present and open or was ended; if time does not go back, every connection that is left was accepted, or frames were read from it, no longer before any sweep than its stage allows |
| Transport.DriveOne | lib/ctrl/infra/src/transport/server.cpp:176-303 | One event keeps all that; a sweep ends exactly the connections that were silent for longer than their stage allows, and only what a connection says is a sign of its life |
| Callbacks.EndedOnceAndLast | lib/ctrl/infra/src/transport/server.cpp:286-303 | A connection's callbacks are its opening first, then messages, then at most one end, last |
| Callbacks.OverWasEnded | lib/ctrl/infra/src/transport/server.cpp:286-303 | A connection whose life is over was announced and was ended |
| Transport.Server.ScheduleReap | lib/ctrl/infra/src/transport/server.cpp:268-277 | Takes a registered connection off the reactor and queues it; one already off is left alone |
| Transport.Server.ReapScheduled | lib/ctrl/infra/src/transport/server.cpp:286-303 | Empties the queue; each connection in it leaves the table before the application hears of its end |
| Transport.Server.Disconnect | lib/ctrl/infra/src/transport/server.cpp:68-76 | Afterwards the connection and all others waiting are gone, and nothing waits |
| Transport.Server.Send | lib/ctrl/infra/src/transport/server.cpp:99-118 | A send may find its connection broken, and then it is gone on return |
| Transport.Server.OnAccepted | lib/ctrl/infra/src/transport/server.cpp:176-200 | A connection the reactor refuses leaves no trace, one it takes is announced once |
| Transport.Server.OnConnectionEvent | lib/ctrl/infra/src/transport/server.cpp:211-243 | Whatever the callbacks did, nothing is left waiting; a connection that is still there met no failure and had every frame of the event delivered |
| Transport.Server.HandleReadable | lib/ctrl/infra/src/transport/server.cpp:325-377 | Frames are delivered while the connection is active; if it still is in the end, all of them were, and none was malformed |
| Transport.Server.Stop | lib/ctrl/infra/src/transport/server.cpp:145-153 | Ends every connection |
| Transport.SessionService.HandleRegister | lib/ctrl/app/src/session/session_service.cpp:123-156 | The new connection stays exactly when it names a device and can be answered, and then it alone is bound to the device; besides it only the device's old connection and those already failing go |
| Transport.Server.NotifyMessage | lib/ctrl/infra/src/transport/server.cpp:407-420 | Announces the message, and afterwards nothing but endings |
| Transport.SessionService.TakeOver | lib/ctrl/app/src/session/session_service.cpp:138-149 | The device's old connection is gone and the new one is bound; the registry never refuses the binding then |
| Transport.SessionService.OnDisconnected | lib/ctrl/app/src/session/session_service.cpp:41-59 | The session goes and a bound device is released, once |
| Transport.SessionService.Sweep | lib/ctrl/app/src/session/session_service.cpp:61-84 | Disconnects exactly the sessions silent for longer than the liveness timeout, if active, or else than the handshake timeout, and leaves the others as they were |
| Transport.SessionService.CollectExpired | lib/ctrl/app/src/session/session_service.cpp:61-77 | Collects exactly the sessions still registering after the handshake timeout and the active ones silent for longer than the liveness timeout |
| Transport.StaysLively | lib/ctrl/app/src/session/session_service.cpp:61-84 | If time does not go back, an event keeps that every session was seen when it says and outlasted every tick |
| Transport.SessionService.OnMessage | lib/ctrl/app/src/session/session_service.cpp:86-121 | Handles a message by the session's stage; anything unexpected ends the connection, and other connections stay unless a registration claims their device |
| Transport.SessionService.HandleActive | lib/ctrl/app/src/session/session_service.cpp:167-196 | Every expected message is a sign of life and is passed on; one of the wrong direction ends the connection |
| TimerHistory.FiresAtMostOnce | lib/io/include/ddcs/io/detail/timer_registry.hpp:46-57 | In every legal history a token fires at most once |
| TimerHistory.CancelledNeverFires | lib/io/src/timer_scheduler.cpp:137-150 | In every legal history a token cancelled after it was issued never fires |
| TimerHistory.DispatchFiresExactlyTheDue | lib/io/src/timer_scheduler.cpp:152-176 | A dispatch that ran to its end, whose callbacks scheduled only for later, fired exactly the timers due at its start less those cancelled while they waited |
| TimerHistory.DispatchInOrder | lib/io/include/ddcs/io/detail/timer_queue.hpp:54-63 | In such a dispatch timers fire by deadline, then by token |
| TimerHistory.TiesFireInTokenOrder | lib/io/include/ddcs/io/detail/timer_queue.hpp:54-63 | In every legal history: of two timers that waited for one deadline when the earlier fired, the earlier is the one with the lesser token |
| TimerHistory.TieFollowsScheduleOrder | lib/io/include/ddcs/io/detail/timer_queue.hpp:54-63 | In every legal history, of two timers with one deadline the one scheduled first fires first exactly when it fired before the other was scheduled or its token is the lesser of the two returned |
| TimerHistory.GoneForGood | lib/io/include/ddcs/io/detail/timer_registry.hpp:99-108 | A token that was issued and is gone never waits again |
| TimerHistory.SameIdAfterFullTurn | lib/io/include/ddcs/io/detail/timer_registry.hpp:110-128 | Two tokens have the same 64-bit id exactly when they share the slot and lie a multiple of 2^32 - 1 releases apart |
| TimerHistory.IdOrder | lib/io/include/ddcs/io/detail/timer_queue.hpp:55-63 | Until a slot has been released 2^32 - 2 times, the comparison of ids is by generation, then slot |
| TimerSchedulers.TimerScheduler.ScheduleTimer | lib/io/src/timer_scheduler.cpp:123-135 | Adds one new live token, the one the slot table has next, and keeps an active scheduler armed at the least deadline |
| TimerSchedulers.TimerScheduler.CancelTimer | lib/io/src/timer_scheduler.cpp:137-150 | Removes the token from the live timers, does nothing to others, and keeps an active scheduler armed at the least deadline |
| TimerSchedulers.TimerScheduler.DispatchExpired | lib/io/src/timer_scheduler.cpp:152-176 | With callbacks that schedule, cancel, stop and restart: terminates, fires only due timers, each the least live one, runs after each firing exactly that callback's actions, stops at the first callback that leaves it inactive, and otherwise leaves no due timer and the least live deadline armed |
| TimerSchedulers.TimerScheduler.TakeExpired | lib/io/src/timer_scheduler.cpp:156-167 | Takes the least live timer when it is due; the slot table always still has its handler |
| TimerSchedulers.TimerScheduler.Perform | lib/io/src/timer_scheduler.cpp:152-176 | Does a callback's actions one by one, in order and nothing else, and keeps heap, slot table and the map of live timers in agreement |
| TimerSchedulers.TimerScheduler.PruneCancelled | lib/io/src/timer_scheduler.cpp:190-199 | Afterwards the front of the heap is live, or nothing is |
| TimerSchedulers.TimerScheduler.NextDeadline | lib/io/src/timer_scheduler.cpp:179-188 | The front deadline is the least live one |
| TimerSchedulers.TimerScheduler.UpdateTimerfd | lib/io/src/timer_scheduler.cpp:228-244 | An active scheduler is armed at the least live deadline or not at all |
| TimerSchedulers.TimerScheduler.StartTimer | lib/io/src/timer_scheduler.cpp:79-104 | Starting arms what was scheduled while inactive |
| TimerSchedulers.ReschedulingNeverEnds | lib/io/src/timer_scheduler.cpp:152-174 | Without the condition on deadlines a dispatch need not end: however many callbacks a dispatch has run, something is due if each of them ended by scheduling for now |
| TimerSchedulers.DispatchManyTimes | lib/io/src/timer_scheduler.cpp:152-174 | Any active scheduler with something due can be kept in one dispatch for more than any number of callbacks |
| TimerSchedulers.TiesIgnoreScheduleOrder | lib/io/include/ddcs/io/detail/timer_queue.hpp:54-63 | On a new scheduler: a timer in a reused slot is scheduled, then one with the same deadline in a new slot, and the dispatch fires the second before the first |
| TimerSchedulers.TieIsDecidedByTheTable | lib/io/include/ddcs/io/detail/timer_registry.hpp:29-44 | In every history of the scheduler, before the second of two timers with one deadline is scheduled it is decided that the first fires first: exactly if it fires before that or its token is less than the slot table's next one |
| TimerSchedulers.UnusedSlotsKeepOrder | lib/io/include/ddcs/io/detail/timer_registry.hpp:29-44 | As long as nothing has fired or been cancelled, timers with one deadline fire in the order they were scheduled |
| TimerSchedulers.Serve | lib/io/src/timer_scheduler.cpp:79-176 | Over every sequence of schedules, cancels, starts, stops and dispatches with their callbacks: each does exactly what it asks, a dispatch that is not stopped fires exactly the due timers less those cancelled, and between requests an active scheduler is armed at the least live deadline |
| TimerRegistries.TimerRegistry.Insert | lib/io/include/ddcs/io/detail/timer_registry.hpp:29-44 | Hands out the slot freed last in its present generation, or else a new slot in its first; the token was never handed out before and no other is touched |
| TimerRegistries.TimerRegistry.Consume | lib/io/include/ddcs/io/detail/timer_registry.hpp:46-57 | Gives a token's handler once and touches no other token |
| TimerRegistries.TimerRegistry.Erase | lib/io/include/ddcs/io/detail/timer_registry.hpp:59-69 | Ends a live token, and says whether it was live |
| TimerRegistries.TimerRegistry.ReleaseSlot | lib/io/include/ddcs/io/detail/timer_registry.hpp:99-108 | The slot is freed last and its next token has the next generation, so it differs from all before |
| TimerRegistries.ReusedInReverse | lib/io/include/ddcs/io/detail/timer_registry.hpp:29-108 | After tokens have ended, the next tokens handed out are theirs in reverse order, each in its slot's next generation |
| TimerQueues.TimerQueue.Push | lib/io/include/ddcs/io/detail/timer_queue.hpp:33-38 | Adds the entry and keeps the heap order |
| TimerQueues.TimerQueue.Pop | lib/io/include/ddcs/io/detail/timer_queue.hpp:40-47 | Removes the least entry and keeps the heap order |
| TimerQueues.TimerQueue.Top | lib/io/include/ddcs/io/detail/timer_queue.hpp:26-31 | The front is at most every entry |
| TimerQueues.FrontIsLeast | lib/io/include/ddcs/io/detail/timer_queue.hpp:54-63 | In heap order the front is the least entry |
| JsonRoundTrip.RoundTrip | lib/json/src/parser.cpp:71-482 | For every value without doubles: its text parses back to it exactly when keys are unique, integers are typed as the parser types them and containers nest at most 64 deep (sections 2, 6 and 7 of RFC 8259) |
| JsonRoundTrip.RoundTripWithDoubles | lib/json/src/parser.cpp:71-482 | With doubles: if their texts are numbers with a fraction or an exponent that read back as themselves, every value's text parses back to it exactly when the value is canonical |
| JsonRoundTrip.ReparseIsStable | lib/json/src/parser.cpp:491-493 | Every accepted text without doubles means the same as the compact text of what it means |
| JsonSyntax.ParsesExactlyJson | lib/json/src/parser.cpp:71-482 | The parser accepts exactly the texts of RFC 8259, with spaces, tabs, line feeds and carriage returns and nothing else between tokens, at most 64 containers deep, whose numbers can be read; it makes of each what the text means, members with one key being replaced in place |
| JsonSyntax.SpacesDoNotMatter | lib/json/src/parser.cpp:114-123 | Any text made from the compact text of a canonical double-free value by putting such gaps before, after and between tokens parses to that value |
| JsonSyntax.TreeIsRead | lib/json/src/parser.cpp:226-482 | Every well-formed text is read as what it means, whatever may follow it |
| JsonSyntax.ReadIsTree | lib/json/src/parser.cpp:226-482 | Whatever the parser reads is a well-formed text that means what it read |
| JsonSyntax.TightMeansTheSame | lib/json/src/parser.cpp:114-123 | A text without its gaps means the same |
| JsonStrings.GapIsSkipped | lib/json/src/parser.cpp:114-123 | Chars 0x20, 0x09, 0x0A and 0x0D are skipped between tokens |
| JsonStrings.PiecesAreRead | lib/json/src/parser.cpp:125-222 | Every string literal of section 7 of RFC 8259 is read as its chars, its short escapes, and the UTF-8 bytes of the code points its escapes spell in UTF-16 |
| JsonStrings.ReadArePieces | lib/json/src/parser.cpp:125-222 | Every string literal the parser accepts is one of those; so a lone surrogate, an unknown escape and a bare control char are refused |
| JsonUnicode.Utf8Decodes | lib/json/src/parser.cpp:17-52 | The bytes written for a scalar value decode to it by a UTF-8 decoder that refuses overlong forms and surrogates, whatever follows |
| JsonUnicode.CodesAreRead | lib/json/src/parser.cpp:172-196 | Four hex digits of either case are read as the unit they spell, the most significant first |
| JsonNumerals.NumeralIsRead | lib/json/src/parser.cpp:296-376 | Every number of section 6 of RFC 8259 is read: a whole one as a signed or else unsigned 64-bit integer if it fits, any other as the double its text stands for |
| JsonNumerals.ReadIsNumeral | lib/json/src/parser.cpp:296-376 | Every number the parser accepts is one of those and means what was read |
| JsonRoundTrip.ValueReadsBack | lib/json/src/parser.cpp:226-482 | Such a value is read back from its text before any delimiter, inside any depth that leaves it room |
| JsonRoundTrip.StringReadsBack | lib/json/src/parser.cpp:269-294 | Every string whatever is read back from its literal |
| JsonRoundTrip.ParsedIsCanonical | lib/json/src/parser.cpp:296-482 | Whatever the parser accepts has unique keys, integers in range and at most 64 nested containers |
| JsonText.ParseText | lib/json/src/parser.cpp:71-83 | The parser class accepts exactly the texts of the grammar, which `JsonSyntax.ParsesExactlyJson` shows to be those of RFC 8259, and yields their values |
| JsonText.Parser.ParseAny | lib/json/src/parser.cpp:226-267 | The recursive descent computes the grammar, keeps the cursor where the value ends and restores the depth |
| JsonText.Parser.ParseArray | lib/json/src/parser.cpp:373-417 | Likewise for arrays, counting the depth |
| JsonText.Parser.ParseElementsLoop | lib/json/src/parser.cpp:389-416 | The element loop computes the grammar's elements |
| JsonText.Parser.ParseObject | lib/json/src/parser.cpp:419-482 | Likewise for objects; a repeated key keeps its place and takes the later value |
| JsonText.Parser.ParseMembersLoop | lib/json/src/parser.cpp:435-481 | The member loop computes the grammar's members |
| JsonText.Parser.ParseString | lib/json/src/parser.cpp:269-294 | The character loop computes the string grammar |
| JsonText.Parser.AppendEscape | lib/json/src/parser.cpp:125-169 | Each escape stands for its bytes, or the text is refused |
| JsonText.Parser.ParseUnicodeEscapeScalar | lib/json/src/parser.cpp:197-224 | A code unit, or a surrogate pair, gives one scalar value; a lone surrogate is refused |
| JsonText.Parser.ParseHex4CodeUnit | lib/json/src/parser.cpp:171-195 | Four hex digits give their value in 16 bits without overflow |
| JsonText.Parser.ParseNumber | lib/json/src/parser.cpp:296-371 | A number is signed 64-bit if it fits, else unsigned if that fits and it has no sign, else a double |
| JsonText.Parser.ConsumeNumber | lib/json/src/parser.cpp:296-342 | The cursor moves over exactly the number |
| JsonText.Parser.SkipWs | lib/json/src/parser.cpp:114-123 | Skips exactly the leading spaces, which are those of `JsonStrings.GapIsSkipped` |
| JsonText.Parser.ConsumeLiteral | lib/json/src/parser.cpp:105-112 | Moves over the literal if it is there |
| JsonText.DumpText | lib/json/src/value.cpp:217-221 | The writer produces the compact text |
| JsonWritten.WrittenIsTight | lib/json/src/value.cpp:217-281 | What the writer writes is one of the texts of RFC 8259, without any gap, and means the value |
| JsonWritten.WrittenStringIsShortest | lib/json/src/writer.cpp:62-99 | No literal that is read as the string is shorter than the one the writer writes |
| JsonText.Output.DumpTo | lib/json/src/value.cpp:223-281 | Appends the compact text of a value and nothing else |
| JsonText.Output.DumpArray | lib/json/src/value.cpp:254-264 | The element loop writes the separators between elements only |
| JsonText.Output.DumpObject | lib/json/src/value.cpp:266-281 | Likewise for members |
| JsonText.Output.AppendStringLiteral | lib/json/src/writer.cpp:62-99 | The character loop writes the string's literal |
| JsonText.Output.AppendUnicodeEscape | lib/json/src/writer.cpp:11-19 | Writes four lower-case hex digits of the code unit |
| JsonText.PutMember | lib/json/src/value.cpp:202-215 | Replaces in place or appends, as `Put` says |
| JsonText.Node.Put | lib/json/src/value.cpp:202-215 | Null becomes an object; any other kind is refused unchanged |
| JsonText.Node.Append | lib/json/src/value.cpp:160-163 | Null becomes an array; any other kind is refused unchanged |
| JsonValues.PutThenFind | lib/json/src/value.cpp:165-215 | Putting makes the key findable, leaves other keys' values and the order of members alone, adds at most one member |
| Decimals.DecimalRoundTrip | lib/json/src/writer.cpp:31-45 | Decimal digits read back as the number, without a needless leading zero |
| CircularBuffers.CircularBuffer.Write | lib/common/include/ddcs/common/circular_buffer.hpp:97-117 | Appends all bytes or none, around the end of the array and across a wrap of the 64-bit counters |
| CircularBuffers.CircularBuffer.Peek | lib/common/include/ddcs/common/circular_buffer.hpp:68-86 | Copies the oldest bytes without consuming them |
| CircularBuffers.CircularBuffer.Read | lib/common/include/ddcs/common/circular_buffer.hpp:88-95 | Copies and consumes the oldest bytes, or does nothing |
| CircularBuffers.CircularBuffer.Consume | lib/common/include/ddcs/common/circular_buffer.hpp:50-57 | Drops the oldest bytes, or does nothing |
| CircularBuffers.CircularBuffer.Commit | lib/common/include/ddcs/common/circular_buffer.hpp:59-66 | Takes written bytes into the contents, or does nothing |
| CircularBuffers.CircularBuffer.Deposit | lib/net/include/ddcs/net/stream_io.hpp:48-64 | Bytes received into the writable span and committed are appended |
| CircularBuffers.CircularBuffer.EndPlace | lib/common/include/ddcs/common/circular_buffer.hpp:138-148 | The write counter points behind the contents, also after either counter has wrapped |
| CircularBuffers.RingGrows | lib/common/include/ddcs/common/circular_buffer.hpp:97-117 | Bytes written where the contents end are appended and overwrite nothing |
| LinearBuffers.LinearBuffer.Prepend | lib/common/include/ddcs/common/linear_buffer.hpp:109-121 | Puts bytes before the data if there is room in front |
| LinearBuffers.LinearBuffer.Append | lib/common/include/ddcs/common/linear_buffer.hpp:96-107 | Puts bytes behind the data if there is room |
| LinearBuffers.LinearBuffer.GrowHeadroom | lib/common/include/ddcs/common/linear_buffer.hpp:135-145 | Only an empty buffer keeps more room in front |
| LinearBuffers.LinearBuffer.SetHeadroom | lib/common/include/ddcs/common/linear_buffer.hpp:123-133 | Only an empty buffer sets its room in front |
| LinearBuffers.LinearBuffer.Commit | lib/common/include/ddcs/common/linear_buffer.hpp:64-73 | Takes bytes of the room behind into the data |
| LinearBuffers.LinearBuffer.Consume | lib/common/include/ddcs/common/linear_buffer.hpp:53-62 | Drops bytes at the front of the data |
| FrameStream.CapacityFits | lib/wire/frame/include/ddcs/wire/frame/frame.hpp:20-26 | The ring capacity is a power of two that holds the request and the longest frame, within a factor of two; one that fits is kept |
| FrameStream.DecodeInvertsEncode | lib/wire/frame/src/frame.cpp:22-42 | A payload is decoded with a rest exactly from its frame followed by that rest |
| FrameStream.DecidedForGood | lib/wire/frame/src/frame.cpp:58-77 | More bytes never change what has been decided |
| FrameStream.StreamSplits | lib/wire/frame/include/ddcs/wire/frame/frame.hpp:74-100 | Decoding a stream's front and going on with its back is decoding the stream |
| FrameStream.ChunkingDoesNotMatter | lib/wire/frame/include/ddcs/wire/frame/frame.hpp:74-100 | However a stream is cut into chunks, the payloads, the ending and the bytes left waiting are those of the whole stream |
| FrameStream.FramesDeliverPayloads | lib/wire/frame/src/frame.cpp:46-95 | From frames put one behind the other exactly their payloads are delivered |
| FrameStream.DeliveredWereFramed | lib/wire/frame/src/frame.cpp:46-95 | Whatever the stream, what was delivered are the payloads of whole frames from its start, one behind the other, and the rest begins right behind them |
| FrameStream.WaitingIsShort | lib/wire/frame/src/frame.cpp:58-77 | What waits is less than the longest frame; a rejection has at least a header before it and is for length exactly if that begins with the magic bytes, otherwise for the magic |
| FrameReceiver.DecodeFrame | lib/wire/frame/src/frame.cpp:54-95 | Does to the ring and the buffer what the pure decoder says; a read error cannot happen |
| FrameReceiver.DispatchFrames | lib/wire/frame/include/ddcs/wire/frame/frame.hpp:74-100 | Delivers what completes the stream's outcome, stopping when the connection is gone |
| FrameReceiver.ReceiveInto | lib/net/include/ddcs/net/stream_io.hpp:48-76 | Moves bytes from the socket to the ring in order until one of them is exhausted |
| FrameReceiver.Turn | lib/ctrl/infra/src/transport/server.cpp:325-353 | With room for the longest frame, a turn that ends waiting leaves the ring not full |
| FrameReceiver.ReceiveAll | lib/ctrl/infra/src/transport/server.cpp:325-377 | The receive loop ends, and ends waiting only with every byte taken and the ring not full |
| FrameReceiver.ReadInStep | lib/wire/frame/include/ddcs/wire/frame/frame.hpp:74-100 | What was delivered and what the ring holds stay the whole stream's outcome when bytes are read |
| FrameReceiver.HandleReadable | lib/ctrl/infra/src/transport/server.cpp:325-377 | However the socket hands out its bytes, payloads and ending are those of the whole stream |
| Messages.DecodeInvertsEncode | lib/wire/message/src/message.cpp:375-402 | Decoding inverts every encoder |
| Messages.EncodeInvertsDecode | lib/wire/message/src/message.cpp:375-402 | Whatever is accepted encodes to the same bytes again |
| Messages.LayoutIsExact | lib/wire/message/src/message.cpp:255-373 | The bytes of a message are the only ones with its type byte and each of its fields in its place, numbers with the least significant byte first |
| Messages.LittleEndian | lib/wire/message/src/message.cpp:82-93 | The i-th byte of a number is v / 256^i mod 256 |
| MessageCodec.DecodeMessage | lib/wire/message/src/message.cpp:375-402 | The cursor decoder computes `Decoded` |
| MessageCodec.DecodeRegisterRequest | lib/wire/message/src/message.cpp:137-150 | Accepts exactly an identity and one whole string |
| MessageCodec.DecodeStatusReport | lib/wire/message/src/message.cpp:179-195 | Accepts exactly seventeen bytes |
| MessageCodec.DecodeCommandRequest | lib/wire/message/src/message.cpp:197-210 | Takes the rest of the body as the payload |
| MessageCodec.DecodeCommandOutcome | lib/wire/message/src/message.cpp:223-238 | Accepts exactly nine bytes |
| MessageCodec.EncodeRegisterRequest | lib/wire/message/src/message.cpp:259-274 | Writes the message at the front of the span, or refuses for want of room or a too long group |
| MessageCodec.EncodeRegisterOutcome | lib/wire/message/src/message.cpp:276-287 | Writes the message at the front of the span, or refuses for want of room |
| MessageCodec.EncodeRegisterAck | lib/wire/message/src/message.cpp:289-296 | Likewise |
| MessageCodec.EncodeHeartbeat | lib/wire/message/src/message.cpp:298-305 | Likewise |
| MessageCodec.EncodeStatusReport | lib/wire/message/src/message.cpp:307-325 | Likewise |
| MessageCodec.EncodeCommandRequestHeader | lib/wire/message/src/message.cpp:327-343 | Likewise, all but the payload |
| MessageCodec.EncodeCommandAck | lib/wire/message/src/message.cpp:345-356 | Likewise |
| MessageCodec.EncodeCommandOutcome | lib/wire/message/src/message.cpp:358-373 | Likewise |
| CommandSenders.CommandSender.Send | lib/ctrl/app/src/session/command_sender.cpp:24-62 | Sends exactly when the device has an active session, to that session's connection; the bytes are the frame of the command; encoding cannot fail |
| CommandSenders.Assemble | lib/ctrl/app/src/session/command_sender.cpp:33-59 | The headers put in front of the payload in one buffer give the encoded command, within the room kept |
| CommandSenders.EncodeFrame | lib/wire/frame/src/frame.cpp:46-52 | Frames a message that is short enough and has kept room |
| CommandSenders.EncodeSetMode | lib/wire/command/src/command.cpp:10-17 | Writes the mode byte, if there is room |
| WirePath.CommandArrives | lib/ctrl/app/src/session/command_sender.cpp:33-61 | The bytes sent for any id and mode byte, cut into any chunks, reach the agent as that command |
| WirePath.CommandBytes | lib/ctrl/app/src/session/command_sender.cpp:24-62 | The bytes of a set-mode command on the wire, all fifteen of them |
| WirePath.MessagesArrive | lib/wire/frame/include/ddcs/wire/frame/frame.hpp:74-100 | Whatever messages are sent and however their bytes are cut, the receiver decodes exactly them in order; of a stream that broke off, the first ones |
| WirePath.CutStreamDeliversPrefix | lib/wire/frame/src/frame.cpp:58-77 | Of frames cut off anywhere the first payloads are delivered and decoding waits |
| Analysis.AnalyzeSamples | lib/profile/src/analysis.cpp:304-377 | Accepts exactly the ordered valid samples whose selected completed ticks' times add up within 64 bits; the summary is that of the selected ticks |
| Analysis.AnalyzeRecording | lib/profile/src/analysis.cpp:253-378 | From text to summary: each of the five refusals is given exactly when it applies, an overflow exactly if some beginning of the samples, itself in order, has one; everything else is accepted |
| Analysis.Tally.AddStart | lib/profile/src/analysis.cpp:325-339 | Counting a selected tick, its interval or its gap never overflows |
| Analysis.Tally.AddCompletedDurations | lib/profile/src/analysis.cpp:231-251 | The four times, the microseconds and the count fit exactly when the whole ticks' times do |
| Analysis.Tally.AddOutcome | lib/profile/src/analysis.cpp:341-362 | Each tick is counted under its outcome |
| Analysis.CompletedFits | lib/profile/src/analysis.cpp:231-251 | Where the whole ticks' times fit, every other sum does |
| Analysis.StartFits | lib/profile/src/analysis.cpp:325-339 | Ids and start times being 64-bit, count, gaps and interval sum are |
| TickSamples.SelectedIsContiguous | lib/profile/src/analysis.cpp:196-211 | In an ordered log a window selects one contiguous stretch |
| TickSamples.PreviousSelected | lib/profile/src/analysis.cpp:329-329 | So when a sample and an earlier one are selected, the one before is |
| TickSamples.AdjacentWindowsPartition | lib/profile/src/analysis.cpp:196-211 | Windows that meet take a log apart: a tick that starts at the common bound is in the later one, and every other in exactly one |
| TickSamples.ValidMeansInOrder | lib/profile/include/ddcs/profile/tick_sample.hpp:72-98 | A sample is valid exactly if its recorded times do not go back, unrecorded times are zero, and a completed tick ends with its last phase |
| TickSummaries.IntervalsAndGaps | lib/profile/src/analysis.cpp:329-339 | Between two neighbours there is an interval or a gap |
| TickSummaries.IntervalsTelescope | lib/profile/src/analysis.cpp:330-335 | The intervals add up to at most the time from first to last start, and to exactly that without gaps |
| TickSummaries.GapsAreMissingIds | lib/profile/src/analysis.cpp:328-339 | There are no more gaps than missing ids, and without gaps no id is missing |
| TickSummaries.OutcomesPartition | lib/profile/src/analysis.cpp:341-362 | The selected ticks are the completed ones and the three kinds of failure |
| TickSummaries.PhasesAddUp | lib/profile/src/analysis.cpp:231-251 | The phases of the completed ticks add up to the ticks; the whole microseconds fall short of them by less than one for each |
| TickSummaries.PhasesOfOne | lib/profile/src/analysis.cpp:231-246 | A completed tick's phases follow one another from its start to its end |
| TickSummaries.SummaryIsConsistent | lib/profile/src/analysis.cpp:369-377 | In every summary selected = completed + failures and intervals + gaps = max(selected - 1, 0) |
| Recordings.SampleFits | lib/profile/src/analysis.cpp:157-194 | Every number of a sample read from an accepted text is a 64-bit number |
| Recordings.SamplesAreCanonical | lib/profile/src/analysis.cpp:281-286 | The samples of an accepted text are as the parser makes values |
| Recordings.ReadHeaderIsConsistent | lib/profile/src/analysis.cpp:265-302 | A header that is read is of the one supported schema and counts the samples that are there, within its capacity |
| Serializer.SerializeRecording | lib/profile/src/serializer.cpp:62-148 | Refuses exactly a nameless run, a clock bracket the wrong way round and an invalid sample; otherwise writes the compact JSON of the recording |
| Serializer.SerializedIsRead | lib/profile/src/serializer.cpp:62-148 | Whatever a recorder hands over, the written text is read back as the same header and the same samples |
| Serializer.SampleReadsBack | lib/profile/src/serializer.cpp:21-58 | A valid 64-bit sample is read back from its members |
| RecordingPath.WrittenIsAnalyzed | lib/profile/src/analysis.cpp:253-378 | The text written for a recording is refused only if its samples are out of order or the selected ticks' times exceed 64 bits, never as malformed or of another schema |
| RecordingPath.WriteThenAnalyze | lib/profile/src/serializer.cpp:62-148 | Writing and then analysing gives the summary of the recorder's own selected samples |
| CrossCheck.VerifySnapshot | lib/profile/src/tick_metrics.cpp:181-200 | Passes exactly when nothing was dropped and the three figures agree; otherwise names the first disagreement |
| CrossCheck.PassingPinsTicks | lib/profile/src/tick_metrics.cpp:181-200 | A passing check means that the recording begins with exactly the ticks 1 to ticks_total, all completed, whose whole microseconds are the exported time |
| Distributions.DistributionAccumulator.Add | lib/profile/src/analysis.cpp:18-26 | Refuses exactly a value whose addition overflows |
| Distributions.DistributionAccumulator.Finish | lib/profile/src/analysis.cpp:28-42 | Count, floored mean, nearest-rank p95 and maximum of the recorded values |
| Distributions.RankIsCeiling | lib/profile/src/analysis.cpp:36-37 | n - n/20 is 19n/20 rounded up |
| Distributions.RankedIsP95 | lib/profile/src/analysis.cpp:35-39 | The reported p95 is the least recorded value that at least 95 of 100 recorded values do not exceed |
| Distributions.SortedDescribes | lib/profile/src/analysis.cpp:35-41 | Mean and p95 do not exceed the maximum |
| DecimalSeconds.SecondsRoundTrip | lib/ctrl/app/src/metrics/metrics_service.cpp:31-51 | Every 64-bit microsecond count is read back from its printed seconds |
| DecimalSeconds.SecondsValueIsExact | lib/profile/src/tick_metrics.cpp:53-83 | The parser reads exactly the decimal numbers of seconds, with at most six digits after the point, that make whole microseconds within 64 bits, and reads them as those |
| DecimalSeconds.PrintedMeansSeconds | lib/ctrl/app/src/metrics/metrics_service.cpp:30-51 | What is printed means the count as a decimal number of seconds, and a fraction has no needless zero at its end |
| DecimalSeconds.AppendMicrosecondsAsSeconds | lib/ctrl/app/src/metrics/metrics_service.cpp:31-51 | Prints whole seconds and the fraction without trailing zeros |
| DecimalSeconds.ParseSecondsAsMicroseconds | lib/profile/src/tick_metrics.cpp:53-83 | Reads at most six fraction digits; refuses malformed texts and values over 64 bits |
| DecimalSeconds.GuardIsExact | lib/profile/src/tick_metrics.cpp:78-81 | The guard before multiplying refuses exactly what would not fit |
| DecimalSeconds.FillDigits | lib/ctrl/app/src/metrics/metrics_service.cpp:40-44 | The digit loop fills in the last decimal digits |
| DecimalSeconds.TrimLength | lib/ctrl/app/src/metrics/metrics_service.cpp:45-48 | The trimming loop stops at the last digit that is not zero |
| RttHistogram.AppendRttHistogram | lib/ctrl/app/src/metrics/metrics_service.cpp:130-159 | Prints what the metric is, one cumulative line per bound, then the total, the sum and the count |
| RttHistogram.LinesCountRoundTrips | lib/ctrl/app/src/metrics/metrics_service.cpp:136-158 | The count at a bound is the number of round trips not above it; the last counts all |

## Left out

- Sockets, epoll, timerfd and signalfd calls, file descriptors, the metrics HTTP endpoint, file dumps, configuration and environment loading, logging, `main` programs and scripts: input, output and wiring.
- Exceptions and failed allocations, in every part.
- Restart of a device or of the controller, and several agents under one device id.
- The simulated device, random jitter, the backoff schedule of reconnects, the device registry, identity text forms and the recorder, whose samples are a parameter: short, or without a strong property.
- The agent's timers: a heartbeat or status report is a step that sends one, a register timeout is a hang-up.
- IEEE rounding: the average load is exact division of reals, and a non-finite value does not occur.
- CommandServices.CommandService.Dispatch: ids and counters are unbounded where the source has 64 bits, except the round-trip sum, which wraps as in the source.
- CommandServices.CommandService.CloseFailedSlot: the call of the sink is an entry in a history; what the sink does then is `PolicyServices.PolicyService.OnCommandFailed` and the step `SweepCommand` of the loop.
- PolicyServices.PolicyService.Evaluate: groups' temperatures and mode counts, which only metrics use, and reading a policy from its file are not modelled.
- Transport.Drive: messages arrive decoded or marked as undecodable, as `FrameReceiver` and `MessageCodec` deliver them; the reason of a disconnection, metrics and the sending of a rejection that cannot be encoded are not modelled.
- TimerRegistries.TimerRegistry.Insert: generations count without bound; the source's 32 bits repeat a token after 2^32 - 1 releases of one slot, as `TimerHistory.SameIdAfterFullTurn` says exactly.
- ControlInvariant.StepKeeps: the agent's own sends keep or lose a message but do not end the connection inside a handler; what such an end would leave behind is `AgentSessions.AgentSession.HandleCommand`.
- ControlRuns.LoopRunsTheService: a sweep visits one device at a time, which `CommandLedger.SweepIsPointwise` allows, and the callbacks of a removed failure sink do not occur.
- TimerSchedulers.TimerScheduler.DispatchExpired: callbacks must from some point on schedule only for later than the dispatch, without which it need not end.
- JsonRoundTrip.RoundTrip: doubles are excluded because the text of a whole one reads back as an integer; their conversion is a parameter, and `JsonRoundTrip.RoundTripWithDoubles` says what it takes.
- JsonText.Node.Put: the source throws on a value of another kind, the model returns false.
- CircularBuffers.CircularBuffer.Write: the index is the counter's remainder where the source masks its low bits, and a power of two is recognised by halving.
- FrameReceiver.DecodeFrame: a buffer from the pool is a cleared new one.
- CrossCheck.VerifySnapshot: finding the two counters in the exporter's text, line by line, is not modelled.
- Distributions.DistributionAccumulator.Finish: the library sort is an insertion sort.
