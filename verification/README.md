# EV3 and BLAST motion safety model

This project proves under which conditions the EV3 and BLAST controllers let a
motor run, what a reported stop or scan is evidence of, and that the bytes sent to
a hub decode to what the encoder meant. Each module follows one component of the
repository:

- `Supervisor`, `SupervisorView`, `MotorOwner`: the EV3 supervisor's state
  machine and its motor owner. `SupervisorView` says which change each public
  call may make; the class is proved to make only those, and the lemmas speak
  about every run of calls. The ghost field `moving` of the owner says that a
  start command was written and no verified stop has completed since; it can be
  set only while RUNNING or FAULT_LATCHED.
- `SupervisorProtocol`, `SupervisorLoop`, `LoopTrace`, `RequestFraming`: the
  request dispatcher with its motion budgets, the absolute-deadline loop with
  the reader thread interleaved at every point where they share state, the
  safety of its event traces and schedules, and the newline framing of its
  input.
- `EncoderRecovery`, `NavigationProfile`, `NavigationWorker`: the bounded
  recovery policy, the fixed motion profile and the worker that executes both
  inside its own process budget.
- `InfraredSafety`, `EmergencyStop`: the incremental obstacle gate against a
  specification of its whole call history, and the standalone verified stop.
- `ScanRoute`, `ScanTurnTime`, `ActiveIrScan`: the scan's route and worst-case
  budget, when that budget's turning time holds, the scan's executor and the
  independent validator.
- `AuthorityState`, `GoalAuthority`, `SingleFlightSelector`: exclusive goal
  leases, the idle task's release paths, and the selector protocol as an
  interleaving of callers and workers.
- `BlastHubSpeech`, `BlastBleRuntime`: IMA ADPCM encoding, with the step and
  index tables of DVI4 audio (RFC 3551, section 4.5.1), the Fletcher checksum
  over bytes (RFC 1146, appendix I) and the writes of a buffer in chunks.

Hardware, clocks, other threads and external callers are nondeterministic
choices inside the methods, or parameters where a contract speaks of them. Ghost
counters (`mishaps` of the supervisor, `setbacks` of the scan's rig) count what
went wrong outside; while one stands still, every fault, refusal and early end has
its cause in the numbers. An exception is a `None`, `Raised` or `Threw` result.
Conventions shared by the modules are in `Common`.

## Where the code says less than it seems to

- `MotorOwner.NoMotorsStillConfirm`: a stop with no motors at all is confirmed
  on the second attempt; only its error list keeps it from being verified.
- `EncoderRecovery.NoRecoveryCanBeUnbalanced`: the second NO_RECOVERY exit is
  reachable for valid policies; `NoRecoveryMeaning` says exactly when, and
  `NoRecoveryMeansSatisfied` gives the condition that rules it out. The shipped
  profile meets it.
- `ScanTurnTime.BudgetFailsExactly`: `turn_duration_ms` of the worst-case scan
  budget is not an upper bound for every calibration, because each turn is rounded
  separately. It is exceeded, and then by one millisecond, exactly when the
  refinement midpoints are [30] degrees with 60 the outermost bearing, [-60, -30],
  or [-75, -45, -15] with 45 the outermost bearing. Coarse offsets of -30, 0 and 60
  degrees with a fine step of 30 are such a case: 5120 ms unrefined against 5119 ms
  budgeted. The default calibration is not one.
- `ActiveIrScan.LateRestoredCanBeRejected`: a late result is accepted by the
  validator exactly when its final sample restored the heading and was taken after
  the start (`ActiveIrScan.ActiveIrScanExecutor.Execute`); the executor does not
  check the latter.
- `LoopTrace.StopSucceedsAfterMiss`: a stop request may still report success
  although a deadline check failed after its dispatch, because a stop that runs
  later replaces the deadline error and is then ignored for stop requests.
  `LoopTrace.SuccessExactly` says when: every such miss must be followed by a
  verified stop.
- `Supervisor.EV3Supervisor.LeaseExpiresExactly`: a claim whose clock reading fails
  raises but leaves the session claimed, without a lease time (`Claim`). Such a
  lease never expires; one accepted heartbeat is what makes it expirable.

## Model

| member | source | states |
|---|---|---|
| `InfraredSafety.MedianIsMajority` | ev3/infrared_safety.py:194-210 | A full odd window's rounded median reaches a threshold exactly when a majority of the window does |
| `InfraredSafety.EventStep` | ev3/infrared_safety.py:194-215 | One more call extends the window, the sample count and the sequence of votes that the history alone defines |
| `InfraredSafety.VerdictStep` | ev3/infrared_safety.py:210-256 | One more vote changes the blocked verdict, the candidate run and the published reason only as the history specification says |
| `InfraredSafety.ClearNeedsEnoughSamples` | ev3/infrared_safety.py:160-256 | A gate is never clear before median_window + exit_consecutive - 1 valid samples since the start or the last invalid one |
| `InfraredSafety.ClearRestsOnMajorities` | ev3/infrared_safety.py:194-256 | A clear gate rests on exit_consecutive complete windows each with a majority at exit_min, and on nothing blocking since |
| `InfraredSafety.EnoughReleaseSamplesClear` | ev3/infrared_safety.py:194-256 | That many release samples clear the gate from every history: the bound is attained |
| `InfraredSafety.GateClearExactly` | ev3/infrared_safety.py:160-256 | Over the readings alone: the gate is clear exactly when at some call enough consecutive windows had a far majority and at none since was a reading invalid or near at once, or enough consecutive windows near by majority |
| `InfraredSafety.WarmingUpMean` | ev3/infrared_safety.py:194-210 | Before the window is full, the published value of an even number of samples is the mean of the middle two, rounded half to even |
| `InfraredSafety.InfraredObstacleGate.constructor` | ev3/infrared_safety.py:143-154 | A new gate is blocked with an empty history |
| `InfraredSafety.InfraredObstacleGate.FailClosedGate` | ev3/infrared_safety.py:171-192 | Failing closed publishes exactly what the extended history prescribes |
| `InfraredSafety.InfraredObstacleGate.Observe` | ev3/infrared_safety.py:194-256 | The incremental gate publishes exactly the snapshot of the whole history; an unacceptable reading invalidates it first |
| `BlastBleRuntime.Fletcher16` | src/robot_agent/blast_ble_runtime.py:44-50 | The checksum loop equals the plain and the distance-weighted byte sums modulo 255 |
| `BlastBleRuntime.SingleByteDetection` | src/robot_agent/blast_ble_runtime.py:44-50 | A single changed byte goes unnoticed exactly when it flips between 0x00 and 0xFF |
| `BlastBleRuntime.NeighbourSwapDetection` | src/robot_agent/blast_ble_runtime.py:44-50 | Swapping two different neighbours goes unnoticed only for 0x00 and 0xFF |
| `BlastBleRuntime.TilesStore` | src/robot_agent/blast_ble_runtime.py:424-481 | Frames that tile a range write exactly their data there and leave the rest of the buffer alone |
| `BlastBleRuntime.WritePcmBatch` | src/robot_agent/blast_ble_runtime.py:424-481 | An admissible batch becomes at most eight frames, each within 512 bytes and the negotiated write size, that tile it in order and carry exactly its bytes; it is cut short exactly at the first write that fails, and then carries those of a beginning; any other batch is refused |
| `BlastBleRuntime.Upload` | src/robot_agent/blast_pcm_upload.py:207-223 | Whatever contiguous batch lengths are chosen, a complete upload leaves the hub buffer equal to the payload, and one cut short, by a write that failed, has written a beginning of it and nothing else |
| `BlastBleRuntime.DurationIsWholeBlocks` | src/robot_agent/blast_ble_runtime.py:78-90 | An utterance lasts the least whole number of 16 ms blocks of 256 samples that holds it |
| `BlastHubSpeech.Quantise` | src/robot_agent/blast_hub_speech.py:66-129 | The code's magnitude is within an eighth of a step plus two of the distance when that is below two steps, and otherwise moves toward the sample without passing it |
| `BlastHubSpeech.EncodeSample` | src/robot_agent/blast_hub_speech.py:66-129 | One pass of the sample loop leaves the encoder in exactly the state a decoder of the emitted code reaches, tracking the sample |
| `BlastHubSpeech.EncodeImaAdpcm` | src/robot_agent/blast_hub_speech.py:66-129 | Replaying the nibbles from the header reproduces the encoder's predictor at every sample and follows the samples faithfully; the host parser finds the same sample count |
| `BlastHubSpeech.EncodeBody` | src/robot_agent/blast_hub_speech.py:88-129 | The in-place loop packs the codes low nibble first behind an untouched header |
| `BlastHubSpeech.StepsGrowByTenth` | src/robot_agent/blast_hub_speech.py:36-53 | The step table rises from 7 to full scale by a tenth a place |
| `BlastHubSpeech.PackedParses` | src/robot_agent/blast_ble_runtime.py:53-75 | A packed payload with a truthful header passes the host's validation with the same sample count |
| `BlastHubSpeech.PackedReplays` | src/robot_agent/blast_hub_speech.py:88-129 | Decoding the packed bytes visits exactly the states of the encoder |
| `BlastHubSpeech.CompandBounds` | src/robot_agent/blast_hub_speech.py:56-63 | Companding never lowers a magnitude and never exceeds full scale |
| `BlastHubSpeech.CompressIsMonotone` | src/robot_agent/blast_hub_speech.py:56-63 | A louder input never comes out quieter |
| `BlastHubSpeech.SoftCompandKeepsShape` | src/robot_agent/blast_hub_speech.py:56-63 | Companding keeps order, sign and silence of samples |
| `BlastHubSpeech.SoftCompandExactly` | src/robot_agent/blast_hub_speech.py:56-63 | The companded magnitude is the largest whose product with the sample's magnitude plus full scale stays within twice their product; the sign is the sample's |
| `BlastHubSpeech.InterpolatedExactly` | src/robot_agent/blast_hub_speech.py:132-197 | Every output sample is the weighted mean of its two neighbours at its place in the input, rounded down, and the last sample held |
| `BlastHubSpeech.BlendStaysBetween` | src/robot_agent/blast_hub_speech.py:132-197 | Interpolation never leaves the interval of its two neighbours |
| `BlastHubSpeech.Pcm16ToBlastAdpcm` | src/robot_agent/blast_hub_speech.py:132-197 | The resampling loop yields a payload the host accepts that follows the resampled signal, or the error for no audio or too much of it |
| `BlastHubSpeech.NativeRateIsIdentity` | src/robot_agent/blast_hub_speech.py:132-197 | At the native rate without companding the converter is the identity |
| `EncoderRecovery.DurationWithinEncoderBudget` | ev3/encoder_recovery.py:265-289 | The binary search finds the same duration as trying every one from the top |
| `EncoderRecovery.LongestIsMaximal` | ev3/encoder_recovery.py:324-455 | The chosen duration fits the requested, per-step, total-time and encoder limits at once, and no longer one does |
| `EncoderRecovery.InstructionIsLongestFit` | ev3/encoder_recovery.py:324-455 | Every instruction uses the longest fitting duration and commands each selected wheel at least minimum_progress_degrees |
| `EncoderRecovery.AbortsOnlyWithoutFit` | ev3/encoder_recovery.py:324-455 | With every budget open, a decision carries no instruction exactly when no verifiable duration fits |
| `EncoderRecovery.UncutCatchUpReachesLeader` | ev3/encoder_recovery.py:560-606 | A catch-up that was not cut short commands the wheel behind enough travel to reach the leader's relative progress |
| `EncoderRecovery.UncutCatchUpIsShortest` | ev3/encoder_recovery.py:560-606 | And no more: a millisecond less than it drives commands less travel than any amount that reaches the leader |
| `EncoderRecovery.CatchUpDrivesWheelBehind` | ev3/encoder_recovery.py:541-606 | A catch-up drives a wheel exactly when directions agree, the command is not satisfied, a budget is left and that wheel is behind: the other one alone has started and far enough, or both have and its completion is the smaller by more than the limit; the reason names it, and without a budget the decision aborts |
| `EncoderRecovery.RetryDrivesBoth` | ev3/encoder_recovery.py:607-630 | A paired retry is chosen exactly when directions agree, a wheel is short of the acceptable share, neither is behind and a budget is left |
| `EncoderRecovery.UncutRetryReachesShare` | ev3/encoder_recovery.py:607-630 | A retry that was not cut short commands both wheels to the acceptable share |
| `EncoderRecovery.UncutRetryIsShortest` | ev3/encoder_recovery.py:607-630 | And no more: a millisecond less leaves one of them short of what it misses |
| `EncoderRecovery.ExecutionStaysWithin` | ev3/encoder_recovery.py:96-110 | One executed decision spends exactly one attempt and keeps every total within its maximum |
| `EncoderRecovery.BudgetNeverExceeded` | ev3/encoder_recovery.py:96-110 | Over any sequence of executed decisions from an empty budget no total ever exceeds its maximum |
| `EncoderRecovery.NoRecoveryMeaning` | ev3/encoder_recovery.py:525-617 | NO_RECOVERY is returned exactly for agreeing directions, both wheels at the acceptable share, and either a skew within the limit or no wheel behind; a direction mismatch always aborts and names itself |
| `EncoderRecovery.NoRecoveryMeansSatisfied` | ev3/encoder_recovery.py:525-617 | When minimum_progress * (100 - acceptable_percent) < 100, NO_RECOVERY means the command is satisfied |
| `EncoderRecovery.NoRecoveryCanBeUnbalanced` | ev3/encoder_recovery.py:609-617 | Without that condition a valid policy reports NO_RECOVERY for an unbalanced pair |
| `NavigationProfile.ShippedPolicyQualifies` | ev3/navigation_profile.py:37-47 | The shipped recovery policy is valid and satisfies the condition |
| `NavigationProfile.SlicesAreBalanced` | ev3/navigation_profile.py:94-108 | Slices add up to the total, fit the per-slice limit and differ by at most a millisecond |
| `NavigationProfile.SlicesSumToTotal` | ev3/navigation_profile.py:180-251 | The fixed actions' slices add up to their declared totals, and recoverable actions have one slice |
| `NavigationWorker.NavigationWorker.ExecuteInstruction` | ev3/encoder_recovery_runtime.py:578-711 | A recovery motion is charged once for its duration exactly when it recorded a segment |
| `NavigationWorker.NavigationWorker.RecoveryStep` | ev3/encoder_recovery_runtime.py:763-824 | One pass does exactly what the policy's decision on the evidence says: stop, give up, give up for want of time or room, or make the attempt and record and charge what it did |
| `NavigationWorker.NavigationWorker.RecoverSlice` | ev3/encoder_recovery_runtime.py:713-860 | At most maximum_total_attempts corrections within the time limit; it ends only because the policy asks for no more or gives up, time or room is short, or an attempt did not run to its end; passed says completed and proven, failed says not proven, and with the shipped policy status and verdict never disagree; a direction mismatch latches |
| `NavigationWorker.NavigationWorker.DecisionSettles` | ev3/encoder_recovery_runtime.py:763-804 | What each loop exit may claim follows from the decision on the evidence |
| `NavigationWorker.NavigationWorker.FailedStart` | ev3/navigation_worker.py:470-570 | A failed start charges nothing or, when part of it ran, one whole motion; its receipt and the latch are exactly those of the code's cases |
| `NavigationWorker.NavigationWorker.JudgePrimary` | ev3/navigation_worker.py:572-629 | A transient fault of a recoverable motion is deferred only to be proven or caught up; everything unproven latches, and the status is exactly the one the evidence gives |
| `NavigationWorker.NavigationWorker.ExecuteSlice` | ev3/navigation_worker.py:463-706 | The receipt, the counters and the latch are exactly those of how the slice started, waited, finished and was proven; a slice that recovery may repair ends for one of the recovery's reasons |
| `NavigationWorker.NavigationWorker.RunSlices` | ev3/navigation_worker.py:756-775 | Slices run in order until one does not complete, within the budget checked up front, each with the receipt of its own outcome; only a slice that breaks ends the run with an exception |
| `NavigationWorker.NavigationWorker.Pulse` | ev3/navigation_worker.py:708-818 | Refused exactly when latched, late or out of budget; a fixed turn is charged four slices and 2560 ms when it succeeds and no more otherwise; every receipt is that of its slice |
| `NavigationWorker.NavigationWorker.ScanTurn` | ev3/navigation_worker.py:878-1053 | With every slice completed the turn is Completed exactly when the travel summed over its receipts is known, the left wheel's has the sign opposite and the right wheel's the sign of the commanded angle, and their sizes differ by at most 80 degrees; otherwise it failed verification and latched; a completed turn used exactly its slices and duration |
| `NavigationWorker.TotalsNeedEveryReceipt` | ev3/navigation_worker.py:821-838 | The travel of a turn is known exactly when every receipt tells both sides once |
| `NavigationWorker.EncoderTotals` | ev3/navigation_worker.py:821-838 | The summing loop yields that travel |
| `MotorOwner.StopSweeps` | ev3/supervisor.py:820-980 | The retry loop confirms at the first inactive, fault-free sweep that repeats the previous readable positions, and its errors are exactly the failures met |
| `MotorOwner.VerifiedMeansAtRest` | ev3/supervisor.py:820-980 | A verified stop saw at least one motor at rest after writing every stop command without failure |
| `MotorOwner.NoMotorsStillConfirm` | ev3/supervisor.py:959-962 | With no motors at all the second attempt confirms; only the error list tells |
| `MotorOwner.RestIsConfirmed` | ev3/supervisor.py:820-980 | A robot at rest whose motors answer is confirmed in two attempts |
| `MotorOwner.Combine` | ev3/supervisor_support.py:295-316 | A combined result is verified exactly when the last one is and the first had no errors |
| `MotorOwner.SupervisorMotorOwner.FinishActive` | ev3/supervisor.py:1422-1507 | Unless the lock is gone a stop is begun, and the active motion is forgotten even when it fails; errors of reading its final positions count as errors of the stop, and only a verified result means rest |
| `MotorOwner.SupervisorMotorOwner.Close` | ev3/supervisor.py:1509-1538 | The ownership lock is released only behind a verified stop |
| `SupervisorView.ReachableIsCoherent` | ev3/supervisor.py:1541-3153 | In every reachable state a command is set exactly while RUNNING, an armed state has a heartbeat and a session, and a latched fault has neither session nor command |
| `SupervisorView.RunningNeedsAuthority` | ev3/supervisor.py:2422-2867 | Over every run, RUNNING means a session that was claimed, sent a heartbeat, was armed and then driven, in that order, and has not ended or disarmed since |
| `SupervisorView.NoStopWhileRunning` | ev3/supervisor.py:2888-2931 | No stop, close or latched fault lies between a drive call and the motion it still runs |
| `SupervisorView.NothingIsReplayed` | ev3/supervisor.py:1998-2012 | Within a session a later accepted call has a larger sequence number, and a later drive a new command id |
| `SupervisorView.FaultEndsEveryAuthority` | ev3/supervisor.py:2973-3041 | After a latched fault nothing runs before a reset and a new claim |
| `Supervisor.EV3Supervisor.constructor` | ev3/supervisor.py:1544-1669 | Start-up ends disarmed behind a verified stop, or faulted |
| `Supervisor.EV3Supervisor.VerifiedStopIsAtRest` | ev3/supervisor.py:3197-3217 | A status that proves a verified stop means no start command was written since the motors were last seen at rest |
| `Supervisor.EV3Supervisor.EnterFault` | ev3/supervisor.py:1874-1976 | Latching a fault drops session, command and active motion |
| `Supervisor.EV3Supervisor.Audit` | ev3/supervisor.py:1822-1856 | A failing audit sink latches a fault; a working one changes nothing |
| `Supervisor.EV3Supervisor.StopForwardForInfrared` | ev3/supervisor.py:2105-2136 | An obstacle ends a forward motion armed and idle behind a verified stop, or faulted |
| `Supervisor.EV3Supervisor.CompleteMotion` | ev3/supervisor.py:2348-2368 | A motion past its deadline ends armed and idle behind a verified stop with its travel verified, or faulted |
| `Supervisor.EV3Supervisor.PollOnce` | ev3/supervisor.py:2296-2420 | A poll that changes nothing has just read touch released, no obstacle ahead of a forward motion, a motion deadline still ahead and a heartbeat younger than the timeout (or an unexpired lease); while nothing outside went wrong, whether it latches a fault, ends a motion or expires a lease is exactly what touch, heartbeat, deadline and obstacle say; a latched fault is stopped again |
| `Supervisor.EV3Supervisor.Claim` | ev3/supervisor.py:2422-2446 | Only a disarmed, unowned supervisor is claimed, and its lease time is the clock reading of the claim; a claim that raises without latching a fault met a clock that went back and leaves the session open with no time for its lease to run from; nothing else refuses one |
| `Supervisor.EV3Supervisor.LeaseExpiresExactly` | ev3/supervisor.py:2388-2414 | An unarmed lease can expire at some later time exactly when its claim read the clock or one heartbeat was accepted |
| `Supervisor.EV3Supervisor.Heartbeat` | ev3/supervisor.py:2448-2469 | The live session with a new sequence number, and nobody else, refreshes the heartbeat, to the time at which it was accepted |
| `Supervisor.EV3Supervisor.Arm` | ev3/supervisor.py:2493-2530 | Arming needs the live session, a heartbeat younger than the timeout at the last clock reading, stably released touch and a second look at the idle motors, even though its own poll may expire the lease; with all that and nothing gone wrong outside it arms |
| `Supervisor.EV3Supervisor.GuardMotorStart` | ev3/supervisor.py:2532-2569 | A start is permitted only behind a fresh snapshot of touch, infrared and motors (the second start: behind the first one's), with touch released, a heartbeat younger than the timeout now and, going forward, a valid clear infrared reading |
| `Supervisor.EV3Supervisor.WriteGuardedStart` | ev3/supervisor.py:982-1210 | Each start command uses up its permission, and the second one counts only when it began and ended within the start-skew limit of the first |
| `Supervisor.EV3Supervisor.StartMotors` | ev3/supervisor.py:982-1210 | The motion is active exactly when both guarded start writes succeeded in time; its deadline is its duration after the first write began |
| `Supervisor.EV3Supervisor.AbandonStart` | ev3/supervisor.py:2747-2806 | A failed start ends faulted, or armed only for an IR refusal behind a verified stop |
| `Supervisor.EV3Supervisor.Poststart` | ev3/supervisor.py:2808-2859 | A motion survives its first checks unchanged, with touch released, a heartbeat younger than the timeout and, going forward, no obstacle, or it ends armed for an IR refusal or faulted, or its caller stops it |
| `Supervisor.EV3Supervisor.StartDrive` | ev3/supervisor.py:2571-2867 | A drive returns running its new command, in the direction and for the duration asked, with touch released, a heartbeat younger than the timeout at the last clock reading and no obstacle ahead; every other way out is not running, and while nothing outside went wrong an acceptable drive is refused only for touch, heartbeat, obstacle or a second start that came late |
| `Supervisor.EV3Supervisor.Stop` | ev3/supervisor.py:2888-2931 | The emergency stop always stops the motors, and ends disarmed behind a verified stop, or faulted; disarmed unless something outside went wrong |
| `Supervisor.EV3Supervisor.Release` | ev3/supervisor.py:2933-2971 | The live session, and nobody else, may release; it stops the motors and ends like a stop |
| `Supervisor.EV3Supervisor.ResetFault` | ev3/supervisor.py:2973-3041 | A fault is left only behind a verified stop, with touch stably released, no secondary failure and none of the four codes that say the hardware binding failed, and then always unless something outside went wrong |
| `Supervisor.EV3Supervisor.Close` | ev3/supervisor.py:3094-3153 | Shutdown stops the motors and ends closed behind a verified stop, or faulted; closed unless something outside went wrong |
| `SupervisorProtocol.SupervisorProtocol.DriveTimed` | ev3/supervisor_protocol.py:687-748 | A one-shot drive is paid for before it is handed on, and one that succeeds runs in the direction its speeds give until the deadline its duration gives |
| `SupervisorProtocol.SupervisorProtocol.DrivePulse` | ev3/supervisor_protocol.py:749-810 | A semantic pulse is paid for in count and duration before it is handed on, and one that succeeds runs in its profile's direction until the deadline its duration gives |
| `SupervisorProtocol.SupervisorProtocol.Execute` | ev3/supervisor_protocol.py:830-897 | Foreign and stale requests change nothing; a success has the effect of its operation: a stop proves the motors at rest, a drive is running; an error to any other request has its cause in the supervisor's state, in touch, heartbeat or obstacle, in the budget, or in something that went wrong outside; an exception may leave at any point and keeps the budgets |
| `SupervisorProtocol.BudgetIsNeverExceeded` | ev3/supervisor_protocol.py:438-536 | Over every request sequence the drive calls and their duration stay within the profile's budget |
| `LoopTrace.SuccessIsClean` | ev3/supervisor.py:3279-3505 | A success is queued for the item in flight only; for anything but a stop no emergency stop ran and no deadline check failed since its dispatch; for a stop the motors are at rest and every miss was followed by a verified stop |
| `LoopTrace.SuccessExactly` | ev3/supervisor.py:3279-3505 | A success may be queued for the item in flight exactly when its execution returned or the stop proof answered it, no stop since its dispatch failed, every deadline missed since was followed by a verified stop and, for anything but a stop request, no stop ran at all |
| `LoopTrace.SuccessWasAnswered` | ev3/supervisor_daemon.py:508-556 | Over every accepted trace a published success has, since its dispatch, exactly one answer, and that is an execution that returned or, for a stop request only, the stop proof: a refused or crashed request is never reported as done |
| `LoopTrace.RefusalHasCause` | ev3/supervisor.py:3298-3343 | Conversely a request that was answered is told so, unless a stop failed, a deadline was missed or, for anything but a stop request, any stop ran since its dispatch |
| `LoopTrace.StopSucceedsAfterMiss` | ev3/supervisor.py:3298-3343 | A success after a missed deadline and a verified stop is permitted for a stop request and for no other |
| `LoopTrace.OneResponseEach` | ev3/supervisor_daemon.py:500-635 | Each dispatched item gets at most one response |
| `LoopTrace.ProofUsedOnce` | ev3/supervisor.py:3219-3237 | A cached stop proof is used at most once and never after another request was executed or another stop ran |
| `LoopTrace.NthDeadline` | ev3/supervisor.py:3372-3505 | While no deadline was missed, the nth deadline is the first plus n intervals plus exactly the time in verified request-bound stops |
| `LoopTrace.WakeSpacing` | ev3/supervisor.py:3372-3505 | Given a sleep that never returns early, consecutive wakes are at most interval, lateness budget and that stop time apart |
| `SupervisorLoop.MissForbids` | ev3/supervisor.py:3346-3361 | An overrun dispatch is invalidated whatever stops ran around it |
| `SupervisorLoop.SupervisorSession.EnqueueRequest` | ev3/supervisor_daemon.py:438-476 | The whole new state: a stop request for this controller overtakes the others and raises the emergency stop in the same step; a repeated id is never queued as a request; too many requests or a full queue fail the transport |
| `SupervisorLoop.SupervisorSession.PerformStop` | ev3/supervisor.py:3239-3263 | A requested stop is always performed, and exactly a verified one that a queued request asked for shifts the deadline, by exactly the time from the clock reading before it to the one after |
| `SupervisorLoop.SupervisorSession.TakeItem` | ev3/supervisor_daemon.py:500-508 | Urgent items leave before normal ones, each queue in order |
| `SupervisorLoop.SupervisorSession.TakeProof` | ev3/supervisor.py:3219-3237 | The cached proof is consumed and must hold of the supervisor now |
| `SupervisorLoop.SupervisorSession.Answer` | ev3/supervisor_daemon.py:508-556 | An item is answered from the proof or by executing it, and a rejected frame by neither; the reply is a success exactly when the trace holds that answer; a successful stop leaves the motors at rest |
| `SupervisorLoop.SupervisorSession.ExecuteRequest` | ev3/supervisor_daemon.py:525-556 | The trace records whether the call returned, was refused or crashed, and a success has its operation's effect on the supervisor |
| `SupervisorLoop.SupervisorSession.DispatchOne` | ev3/supervisor.py:3279-3296 | At most one item is taken, its prepared response is a success exactly when it was answered, and the loop knows everything since that forbids a success |
| `SupervisorLoop.SupervisorSession.PreparedSurvives` | ev3/supervisor.py:3298-3343 | A prepared success survives exactly when nothing happened since its dispatch, or it answers a stop request and the preferred error is a verified stop |
| `SupervisorLoop.SupervisorSession.Publish` | ev3/supervisor_daemon.py:558-635 | Exactly one response is queued: a success exactly when the item was answered and nothing since the dispatch forbids it, where a stop request ignores the stop itself; a full queue fails the transport; only an answered shutdown request ends the session |
| `SupervisorLoop.SupervisorSession.CompleteDispatch` | ev3/supervisor.py:3298-3343 | A prepared response is queued or the transport has failed; anything that forbids a success keeps every success but a stop's from being queued |
| `SupervisorLoop.SupervisorSession.InvalidateLate` | ev3/supervisor.py:3437-3467 | A dispatch that overran the deadline latches a fault, and no success is queued for anything but a stop request |
| `SupervisorLoop.SupervisorSession.RunOnce` | ev3/supervisor.py:3372-3505 | Each pass takes at most one item, answers it or fails the transport, and either polls and keeps the absolute schedule within the lateness budget or finds a deadline missed, which latches a fault; every response it queues is permitted by the trace; an exception ends it only when something went wrong outside or a call crashed |
| `SupervisorLoop.SupervisorSession.RunForever` | ev3/supervisor.py:3507-3556 | Every event of a whole run was permitted, the wake-ups follow the schedule, and a clean exit is closed with the motors at rest |
| `RequestFraming.DrainBuffer` | ev3/supervisor_daemon.py:169-194 | Delivering the complete frames of a buffer changes nothing about what the whole input amounts to |
| `RequestFraming.RunDescriptor` | ev3/supervisor_daemon.py:143-194 | The delivered frames and the verdict depend only on the bytes received before the first empty read, never on how reads split them |
| `RequestFraming.ReceivedWhole` | ev3/supervisor_daemon.py:158-168 | Every split of the input into non-empty reads is received whole, and nothing behind an empty read is |
| `RequestFraming.FramesAreWhole` | ev3/supervisor_daemon.py:169-183 | Every delivered frame ends with its only newline and respects the size limit |
| `RequestFraming.FramesAreThePrefix` | ev3/supervisor_daemon.py:169-183 | The delivered frames together are a prefix of the input |
| `ScanRoute.RouteIsOptimal` | src/robot_agent/active_ir_scan.py:90-110 | The chosen sweep has least total travel, the return to the start heading included, among all orders that visit the bearings |
| `ScanRoute.RouteVisitsAll` | src/robot_agent/active_ir_scan.py:90-110 | The route visits exactly the candidate bearings |
| `ScanRoute.RoutePrefersNearer` | src/robot_agent/active_ir_scan.py:98-110 | The shorter sweep is chosen, of two equal ones the one whose first bearing is nearer, and else the ascending one |
| `ScanRoute.TransitionMidpointsMeaning` | src/robot_agent/active_ir_scan.py:74-90 | A candidate is the midpoint of neighbouring bearings that differ and are wider apart than the step, and every such midpoint is one |
| `ScanRoute.AllMidpointsMeaning` | src/robot_agent/active_ir_scan_contract.py:100-108 | The worst case has a midpoint for every wide gap and for no other |
| `ScanRoute.MidpointsAscend` | src/robot_agent/active_ir_scan.py:74-90 | Midpoints come out sorted, without repetition and inside the arc |
| `ScanRoute.MidpointsAreNew` | src/robot_agent/active_ir_scan.py:74-90 | No midpoint repeats a sampled bearing |
| `ScanRoute.WorstCaseCovers` | src/robot_agent/active_ir_scan_contract.py:79-157 | For every pattern of blocked rays and every cut, travel, turns and rays stay within the worst case |
| `ScanRoute.TurnTimeNearBudget` | src/robot_agent/active_ir_scan_contract.py:105-157 | Whatever the calibration, on the turn lattice or not, rounding costs at most a millisecond a turn |
| `ScanRoute.TurnTimeCanExceedBudget` | src/robot_agent/active_ir_scan_contract.py:105-157 | A concrete calibration that gets a budget, and whose unrefined scan takes one millisecond more than budgeted |
| `ScanRoute.ChooseRoute` | src/robot_agent/active_ir_scan.py:68-110 | The refinement loop and tie-breaking compute the route |
| `ScanRoute.WorstCaseScanBudget` | src/robot_agent/active_ir_scan_contract.py:79-157 | The budget is the turn count, slices, turning time and rays of the full refinement, refused exactly for a headroom outside 1 to 10000 ms or a calibration off the turn lattice |
| `ScanTurnTime.TimeOnSteps` | ev3/navigation_profile.py:90-140 | On the lattice the turning time is the exact proportion of the travel plus a third of a millisecond for every turn rounded up, minus one for every turn rounded down |
| `ScanTurnTime.OverrunHasFullTravel` | src/robot_agent/active_ir_scan_contract.py:105-157 | A scan that turns longer than budgeted travels exactly as far as the worst case |
| `ScanTurnTime.OverrunIsOneMillisecond` | src/robot_agent/active_ir_scan_contract.py:105-157 | No scan turns more than one millisecond longer than budgeted |
| `ScanTurnTime.BudgetFailsExactly` | src/robot_agent/active_ir_scan_contract.py:79-157 | A budgeted calibration has a scan that turns longer than budgeted exactly when its midpoints and outermost bearing are one of three shapes |
| `ScanTurnTime.ShippedBudgetHolds` | src/robot_agent/active_ir_scan_contract.py:36-48 | The default calibration gets a budget that no pattern of blocked rays and no cut exceeds |
| `ActiveIrScan.RaysInOrderMeaning` | src/robot_agent/active_ir_scan_contract.py:451-483 | Rays in order are numbered, strictly later one after another and at different bearings |
| `ActiveIrScan.TransitionsAreBoundaries` | src/robot_agent/active_ir_scan.py:68-126 | The midpoints computed from the sorted bearings are exactly the points halfway, to even, between two rays that differ in blocked, have no ray between them and are wider apart than the step |
| `ActiveIrScan.Validate` | src/robot_agent/active_ir_scan_contract.py:408-550 | The validator accepts exactly the results that meet the declared conditions, a boundary by the rays alone: halfway between two neighbouring rays of which one is blocked, on its own side |
| `ActiveIrScan.SortedSchedule` | src/robot_agent/active_ir_scan.py:61-65 | Sorting a complete coarse pass gives back the calibration's order |
| `ActiveIrScan.SchedulesAreDistinct` | src/robot_agent/active_ir_scan_contract.py:22-27 | The coarse schedule and both side probes are schedules the executor takes |
| `ActiveIrScan.RouteExtends` | src/robot_agent/active_ir_scan.py:471-499 | Refinement adds only new bearings and completes the calibration's plan |
| `ActiveIrScan.ActiveIrScanExecutor.Turn` | src/robot_agent/active_ir_scan.py:190-275 | A turn is commanded exactly when the estimated time to make it, and to get back where that is reserved, fits |
| `ActiveIrScan.ActiveIrScanExecutor.RequiredOnNumbers` | src/robot_agent/active_ir_scan.py:173-216 | That estimate on numbers: the turn, the way back and settling after both at the calibrated speed, up to rounding |
| `ActiveIrScan.ActiveIrScanExecutor.VisitOne` | src/robot_agent/active_ir_scan.py:433-468 | A stop is given up only when cancelled, when the rig refused, when the time to go there and back is short, or for a sample that is late, stale, out of order, unsafe, invalid or misaligned |
| `ActiveIrScan.ActiveIrScanExecutor.ReadRay` | src/robot_agent/active_ir_scan.py:277-347 | A sample is accepted exactly when it is in time, fresh, aligned and valid, and becomes the next ray; every refusal has its safety verdict |
| `ActiveIrScan.ActiveIrScanExecutor.Refine` | src/robot_agent/active_ir_scan.py:68-110 | The refinement stops are exactly the boundaries of the coarse rays wider apart than the fine step |
| `ActiveIrScan.ActiveIrScanExecutor.VisitAll` | src/robot_agent/active_ir_scan.py:432-518 | The rays are those of a prefix of the plan, with at most one stop reached without a ray |
| `ActiveIrScan.ActiveIrScanExecutor.StopAndRestore` | src/robot_agent/active_ir_scan.py:519-592 | After a safety cancellation or an unconfirmed stop nothing moves; restored exactly when nothing was given up and a last sample, fresh and in time, shows the start heading |
| `ActiveIrScan.ActiveIrScanExecutor.Assemble` | src/robot_agent/active_ir_scan.py:594-636 | COMPLETED exactly when every stop was sampled, the heading restored, both boundaries found and the deadline met; left is the nearest boundary of the rays to the left, right the nearest to the right, each unset only when there is none |
| `ActiveIrScan.ActiveIrScanExecutor.Execute` | src/robot_agent/active_ir_scan.py:376-636 | The reported boundaries are the nearest ones among the rays; after a complete coarse pass exactly the wide ones are refined; COMPLETED exactly when nothing was cancelled or given up, the deadline was met and both boundaries exist; a result is acceptable to the validator unless it is late and not restored by a sample taken since the start |
| `ActiveIrScan.LateRestoredCanBeRejected` | src/robot_agent/active_ir_scan.py:560-636 | A concrete late result whose final sample proves the restoration but predates the scan, and which the validator rejects |
| `ActiveIrScan.ProofShowsStart` | src/robot_agent/active_ir_scan.py:560-590 | The closing test accepts exactly the samples that are safe, in time and fresh and show the start heading up to whole turns |
| `ActiveIrScan.ScanStaysWithinBudget` | src/robot_agent/active_ir_scan.py:61-110 | Travel, turns and stops of any scan of the calibration's arc stay within the worst case |
| `AuthorityState.ReachableIsConsistent` | src/robot_agent/autonomy_authority.py:178-478 | In every reachable state a pending claim beside an active lease means a cancelled idle lease, a guard excludes leases, claims and enabled idle, and no claim is settled twice |
| `AuthorityState.FaultIsPermanent` | src/robot_agent/autonomy_authority.py:463-478 | A fault is permanent and grants nothing |
| `AuthorityState.NeverCurrentAgain` | src/robot_agent/autonomy_authority.py:421-432 | Once an idle lease is not current it never becomes current again |
| `AuthorityState.LeasesIncrease` | src/robot_agent/autonomy_authority.py:178-198 | A lease granted later has a larger generation, epoch and revision |
| `AuthorityState.CancelledStaysCancelled` | src/robot_agent/autonomy_authority.py:290-343 | A cancelled claim is never activated afterwards |
| `AuthorityState.BlockedGrantsNothing` | src/robot_agent/autonomy_authority.py:237-249 | While faulted, or while an abandoned lease is active, no sequence of calls grants a lease of either kind |
| `GoalAuthority.GoalLeaseCoordinator.SetIdleEnabled` | src/robot_agent/autonomy_authority.py:221-235 | Disabling idle cancels an active idle lease; enabling is refused during a re-arm |
| `GoalAuthority.GoalLeaseCoordinator.TryAcquireIdle` | src/robot_agent/autonomy_authority.py:237-249 | Idle is granted exactly when enabled and nothing else is held |
| `GoalAuthority.GoalLeaseCoordinator.ReserveUser` | src/robot_agent/autonomy_authority.py:251-288 | A claim blocks idle at once and cancels an active idle lease; a repeated request id gets the same claim; refused exactly during a re-arm, after a fault, or while another user's claim or lease stands |
| `GoalAuthority.GoalLeaseCoordinator.CancelUserReservation` | src/robot_agent/autonomy_authority.py:290-343 | Exactly the pending object is cancelled, once |
| `GoalAuthority.GoalLeaseCoordinator.ActivateUser` | src/robot_agent/autonomy_authority.py:345-379 | Exactly the pending object is activated, after the previous owner released |
| `GoalAuthority.GoalLeaseCoordinator.BeginIdleDutyRearm` | src/robot_agent/autonomy_authority.py:381-400 | A guard is issued exactly when idle is disabled and nothing is held |
| `GoalAuthority.GoalLeaseCoordinator.FinishIdleDutyRearm` | src/robot_agent/autonomy_authority.py:402-419 | Only the very guard object ends the re-arm |
| `GoalAuthority.GoalLeaseCoordinator.CurrentIdleAgrees` | src/robot_agent/autonomy_authority.py:421-432 | The object test agrees with the state machine's for every issued lease |
| `GoalAuthority.GoalLeaseCoordinator.Release` | src/robot_agent/autonomy_authority.py:434-478 | Only the active lease object is released; an unverified release faults for good |
| `GoalAuthority.IdleTaskExecutor.FinishWithoutMission` | src/robot_agent/autonomy_task.py:168-214 | Verified exactly when the last stop was and its snapshot was safe for the lease; then the authority was handed back, otherwise it is blocked |
| `GoalAuthority.IdleTaskExecutor.ClassifyMission` | src/robot_agent/autonomy_task.py:621-705 | Verified exactly when the mission's final snapshot was safe for the lease; otherwise the authority is blocked |
| `GoalAuthority.IdleTaskExecutor.RunTask` | src/robot_agent/autonomy_task.py:707-759 | Whatever other callers do meanwhile, terminal_stop_verified is true exactly when the task's final snapshot and stop were safe for its lease, and then the lease was handed back, also when an exception follows; on every other way out no further lease can be granted |
| `SingleFlightSelector.StepIsSound` | src/robot_agent/autonomy_selector.py:97-327 | Every critical section and thread event keeps the protocol's invariant |
| `SingleFlightSelector.AtMostOneWorker` | src/robot_agent/autonomy_selector.py:207-232 | Under any interleaving at most one worker is alive |
| `SingleFlightSelector.DeliveredIsOwn` | src/robot_agent/autonomy_selector.py:258-327 | A COMPLETED payload was produced by the worker started for that very call, caller and context |
| `SingleFlightSelector.DiscardedIsNeverDelivered` | src/robot_agent/autonomy_selector.py:106-145 | A result whose call was cancelled or timed out is never delivered to anyone |
| `SingleFlightSelector.AbandonedWorkerKeepsBusy` | src/robot_agent/autonomy_selector.py:207-232 | While an abandoned worker lives every new call is BUSY and starts nothing |
| `EmergencyStop.AcceptedMeansEnoughAttempts` | ev3/robot_config.py:400-424 | The loader accepts exactly the settings that leave enough attempts for the required intervals |
| `EmergencyStop.SettingsFillTimeout` | ev3/emergency_stop.py:92-129 | The attempts fill the timeout and no more, and the required intervals are the least of at least three that span 50 ms |
| `EmergencyStop.Run` | ev3/emergency_stop.py:299-405 | Confirmed exactly when the settings, the topology and every write, read and pause were good and the last sweeps were stable |
| `EmergencyStop.PollUntilStable` | ev3/emergency_stop.py:299-344 | The polling loop stops at the first stable attempt or failed pause, and knows whether anything failed |
| `EmergencyStop.ConfirmedMeansSettled` | ev3/emergency_stop.py:92-129 | A confirmed stop saw required + 1 consecutive clean sweeps with equal positions spanning at least 50 ms, and no failed write in any attempt |
| `EmergencyStop.RestIsConfirmed` | ev3/emergency_stop.py:299-389 | Whatever configuration the loader accepts, a robot at rest is confirmed with exactly the required intervals |

## Left out

- Interrupts: exceptions outside `Exception` (KeyboardInterrupt and the like),
  which the source defers or re-raises, are not modelled anywhere.
- Encoder stall, direction and early-stop checks of a running motion: they are
  free outcomes of `CheckRunningMotion`, so the model says what a failed check
  leads to, not when it fails.
- Topology binding, revalidation texts, sysfs, file locks, the audit event
  contents and the wording of errors and responses: only the codes the control
  flow tests remain.
- The infrared gate inside the supervisor: the supervisor keeps only its verdict
  and freshness; the gate itself is the separate module.
- Request decoding and identifier, range and configuration checks: their
  conclusions are preconditions or free refusals.
- Real threads and real time: interleavings at the points where state is shared,
  and integer clocks. The response writer thread and the output drain are not
  modelled; a full output queue is a free outcome.
- The shutdown sequence of a session after its loop has closed the supervisor.
- Floating point in `_remaining_turn_ms`: the estimate is the exact rational,
  rounded half to even.
- Scan readings (`raw`, `filtered`) and result reasons: a reading is valid or
  not, and no control flow depends on a reason.
- Perception, planning and mission running between an idle task's lease and its
  release; telemetry sinks; the weak-reference eviction of settled claims, which
  are kept. Other callers act while an idle task holds its lease, not between its
  release and its return.
- The hub's own program: `Store` states what one AppData frame does to its
  buffer.
- Transport of the audio session (Bluetooth writes, notifications, playback
  control) beyond the frames and their offsets.
- Dashboards, planners, simulators, odometry, the agent loop and the command-line
  programs.
- SupervisorLoop.SupervisorSession.RunOnce: does not promise that the reader's
  queues are ever emptied, because the transport may fail at any point.
- Supervisor.EV3Supervisor.PollOnce: does not say when a stall, a wrong direction
  or an early stop of a running motion is detected, because encoder positions over
  time are hardware the model leaves free.
- RequestFraming.RunDescriptor: does not model a shutdown flag or a failed read
  that ends the input early; what was received before it is delivered as stated.
- ScanRoute.WorstCaseCovers: does not bound the travel of turns that fail, which
  may end at any heading.
