/** The EV3 supervisor's state machine (ev3/supervisor.py, `EV3Supervisor`).

    Sensors, clocks, topology checks and the audit sink are nondeterministic
    outcomes; `Raised` is a call that leaves with an exception. */
module Supervisor {
  import opened Common
  import opened MotorOwner
  import opened SupervisorView

  datatype Code =
    | HardwareReadFailed
    | HardwareTopologyChanged
    | HardwareTopologyUnreadable
    | InfraredInvalidSample
    | InfraredNotFresh
    | InfraredObstacle
    | ClockRollback
    | HeartbeatTimeout
    | TouchPressed
    | AuditFailure
    | StopFailed
    | PollDeadlineMissed
    | OtherCode

  datatype Outcome = Done | Raised

  datatype Fault = Fault(code: Code, stop: StopResult, secondary: bool)

  predicate BindingFailed(code: Code) {
    code.HardwareReadFailed? || code.HardwareTopologyChanged? || code.HardwareTopologyUnreadable? || code.InfraredInvalidSample?
  }

  /** How many readings of each kind have succeeded. */
  datatype Seen = Seen(touch: nat, infrared: nat, idle: nat)

  const FAILED_STOP: StopResult := StopResult(false, true, false)

  class EV3Supervisor {
    const owner: SupervisorMotorOwner
    const heartbeatTimeoutMs: nat
    const touchReleaseSamples: nat
    const maximumCommands: nat
    const infraredFreshnessMs: nat
    const maximumStartSkewMs: nat

    var state: State
    var sessionId: Option<int>
    var lastSequence: int
    var lastHeartbeatMs: Option<int>
    var lastHeartbeatSequence: Option<int>
    var claimedAtMs: Option<int>
    var seenCommands: set<int>
    var activeCommand: Option<int>
    var fault: Option<Fault>
    var closed: bool

    var lastPollMs: Option<int>
    var touchValue: Option<int>
    var touchReleasedSamples: nat
    var infraredBlocked: bool
    var infraredObservedMs: Option<int>
    var infraredValid: bool
    /** A motor-start guard just passed; every start write uses one up. */
    ghost var permitted: bool
    /** The time, as far as the clock showed it since readings that take a while. */
    ghost var clockMs: int
    /** Sensor readings and idle-motor checks that succeeded, and start commands
        written in time. */
    ghost var seen: Seen
    ghost var starts: nat
    /** When the first start command of the last drive began. */
    ghost var firstStartMs: int
    /** Safety polls completed. */
    ghost var polls: nat
    /** Reads, stops, audits and other outcomes outside the supervisor that went
        wrong. While it stands still, every refusal and every fault has its cause in
        the numbers. */
    ghost var mishaps: nat

    predicate ProvesStop(stop: StopResult) {
      stop.Verified() && !stop.faultTokens
    }

    /** What a status must show before a stop request may be reported as done. */
    predicate ProvesVerifiedStop()
      reads `state, `sessionId, `activeCommand, `fault
    {
      || state == Closed
      || (sessionId.None? && activeCommand.None?
          && (state == Disarmed || (state == FaultLatched && fault.Some? && ProvesStop(fault.value.stop))))
    }

    /** A status that proves a verified stop means the motors were seen at rest
        after the last start command. */
    lemma VerifiedStopIsAtRest()
      requires Valid() && ProvesVerifiedStop()
      ensures !owner.moving && owner.active.None?
    {
    }

    ghost function Snapshot(): View
      reads `state, `sessionId, `lastSequence, `lastHeartbeatSequence, `seenCommands, `activeCommand
    {
      View(state, sessionId, lastSequence, lastHeartbeatSequence, seenCommands, activeCommand)
    }

    /** Holds after every public call. In every state but RUNNING and
        FAULT_LATCHED the motors were verifiably stopped after the last start. */
    ghost predicate Valid()
      reads this, owner
    {
      && Coherent(Snapshot())
      && (owner.active.Some? <==> state == Running)
      && (lastHeartbeatMs.Some? <==> lastHeartbeatSequence.Some?)
      && (claimedAtMs.Some? ==> sessionId.Some?)
      && |seenCommands| <= maximumCommands
      && (state == FaultLatched ==> fault.Some? && (ProvesStop(fault.value.stop) ==> !owner.moving))
      && (fault.Some? ==> state.Ended())
      && (closed <==> state == Closed) && (closed ==> owner.closed)
      && (owner.closed ==> state.Ended() && !owner.moving)
      && (owner.moving ==> state == Running || state == FaultLatched)
    }

    /** What latching a fault needs. Only a doubly failed shutdown closes the owner
        of a supervisor that is not closed itself. */
    ghost predicate Open()
      reads this, owner
    {
      !closed && (owner.closed ==> owner.active.None? && !owner.moving) && (state == FaultLatched ==> fault.Some? && Valid())
    }

    // ------------------------------------------------------------- readings

    method Clock() returns (reading: int)
      modifies `clockMs
      ensures reading == clockMs
    {
      reading := *;
      clockMs := reading;
    }

    /** `None` is a clock that went back behind the last accepted reading. */
    method CheckedNow() returns (now: Option<int>)
      modifies `clockMs, `lastPollMs, `mishaps
      ensures now.Some? <==> old(lastPollMs).None? || clockMs >= old(lastPollMs).value
      ensures mishaps == old(mishaps) + if now.None? then 1 else 0
      ensures now.Some? ==> now == lastPollMs == Some(clockMs)
      ensures now.None? ==> lastPollMs == old(lastPollMs)
    {
      var reading := Clock();
      if lastPollMs.Some? && reading < lastPollMs.value {
        mishaps := mishaps + 1;
        return None;
      }
      lastPollMs := Some(reading);
      return lastPollMs;
    }

    predicate HeartbeatFresh(now: int)
      reads `lastHeartbeatMs
    {
      lastHeartbeatMs.Some? && 0 <= now - lastHeartbeatMs.value < heartbeatTimeoutMs
    }

    /** At the last clock reading that heartbeat was younger than the timeout. */
    ghost predicate FreshBy(heartbeatMs: Option<int>)
      reads `lastPollMs
    {
      heartbeatMs.Some? && lastPollMs.Some? && 0 <= lastPollMs.value - heartbeatMs.value < heartbeatTimeoutMs
    }

    /** And a lease that runs from its last heartbeat, or else its claim, was over. */
    ghost predicate OverBy(heartbeatMs: Option<int>, claimMs: Option<int>)
      reads `lastPollMs
    {
      && lastPollMs.Some?
      && (if heartbeatMs.Some? then lastPollMs.value - heartbeatMs.value >= heartbeatTimeoutMs
          else claimMs.Some? && lastPollMs.value - claimMs.value >= heartbeatTimeoutMs)
    }

    predicate TouchRead()
      reads `touchValue
    {
      touchValue == Some(0) || touchValue == Some(1)
    }

    method ReadTouch() returns (code: Option<Code>)
      modifies `touchValue, `touchReleasedSamples, `seen, `mishaps
      ensures mishaps == old(mishaps) + if code.None? then 0 else 1
      ensures seen == old(seen).(touch := old(seen).touch + if code.None? then 1 else 0)
      ensures code.None? ==> touchValue == Some(0) || touchValue == Some(1)
      ensures code.None? ==> touchReleasedSamples == if touchValue == Some(0) then old(touchReleasedSamples) + 1 else 0
      ensures code.Some? ==> unchanged(`touchValue) && unchanged(`touchReleasedSamples)
    {
      var readable: bool, value: int := *, *;
      mishaps := mishaps + if readable && 0 <= value <= 1 then 0 else 1;
      if !readable {
        return Some(HardwareReadFailed);
      }
      if value != 0 && value != 1 {
        return Some(OtherCode);
      }
      touchValue := Some(value);
      seen := seen.(touch := seen.touch + 1);
      touchReleasedSamples := if value == 0 then touchReleasedSamples + 1 else 0;
      return None;
    }

    /** The gate's verdict on a sample is a free outcome; a failed read closes it. */
    method ReadInfrared() returns (code: Option<Code>)
      modifies `clockMs, `lastPollMs, `infraredBlocked, `infraredObservedMs, `infraredValid, `seen, `mishaps
      ensures mishaps >= old(mishaps) && (code.None? <==> mishaps == old(mishaps))
      ensures seen == old(seen).(infrared := old(seen).infrared + if code.None? then 1 else 0)
      ensures code.Some? && code.value != ClockRollback ==> infraredBlocked && !infraredValid
      ensures code.None? ==> infraredValid && infraredObservedMs == lastPollMs
      ensures old(lastPollMs).Some? ==> lastPollMs.Some? && lastPollMs.value >= old(lastPollMs).value
    {
      var observed := CheckedNow();
      if observed.None? {
        return Some(ClockRollback);
      }
      infraredObservedMs := observed;
      var readable: bool, valid: bool, blocked: bool := *, *, *;
      clockMs := *;
      mishaps := mishaps + if readable && valid then 0 else 1;
      infraredValid := readable && valid;
      infraredBlocked := !infraredValid || blocked;
      if !readable {
        var changed: bool := *;
        return Some(if changed then HardwareTopologyChanged else HardwareReadFailed);
      }
      if !valid {
        return Some(InfraredInvalidSample);
      }
      seen := seen.(infrared := seen.infrared + 1);
      return None;
    }

    /** The gate is clear on a valid reading that is fresh by the last clock reading. */
    ghost predicate ForwardClear()
      reads this
    {
      && !infraredBlocked && infraredValid && infraredObservedMs.Some? && lastPollMs.Some?
      && 0 <= lastPollMs.value - infraredObservedMs.value <= infraredFreshnessMs
    }

    method RequireForwardClear() returns (code: Option<Code>)
      modifies `clockMs, `lastPollMs, `mishaps
      ensures mishaps >= old(mishaps)
      ensures mishaps == old(mishaps) ==> (code.None? <==> ForwardClear())
      ensures code.None? ==>
        && !infraredBlocked && infraredValid && infraredObservedMs.Some? && lastPollMs.Some?
        && 0 <= lastPollMs.value - infraredObservedMs.value <= infraredFreshnessMs
      ensures mishaps == old(mishaps) ==>
        lastPollMs == Some(clockMs) && (old(lastPollMs).Some? ==> clockMs >= old(lastPollMs).value)
      ensures code.Some? && mishaps == old(mishaps) ==> code.value == InfraredNotFresh || code.value == InfraredObstacle
    {
      var now := CheckedNow();
      if now.None? {
        return Some(ClockRollback);
      }
      if infraredObservedMs.None? || !(0 <= now.value - infraredObservedMs.value <= infraredFreshnessMs) || !infraredValid {
        return Some(InfraredNotFresh);
      }
      if infraredBlocked {
        return Some(InfraredObstacle);
      }
      return None;
    }

    method CheckIdleMotors() returns (code: Option<Code>)
      modifies `clockMs, `seen, `mishaps
      ensures mishaps == old(mishaps) + if code.None? then 0 else 1
      ensures seen == old(seen).(idle := old(seen).idle + if code.None? then 1 else 0)
    {
      code := *;
      clockMs := *;
      mishaps := mishaps + if code.None? then 0 else 1;
      seen := seen.(idle := seen.idle + if code.None? then 1 else 0);
    }

    // --------------------------------------------------------------- faults

    method InvalidateSession()
      modifies `sessionId, `lastSequence, `lastHeartbeatMs, `lastHeartbeatSequence, `claimedAtMs, `seenCommands
      ensures sessionId.None? && lastSequence == 0 && lastHeartbeatMs.None? && lastHeartbeatSequence.None?
      ensures claimedAtMs.None? && seenCommands == {}
    {
      sessionId, lastSequence, lastHeartbeatMs, lastHeartbeatSequence := None, 0, None, None;
      claimedAtMs, seenCommands := None, {};
    }

    /** A fault while faulted only stops again. */
    method RetryFaultStop()
      requires (owner.closed ==> owner.active.None?) && fault.Some?
      modifies `fault, owner`active, owner`moving, owner`tally
      ensures owner.active.None? && (owner.moving ==> old(owner.moving))
      ensures fault.Some? && fault.value.code == old(fault.value.code)
      ensures fault.value.secondary == old(fault.value.secondary)
      ensures ProvesStop(fault.value.stop) ==> !owner.moving
      ensures owner.tally.stops == old(owner.tally.stops) + if owner.closed then 0 else 1
    {
      var finish := owner.FinishActive(false);
      fault := Some(fault.value.(stop := if finish.Finished? then finish.stop else FAILED_STOP));
    }

    method EnterFault(code: Code, stop: Option<StopResult>, emit: bool)
      requires Open() && (stop.Some? ==> owner.active.None? && (ProvesStop(stop.value) ==> !owner.moving))
      modifies `state, `fault, `sessionId, `lastSequence, `lastHeartbeatMs, `lastHeartbeatSequence, `claimedAtMs
      modifies `seenCommands, `activeCommand, owner`active, owner`moving, owner`tally
      ensures Valid() && Faulted(Snapshot())
      ensures owner.moving ==> old(owner.moving)
      ensures if old(state) == FaultLatched
        then fault.value.code == old(fault.value.code) && fault.value.secondary == old(fault.value.secondary)
        else fault.value.code == code && !fault.value.secondary
      ensures owner.tally.stops >= old(owner.tally.stops)
      ensures stop.None? && !owner.closed ==> owner.tally.stops > old(owner.tally.stops)
    {
      if state == FaultLatched {
        RetryFaultStop();
        return;
      }
      var stopped := stop;
      if stopped.None? {
        var finish := owner.FinishActive(false);
        stopped := Some(if finish.Finished? then finish.stop else FAILED_STOP);
      }
      LatchFault(code, stopped.value, emit);
    }

    /** Drop all authority and latch; a failing audit sink stops once more. */
    method LatchFault(code: Code, stop: StopResult, emit: bool)
      requires !closed && state != FaultLatched && owner.active.None? && (ProvesStop(stop) ==> !owner.moving)
      requires owner.closed ==> !owner.moving
      modifies `state, `fault, `sessionId, `lastSequence, `lastHeartbeatMs, `lastHeartbeatSequence, `claimedAtMs
      modifies `seenCommands, `activeCommand, owner`active, owner`moving, owner`tally
      ensures Valid() && Faulted(Snapshot())
      ensures owner.moving ==> old(owner.moving)
      ensures fault.value.code == code && !fault.value.secondary
      ensures owner.tally.stops >= old(owner.tally.stops)
    {
      activeCommand := None;
      InvalidateSession();
      fault := Some(Fault(code, stop, false));
      state := FaultLatched;
      var recorded: bool := *;
      if emit && !recorded {
        RetryFaultStop();
      }
    }

    /** Append one audit event; a failing sink is itself a fault. */
    method Audit() returns (r: Outcome)
      requires Valid() && !closed
      modifies `state, `fault, `sessionId, `lastSequence, `lastHeartbeatMs, `lastHeartbeatSequence, `claimedAtMs
      modifies `seenCommands, `activeCommand, `mishaps, owner`active, owner`moving, owner`tally
      ensures Valid()
      ensures r.Done? ==> unchanged(this) && unchanged(owner)
      ensures r.Raised? ==> Faulted(Snapshot()) && (owner.moving ==> old(owner.moving))
      ensures r.Raised? ==> mishaps == old(mishaps) + 1
      ensures owner.tally.stops >= old(owner.tally.stops)
    {
      var recorded: bool := *;
      mishaps := mishaps + if recorded then 0 else 1;
      if recorded {
        return Done;
      }
      EnterFault(AuditFailure, None, false);
      return Raised;
    }

    /** Stop with one retry when the first stop is interrupted. */
    method FinishWithRetry() returns (stop: StopResult, interrupted: bool)
      requires owner.closed ==> owner.active.None?
      modifies `mishaps, owner`active, owner`moving, owner`tally
      ensures owner.active.None? && (owner.moving ==> old(owner.moving))
      ensures stop.Verified() ==> !interrupted && !owner.moving
      ensures mishaps == old(mishaps) + if !interrupted && stop.Verified() then 0 else 1
      ensures stop.Verified() ==> !stop.faultTokens
      ensures !owner.closed ==> owner.tally.stops > old(owner.tally.stops)
      ensures owner.tally.stops >= old(owner.tally.stops)
    {
      var first := owner.FinishActive(false);
      mishaps := mishaps + if first.Finished? && first.stop.Verified() then 0 else 1;
      if first.Finished? {
        return first.stop, false;
      }
      var retry := owner.FinishActive(false);
      return Combine(Some(FAILED_STOP), if retry.Finished? then retry.stop else FAILED_STOP), true;
    }

    // --------------------------------------------------------------- polling

    /** What a poll that leaves everything as it is has just checked. */
    ghost predicate PollPassed()
      reads this, owner
    {
      && (!state.Ended() ==> lastPollMs == Some(clockMs))
      && (state == ArmedIdle || state == Running ==>
            && lastPollMs.Some? && lastHeartbeatMs.Some?
            && 0 <= lastPollMs.value - lastHeartbeatMs.value < heartbeatTimeoutMs && touchValue == Some(0))
      && (owner.active.Some? ==>
            && (owner.active.value.forward ==> !infraredBlocked)
            && lastPollMs.Some? && lastPollMs.value < owner.active.value.deadlineMs)
      && (state == Disarmed && lastHeartbeatMs.Some? ==>
            lastPollMs.Some? && lastPollMs.value - lastHeartbeatMs.value < heartbeatTimeoutMs)
      && (state == Disarmed && lastHeartbeatMs.None? && claimedAtMs.Some? ==>
            lastPollMs.Some? && lastPollMs.value - claimedAtMs.value < heartbeatTimeoutMs)
    }

    /** An unarmed lease runs from its last heartbeat, or else from its claim. */
    predicate LeaseExpired(now: int)
      reads `lastHeartbeatMs, `claimedAtMs
    {
      var reference := if lastHeartbeatMs.Some? then lastHeartbeatMs else claimedAtMs;
      reference.Some? && now - reference.value >= heartbeatTimeoutMs
    }

    /** A lease expires at some later time exactly when its claim returned or one
        heartbeat was accepted. */
    lemma LeaseExpiresExactly(t: int)
      ensures (exists now :: t <= now && LeaseExpired(now)) <==> claimedAtMs.Some? || lastHeartbeatMs.Some?
    {
      if claimedAtMs.Some? || lastHeartbeatMs.Some? {
        var reference := if lastHeartbeatMs.Some? then lastHeartbeatMs else claimedAtMs;
        assert LeaseExpired(Max(t, reference.value + heartbeatTimeoutMs));
      }
    }

    method StopForwardForInfrared() returns (r: Outcome)
      requires Valid() && state == Running
      modifies `state, `fault, `sessionId, `lastSequence, `lastHeartbeatMs, `lastHeartbeatSequence, `claimedAtMs
      modifies `seenCommands, `activeCommand, `mishaps, `clockMs, `lastPollMs, owner`active, owner`moving, owner`tally
      ensures Valid()
      ensures r.Done? ==> Faulted(Snapshot()) || Snapshot() == old(Snapshot()).(state := ArmedIdle, command := None)
      ensures r.Raised? ==> Faulted(Snapshot()) || Snapshot() == old(Snapshot())
      ensures mishaps >= old(mishaps)
      ensures mishaps == old(mishaps) ==> r.Done? && state == ArmedIdle
      ensures state != FaultLatched ==> lastHeartbeatMs == old(lastHeartbeatMs) && claimedAtMs == old(claimedAtMs)
      ensures owner.tally.stops >= old(owner.tally.stops) && (r.Done? && !owner.closed ==> owner.tally.stops > old(owner.tally.stops))
    {
      var now := CheckedNow();
      if now.None? {
        return Raised;
      }
      var stop, interrupted := FinishWithRetry();
      activeCommand := None;
      if !interrupted && stop.Verified() && !stop.faultTokens {
        state := ArmedIdle;
        r := Audit();
        return;
      }
      EnterFault(StopFailed, Some(stop), true);
      return Done;
    }

    /** `None` means a check failed with the returned code. Encoder direction,
        stall and early-stop checks are part of the free motor outcome. */
    method CheckRunningMotion(touchAlreadyRead: bool) returns (code: Option<Code>, now: int)
      modifies `clockMs, `lastPollMs, `touchValue, `touchReleasedSamples, `seen, `mishaps
      ensures touchAlreadyRead ==> seen == old(seen)
      ensures mishaps >= old(mishaps)
      ensures mishaps == old(mishaps) ==>
        && (touchAlreadyRead || touchValue == Some(0) || touchValue == Some(1))
        && (code.None? <==> touchValue != Some(1) && FreshBy(lastHeartbeatMs))
      ensures code.None? ==> lastPollMs == Some(now) && touchValue != Some(1)
      ensures code.None? ==> lastHeartbeatMs.Some? && 0 <= now - lastHeartbeatMs.value < heartbeatTimeoutMs
      ensures touchAlreadyRead ==> touchValue == old(touchValue)
      ensures code.None? ==> lastPollMs == Some(clockMs)
    {
      now := 0;
      if !touchAlreadyRead {
        code := ReadTouch();
        if code.Some? {
          return;
        }
      }
      var read: Option<Code>, motors: Option<Code> := *, *;
      clockMs := *;
      mishaps := mishaps + if read.None? && motors.None? then 0 else 1;
      if read.Some? {
        return read, now;
      }
      var checked := CheckedNow();
      if checked.None? {
        return Some(ClockRollback), now;
      }
      now := checked.value;
      if touchValue == Some(1) {
        return Some(TouchPressed), now;
      }
      if !HeartbeatFresh(now) {
        return Some(HeartbeatTimeout), now;
      }
      return motors, now;
    }

    /** The poll of a running motion; `Some` is the code it raised. */
    method PollRunning() returns (code: Option<Code>)
      requires Valid() && state == Running && TouchRead()
      modifies `state, `fault, `sessionId, `lastSequence, `lastHeartbeatMs, `lastHeartbeatSequence, `claimedAtMs
      modifies `seenCommands, `activeCommand, `mishaps, `clockMs, `lastPollMs, `touchValue, `touchReleasedSamples, `seen
      modifies owner`active, owner`moving, owner`tally
      ensures seen == old(seen)
      ensures Valid() && Polled(old(Snapshot()), Snapshot())
      ensures code.Some? ==> Faulted(Snapshot()) || Snapshot() == old(Snapshot())
      ensures code.None? && Snapshot() == old(Snapshot()) ==> PollPassed()
      ensures Snapshot() == old(Snapshot()) ==> claimedAtMs == old(claimedAtMs) && lastHeartbeatMs == old(lastHeartbeatMs)
      ensures mishaps >= old(mishaps)
      ensures mishaps == old(mishaps) ==>
        var motion, alive := old(owner.active).value, touchValue == Some(0) && FreshBy(old(lastHeartbeatMs));
        var blocked := motion.forward && infraredBlocked;
        && (code.Some? <==> !blocked && !alive)
        && (code.Some? ==> Snapshot() == old(Snapshot()))
        && (code.None? ==> (state == ArmedIdle <==> blocked || lastPollMs.value >= motion.deadlineMs))
        && state != FaultLatched
      ensures owner.tally.stops >= old(owner.tally.stops)
    {
      if owner.active.value.forward && infraredBlocked {
        var stopped := StopForwardForInfrared();
        return if stopped.Done? then None else Some(OtherCode);
      }
      var now: int;
      code, now := CheckRunningMotion(true);
      if code.Some? {
        return;
      }
      if now < owner.active.value.deadlineMs {
        return None;
      }
      code := CompleteMotion();
    }

    /** The local deadline passed: stop, verify the travel, return to ARMED_IDLE. */
    method CompleteMotion() returns (code: Option<Code>)
      requires Valid() && state == Running
      modifies `state, `fault, `sessionId, `lastSequence, `lastHeartbeatMs, `lastHeartbeatSequence, `claimedAtMs
      modifies `seenCommands, `activeCommand, `mishaps, owner`active, owner`moving, owner`tally
      ensures Valid()
      ensures Faulted(Snapshot()) || (code.None? && Snapshot() == old(Snapshot()).(state := ArmedIdle, command := None))
      ensures mishaps >= old(mishaps) && (mishaps == old(mishaps) ==> code.None? && state == ArmedIdle)
      ensures state != FaultLatched ==> lastHeartbeatMs == old(lastHeartbeatMs) && claimedAtMs == old(claimedAtMs)
      ensures !owner.closed ==> owner.tally.stops > old(owner.tally.stops)
      ensures state == ArmedIdle ==> owner.tally.travels > old(owner.tally.travels)
    {
      var finish := owner.FinishActive(true);
      mishaps := mishaps + if finish.Finished? && finish.stop.Verified() && finish.travelVerified then 0 else 1;
      if finish.Interrupted? {
        EnterFault(OtherCode, Some(FAILED_STOP), true);
        return None;
      }
      if !finish.stop.Verified() || !finish.travelVerified {
        EnterFault(OtherCode, Some(finish.stop), true);
        return None;
      }
      activeCommand := None;
      state := ArmedIdle;
      var audited := Audit();
      return if audited.Done? then None else Some(AuditFailure);
    }

    /** The poll while disarmed or armed and idle. */
    method PollIdle() returns (code: Option<Code>)
      requires Valid() && state.Idle() && TouchRead()
      modifies `state, `fault, `sessionId, `lastSequence, `lastHeartbeatMs, `lastHeartbeatSequence, `claimedAtMs
      modifies `seenCommands, `activeCommand, `mishaps, `clockMs, `lastPollMs, `seen
      modifies owner`active, owner`moving, owner`tally
      ensures seen == old(seen).(idle := seen.idle) && seen.idle >= old(seen).idle
      ensures code.None? ==> seen.idle > old(seen).idle
      ensures Valid() && Polled(old(Snapshot()), Snapshot())
      ensures code.Some? ==> Faulted(Snapshot()) || Snapshot() == old(Snapshot())
      ensures code.None? && Snapshot() == old(Snapshot()) ==> PollPassed()
      ensures old(state) == Disarmed && old(sessionId).Some? && Unclaimed(Snapshot()) ==>
        && lastPollMs.Some? && (old(lastHeartbeatMs).Some? || old(claimedAtMs).Some?)
        && lastPollMs.value - (if old(lastHeartbeatMs).Some? then old(lastHeartbeatMs) else old(claimedAtMs)).value
           >= heartbeatTimeoutMs
      ensures Snapshot() == old(Snapshot()) ==> claimedAtMs == old(claimedAtMs) && lastHeartbeatMs == old(lastHeartbeatMs)
      ensures mishaps >= old(mishaps)
      ensures mishaps == old(mishaps) ==>
        && (code.Some? <==> old(state) == ArmedIdle && (touchValue != Some(0) || !FreshBy(old(lastHeartbeatMs))))
        && state != FaultLatched
        && (old(sessionId).Some? && Unclaimed(Snapshot()) <==>
              old(state) == Disarmed && old(sessionId).Some? && OverBy(old(lastHeartbeatMs), old(claimedAtMs)))
      ensures owner.tally.stops >= old(owner.tally.stops)
    {
      code := CheckIdleMotors();
      if code.Some? {
        return;
      }
      var now := CheckedNow();
      if now.None? {
        return Some(ClockRollback);
      }
      if state == ArmedIdle && touchValue == Some(1) {
        return Some(TouchPressed);
      }
      if state == ArmedIdle && !HeartbeatFresh(now.value) {
        return Some(HeartbeatTimeout);
      }
      if state == Disarmed && sessionId.Some? && LeaseExpired(now.value) {
        InvalidateSession();
        var audited := Audit();
        return if audited.Done? then None else Some(AuditFailure);
      }
      return None;
    }

    /** One safety poll. Only a closed supervisor raises. */
    method PollOnce() returns (r: Outcome)
      requires Valid()
      modifies `state, `fault, `sessionId, `lastSequence, `lastHeartbeatMs, `lastHeartbeatSequence, `claimedAtMs
      modifies `seenCommands, `activeCommand, `clockMs, `lastPollMs, `touchValue, `touchReleasedSamples
      modifies `infraredBlocked, `infraredObservedMs, `infraredValid, `seen, `mishaps, `polls
      modifies owner`active, owner`moving, owner`tally
      ensures polls == old(polls) + (if r.Done? then 1 else 0)
      ensures r.Done? && state != FaultLatched ==> seen.touch > old(seen).touch && seen.infrared > old(seen).infrared
      ensures r.Done? && state != FaultLatched && old(state) != Running ==> seen.idle > old(seen).idle
      ensures seen.touch >= old(seen).touch && seen.infrared >= old(seen).infrared && seen.idle >= old(seen).idle
      ensures Valid() && Polled(old(Snapshot()), Snapshot())
      ensures r.Done? && Snapshot() == old(Snapshot()) ==> PollPassed()
      ensures old(closed) <==> r.Raised?
      ensures old(state) == FaultLatched ==> fault.value.code == old(fault.value.code)
      ensures old(state) == Disarmed && old(sessionId).Some? && Unclaimed(Snapshot()) ==>
        && lastPollMs.Some? && (old(lastHeartbeatMs).Some? || old(claimedAtMs).Some?)
        && lastPollMs.value - (if old(lastHeartbeatMs).Some? then old(lastHeartbeatMs) else old(claimedAtMs)).value
           >= heartbeatTimeoutMs
      ensures Snapshot() == old(Snapshot()) ==> claimedAtMs == old(claimedAtMs) && lastHeartbeatMs == old(lastHeartbeatMs)
      ensures (old(state) == ArmedIdle || old(state) == Running) && old(lastHeartbeatMs).Some? && lastPollMs.Some? ==>
        lastPollMs.value >= old(lastHeartbeatMs).value + heartbeatTimeoutMs ==> Snapshot() != old(Snapshot())
      ensures mishaps >= old(mishaps)
      ensures mishaps == old(mishaps) && old(state) == ArmedIdle ==>
        (state == FaultLatched <==> touchValue != Some(0) || !FreshBy(old(lastHeartbeatMs)))
      ensures mishaps == old(mishaps) && old(state) == Running ==>
        var motion, alive := old(owner.active).value, touchValue == Some(0) && FreshBy(old(lastHeartbeatMs));
        var blocked := motion.forward && infraredBlocked;
        && (state == FaultLatched <==> !blocked && !alive)
        && (state == ArmedIdle <==> blocked || (alive && lastPollMs.value >= motion.deadlineMs))
      ensures mishaps == old(mishaps) && old(state) == Disarmed ==>
        && state == Disarmed
        && (old(sessionId).Some? && Unclaimed(Snapshot()) <==>
              old(sessionId).Some? && OverBy(old(lastHeartbeatMs), old(claimedAtMs)))
      ensures owner.tally.stops >= old(owner.tally.stops)
      ensures old(state) == FaultLatched && !owner.closed ==> owner.tally.stops > old(owner.tally.stops)
    {
      if closed {
        return Raised;
      }
      polls := polls + 1;
      if state == FaultLatched {
        PollFaulted();
        return Done;
      }
      var code := PollChecks();
      if code.Some? {
        EnterFault(code.value, None, true);
      }
      return Done;
    }

    method PollChecks() returns (code: Option<Code>)
      requires Valid() && state.Live()
      modifies `state, `fault, `sessionId, `lastSequence, `lastHeartbeatMs, `lastHeartbeatSequence, `claimedAtMs
      modifies `seenCommands, `activeCommand, `clockMs, `lastPollMs, `touchValue, `touchReleasedSamples
      modifies `infraredBlocked, `infraredObservedMs, `infraredValid, `seen, `mishaps
      modifies owner`active, owner`moving, owner`tally
      ensures code.None? ==> seen.touch > old(seen).touch && seen.infrared > old(seen).infrared
      ensures code.None? && old(state) != Running ==> seen.idle > old(seen).idle
      ensures seen.touch >= old(seen).touch && seen.infrared >= old(seen).infrared && seen.idle >= old(seen).idle
      ensures Valid() && Polled(old(Snapshot()), Snapshot())
      ensures code.Some? ==> Faulted(Snapshot()) || Snapshot() == old(Snapshot())
      ensures code.None? && Snapshot() == old(Snapshot()) ==> PollPassed()
      ensures old(state) == Disarmed && old(sessionId).Some? && Unclaimed(Snapshot()) ==>
        && lastPollMs.Some? && (old(lastHeartbeatMs).Some? || old(claimedAtMs).Some?)
        && lastPollMs.value - (if old(lastHeartbeatMs).Some? then old(lastHeartbeatMs) else old(claimedAtMs)).value
           >= heartbeatTimeoutMs
      ensures Snapshot() == old(Snapshot()) ==> claimedAtMs == old(claimedAtMs) && lastHeartbeatMs == old(lastHeartbeatMs)
      ensures mishaps >= old(mishaps)
      ensures mishaps == old(mishaps) && old(state) == ArmedIdle ==>
        (code.Some? <==> touchValue != Some(0) || !FreshBy(old(lastHeartbeatMs)))
      ensures mishaps == old(mishaps) && old(state) == Running ==>
        var motion, alive := old(owner.active).value, touchValue == Some(0) && FreshBy(old(lastHeartbeatMs));
        var blocked := motion.forward && infraredBlocked;
        && (code.Some? <==> !blocked && !alive)
        && (state == ArmedIdle <==> blocked || (alive && lastPollMs.value >= motion.deadlineMs))
      ensures mishaps == old(mishaps) && old(state) == Disarmed ==>
        && state == Disarmed && code.None?
        && (old(sessionId).Some? && Unclaimed(Snapshot()) <==>
              old(sessionId).Some? && OverBy(old(lastHeartbeatMs), old(claimedAtMs)))
      ensures mishaps == old(mishaps) ==> state != FaultLatched && (code.Some? ==> Snapshot() == old(Snapshot()))
      ensures owner.tally.stops >= old(owner.tally.stops)
    {
      code := PollReadings();
      if code.Some? {
        return;
      }
      if state == Running {
        code := PollRunning();
      } else {
        code := PollIdle();
      }
    }

    /** The readings every poll begins with. */
    method PollReadings() returns (code: Option<Code>)
      modifies `clockMs, `lastPollMs, `touchValue, `touchReleasedSamples
      modifies `infraredBlocked, `infraredObservedMs, `infraredValid, `seen, `mishaps
      ensures code.None? ==> touchValue == Some(0) || touchValue == Some(1)
      ensures code.None? ==> seen == Seen(old(seen).touch + 1, old(seen).infrared + 1, old(seen).idle)
      ensures seen.touch >= old(seen).touch && seen.infrared >= old(seen).infrared && seen.idle == old(seen).idle
      ensures mishaps >= old(mishaps) && (code.None? <==> mishaps == old(mishaps))
      ensures code.None? ==> lastPollMs == Some(clockMs)
    {
      var now := CheckedNow();
      if now.None? {
        return Some(ClockRollback);
      }
      code := ReadTouch();
      if code.Some? {
        return;
      }
      code := ReadInfrared();
      if code.Some? {
        return;
      }
      now := CheckedNow();
      return if now.None? then Some(ClockRollback) else None;
    }

    /** A latched fault is stopped again on every poll. */
    method PollFaulted()
      requires Valid() && state == FaultLatched
      modifies `fault, `clockMs, `lastPollMs, `touchValue, `touchReleasedSamples
      modifies `infraredBlocked, `infraredObservedMs, `infraredValid, `seen, `mishaps
      modifies owner`active, owner`moving, owner`tally
      ensures Valid() && fault.value.code == old(fault.value.code)
      ensures fault.value.secondary || fault.value.secondary == old(fault.value.secondary)
      ensures !fault.value.secondary ==> seen.touch > old(seen).touch && seen.infrared > old(seen).infrared
      ensures seen.touch >= old(seen).touch && seen.infrared >= old(seen).infrared && seen.idle >= old(seen).idle
      ensures mishaps >= old(mishaps)
      ensures mishaps == old(mishaps) ==> fault.value.secondary == old(fault.value.secondary)
      ensures owner.tally.stops >= old(owner.tally.stops) && (!owner.closed ==> owner.tally.stops > old(owner.tally.stops))
    {
      var before := CheckedNow();
      RetryFaultStop();
      var failed := SecondaryReads();
      if before.None? || failed {
        fault := Some(fault.value.(secondary := true));
      }
    }

    method SecondaryReads() returns (failed: bool)
      modifies `clockMs, `lastPollMs, `touchValue, `touchReleasedSamples
      modifies `infraredBlocked, `infraredObservedMs, `infraredValid, `seen, `mishaps
      ensures !failed ==> seen.touch > old(seen).touch && seen.infrared > old(seen).infrared
      ensures seen.touch >= old(seen).touch && seen.infrared >= old(seen).infrared && seen.idle >= old(seen).idle
      ensures mishaps >= old(mishaps) && (failed <==> mishaps > old(mishaps))
    {
      var code := ReadTouch();
      if code.None? {
        code := ReadInfrared();
        if code.None? {
          var after := CheckedNow();
          return after.None?;
        }
      }
      return true;
    }

    // --------------------------------------------------------- public calls

    /** Start-up stops every motor first; anything unverified latches a fault. */
    constructor (heartbeatTimeoutMs: nat, touchReleaseSamples: nat, maximumCommands: nat, infraredFreshnessMs: nat,
                 maximumStartSkewMs: nat)
      ensures Valid() && fresh(owner)
      ensures Unclaimed(Snapshot()) || Faulted(Snapshot())
      ensures mishaps == 0 ==> Unclaimed(Snapshot())
      ensures this.heartbeatTimeoutMs == heartbeatTimeoutMs && this.touchReleaseSamples == touchReleaseSamples
      ensures this.maximumCommands == maximumCommands && this.infraredFreshnessMs == infraredFreshnessMs
      ensures this.maximumStartSkewMs == maximumStartSkewMs
      ensures infraredBlocked && !infraredValid && touchValue.None? && touchReleasedSamples == 0 && lastPollMs.None?
    {
      this.heartbeatTimeoutMs, this.touchReleaseSamples := heartbeatTimeoutMs, touchReleaseSamples;
      this.maximumCommands, this.infraredFreshnessMs := maximumCommands, infraredFreshnessMs;
      this.maximumStartSkewMs := maximumStartSkewMs;
      owner := new SupervisorMotorOwner();
      state, fault, sessionId, activeCommand, closed := Booting, None, None, None, false;
      lastSequence, lastHeartbeatMs, lastHeartbeatSequence, claimedAtMs, seenCommands := 0, None, None, None, {};
      lastPollMs, touchValue, touchReleasedSamples := None, None, 0;
      infraredBlocked, infraredObservedMs, infraredValid, mishaps := true, None, false, 0;
      new;
      StartUp();
    }

    /** The first stop and the inventory decide between disarmed and faulted. */
    method StartUp()
      requires state == Booting && Bare(Snapshot()) && lastHeartbeatMs.None? && claimedAtMs.None? && fault.None?
      requires !closed && !owner.closed && owner.active.None?
      modifies `state, `fault, `sessionId, `lastSequence, `lastHeartbeatMs, `lastHeartbeatSequence, `claimedAtMs
      modifies `seenCommands, `activeCommand, `mishaps, owner`active, owner`moving, owner`tally
      ensures Valid() && owner.tally.stops > old(owner.tally.stops)
      ensures Unclaimed(Snapshot()) || Faulted(Snapshot())
      ensures mishaps == old(mishaps) ==> Unclaimed(Snapshot())
    {
      var stop := owner.StopAllVerified();
      var inventoried: bool := *;
      mishaps := mishaps + if stop.Verified() && inventoried then 0 else 1;
      if !stop.Verified() || !inventoried {
        EnterFault(OtherCode, Some(stop), false);
      } else {
        state := Disarmed;
      }
      var audited := Audit();
    }

    /** A claim opens a session; a clock fault leaves it without a lease time. */
    method Claim(session: int) returns (r: Outcome)
      requires Valid()
      modifies `state, `fault, `sessionId, `lastSequence, `lastHeartbeatMs, `lastHeartbeatSequence, `claimedAtMs
      modifies `seenCommands, `activeCommand, `mishaps, `clockMs, `lastPollMs, owner`active, owner`moving, owner`tally
      ensures Valid() && Allowed(Op.Claim, old(Snapshot()), Snapshot())
      ensures r.Done? ==> sessionId == Some(session) && claimedAtMs.Some? && claimedAtMs == lastPollMs
      ensures r.Raised? && old(state) == Disarmed && old(sessionId).None? && state != FaultLatched ==>
        && sessionId == Some(session) && claimedAtMs.None? && lastHeartbeatMs.None?
        && lastPollMs.Some? && clockMs < lastPollMs.value
      ensures mishaps >= old(mishaps)
      ensures mishaps == old(mishaps) ==> (r.Done? <==> old(state) == Disarmed && old(sessionId).None?)
    {
      if state != Disarmed || sessionId.Some? {
        return Raised;
      }
      sessionId := Some(session);
      lastSequence, lastHeartbeatMs, lastHeartbeatSequence, seenCommands := 0, None, None, {};
      claimedAtMs := CheckedNow();
      if claimedAtMs.None? {
        return Raised;
      }
      r := Audit();
    }

    /** `nowMs` is the clock reading taken when the heartbeat is accepted. */
    method Heartbeat(session: int, sequence: int, nowMs: int) returns (r: Outcome)
      requires Valid()
      modifies `state, `fault, `sessionId, `lastSequence, `lastHeartbeatMs, `lastHeartbeatSequence, `claimedAtMs
      modifies `seenCommands, `activeCommand, `mishaps, owner`active, owner`moving, owner`tally
      ensures Valid() && Allowed(Op.Heartbeat(session, sequence), old(Snapshot()), Snapshot())
      ensures r.Done? ==>
        sessionId == Some(session) && lastHeartbeatSequence == Some(sequence) && lastHeartbeatMs == Some(nowMs)
      ensures Snapshot() == old(Snapshot()) ==> lastHeartbeatMs == old(lastHeartbeatMs)
      ensures mishaps >= old(mishaps)
      ensures mishaps == old(mishaps) ==>
        (r.Done? <==> old(state).Live() && old(sessionId) == Some(session) && sequence > old(lastSequence))
    {
      if !state.Live() || sessionId != Some(session) || sequence <= lastSequence {
        return Raised;
      }
      lastSequence := sequence;
      lastHeartbeatMs, lastHeartbeatSequence := Some(nowMs), Some(sequence);
      r := Audit();
    }

    /** Topology is checked again before arming and before every drive. */
    method Revalidate() returns (r: Outcome)
      requires Valid() && state.Idle()
      modifies `state, `fault, `sessionId, `lastSequence, `lastHeartbeatMs, `lastHeartbeatSequence, `claimedAtMs
      modifies `seenCommands, `activeCommand, `mishaps, owner`active, owner`moving, owner`tally
      ensures Valid()
      ensures r.Done? ==> Snapshot() == old(Snapshot())
      ensures r.Raised? ==> Faulted(Snapshot())
      ensures mishaps == old(mishaps) + if r.Done? then 0 else 1
      ensures r.Done? ==> lastHeartbeatMs == old(lastHeartbeatMs) && claimedAtMs == old(claimedAtMs)
    {
      var same: bool := *;
      mishaps := mishaps + if same then 0 else 1;
      if same {
        return Done;
      }
      EnterFault(HardwareTopologyChanged, None, true);
      return Raised;
    }

    /** The checks between the poll and the arming itself. */
    method ArmingChecks() returns (passed: bool)
      modifies `clockMs, `lastPollMs, `seen, `mishaps
      ensures passed ==>
        && lastPollMs.Some? && lastHeartbeatMs.Some?
        && 0 <= lastPollMs.value - lastHeartbeatMs.value < heartbeatTimeoutMs
        && touchValue == Some(0) && touchReleasedSamples >= touchReleaseSamples
      ensures seen.touch == old(seen).touch && seen.infrared == old(seen).infrared
      ensures passed ==> seen.idle == old(seen).idle + 1
      ensures mishaps >= old(mishaps)
      ensures touchValue == Some(0) && touchReleasedSamples >= touchReleaseSamples && FreshBy(lastHeartbeatMs) ==>
        mishaps == old(mishaps) ==> passed
      ensures old(lastPollMs).Some? ==> lastPollMs.Some? && lastPollMs.value >= old(lastPollMs).value
      ensures passed ==> lastPollMs == Some(clockMs)
    {
      var now := CheckedNow();
      if now.None? || !HeartbeatFresh(now.value) || touchValue != Some(0) || touchReleasedSamples < touchReleaseSamples {
        return false;
      }
      var idle := CheckIdleMotors();
      if idle.Some? {
        return false;
      }
      now := CheckedNow();
      return now.Some? && HeartbeatFresh(now.value);
    }

    /** Everything checked before arming. The poll inside may expire the lease; then
        the heartbeat check refuses. */
    method AdmitArm(session: int, sequence: int) returns (admitted: bool)
      requires Valid()
      modifies `state, `fault, `sessionId, `lastSequence, `lastHeartbeatMs, `lastHeartbeatSequence, `claimedAtMs
      modifies `seenCommands, `activeCommand, `clockMs, `lastPollMs, `touchValue, `touchReleasedSamples
      modifies `infraredBlocked, `infraredObservedMs, `infraredValid, `seen, `mishaps, `polls
      modifies owner`active, owner`moving, owner`tally
      ensures polls >= old(polls)
      ensures Valid()
      ensures admitted ==> Snapshot() == old(Snapshot()) && state == Disarmed
      ensures admitted ==> Presents(Op.Arm(session, sequence), Snapshot())
      ensures admitted ==>
        && lastPollMs.Some? && lastHeartbeatMs.Some?
        && 0 <= lastPollMs.value - lastHeartbeatMs.value < heartbeatTimeoutMs
        && touchValue == Some(0) && touchReleasedSamples >= touchReleaseSamples
      ensures admitted ==>
        seen.touch > old(seen).touch && seen.infrared > old(seen).infrared && seen.idle >= old(seen).idle + 2
      ensures !admitted ==> Allowed(Op.Arm(session, sequence), old(Snapshot()), Snapshot())
      ensures !admitted ==> state != ArmedIdle || old(state) == ArmedIdle
      ensures mishaps >= old(mishaps)
      ensures old(state) == Disarmed && old(sessionId) == Some(session) && sequence > old(lastSequence) ==>
        mishaps == old(mishaps) && touchValue == Some(0) && touchReleasedSamples >= touchReleaseSamples ==>
          FreshBy(old(lastHeartbeatMs)) ==> admitted
      ensures admitted ==> lastPollMs == Some(clockMs)
    {
      if state != Disarmed || sessionId != Some(session) || sequence <= lastSequence {
        return false;
      }
      var revalidated := Revalidate();
      if revalidated.Raised? {
        return false;
      }
      var polled := PollOnce();
      if state != Disarmed {
        return false;
      }
      admitted := ArmingChecks();
    }

    method Arm(session: int, sequence: int) returns (r: Outcome)
      requires Valid()
      modifies `state, `fault, `sessionId, `lastSequence, `lastHeartbeatMs, `lastHeartbeatSequence, `claimedAtMs
      modifies `seenCommands, `activeCommand, `clockMs, `lastPollMs, `touchValue, `touchReleasedSamples
      modifies `infraredBlocked, `infraredObservedMs, `infraredValid, `seen, `mishaps, `polls
      modifies owner`active, owner`moving, owner`tally
      ensures polls >= old(polls)
      ensures Valid() && Allowed(Op.Arm(session, sequence), old(Snapshot()), Snapshot())
      ensures r.Done? ==>
        && state == ArmedIdle && sessionId == Some(session) && !owner.moving
        && lastPollMs.Some? && lastHeartbeatMs.Some?
        && 0 <= lastPollMs.value - lastHeartbeatMs.value < heartbeatTimeoutMs
        && touchValue == Some(0) && touchReleasedSamples >= touchReleaseSamples
        && seen.touch > old(seen).touch && seen.infrared > old(seen).infrared && seen.idle >= old(seen).idle + 2
      ensures r.Raised? ==> state != ArmedIdle || old(state) == ArmedIdle
      ensures mishaps >= old(mishaps)
      ensures old(state) == Disarmed && old(sessionId) == Some(session) && sequence > old(lastSequence) ==>
        mishaps == old(mishaps) && touchValue == Some(0) && touchReleasedSamples >= touchReleaseSamples ==>
          FreshBy(old(lastHeartbeatMs)) ==> r.Done?
      ensures r.Done? ==> lastPollMs == Some(clockMs)
    {
      var admitted := AdmitArm(session, sequence);
      if !admitted {
        return Raised;
      }
      lastSequence := sequence;
      state := ArmedIdle;
      r := Audit();
    }

    // ---------------------------------------------------------------- drive

    /** Touch is not released, that heartbeat is not fresh, or there is no clear way
        ahead of a forward motion. */
    ghost predicate Hindered(forward: bool, heartbeatMs: Option<int>)
      reads this
    {
      touchValue != Some(0) || !FreshBy(heartbeatMs) || (forward && !ForwardClear())
    }

    /** The last check before each motor's start command. Only the first takes a
        fresh sensor snapshot. */
    method GuardMotorStart(firstMs: Option<int>, forward: bool) returns (code: Option<Code>, ghost checkedMs: int)
      modifies `clockMs, `lastPollMs, `touchValue, `touchReleasedSamples
      modifies `infraredBlocked, `infraredObservedMs, `infraredValid, `seen, `mishaps
      modifies `permitted
      ensures permitted <==> code.None?
      ensures code.None? ==>
        seen == if firstMs.Some? then old(seen) else Seen(old(seen).touch + 1, old(seen).infrared + 1, old(seen).idle + 1)
      ensures code.None? ==> touchValue == Some(0) && (forward ==> !infraredBlocked && infraredValid)
      ensures code.None? ==>
        && lastHeartbeatMs.Some? && 0 <= checkedMs - lastHeartbeatMs.value < heartbeatTimeoutMs
        && (old(lastPollMs).Some? ==> checkedMs >= old(lastPollMs).value)
      ensures mishaps >= old(mishaps)
      ensures code.Some? && mishaps == old(mishaps) ==>
        Hindered(forward, lastHeartbeatMs) || (firstMs.Some? && clockMs - firstMs.value > maximumStartSkewMs)
      ensures code.None? && firstMs.Some? ==> checkedMs - firstMs.value <= maximumStartSkewMs
      ensures code.Some? && mishaps == old(mishaps) && touchValue == Some(0) && FreshBy(lastHeartbeatMs) ==>
        (firstMs.Some? && clockMs - firstMs.value > maximumStartSkewMs) || code == Some(InfraredNotFresh) || code == Some(InfraredObstacle)
    {
      permitted, checkedMs := false, 0;
      if firstMs.None? {
        code := ReadTouch();
        if code.Some? {
          return;
        }
        code := ReadInfrared();
        if code.Some? {
          return;
        }
        code := CheckIdleMotors();
        if code.Some? {
          return;
        }
      }
      code, checkedMs := GuardFresh(firstMs, forward);
      permitted := code.None?;
    }

    method GuardFresh(firstMs: Option<int>, forward: bool) returns (code: Option<Code>, ghost checkedMs: int)
      modifies `clockMs, `lastPollMs, `mishaps
      ensures code.None? ==> touchValue == Some(0) && (forward ==> !infraredBlocked && infraredValid)
      ensures code.None? ==>
        && lastHeartbeatMs.Some? && 0 <= checkedMs - lastHeartbeatMs.value < heartbeatTimeoutMs
        && (old(lastPollMs).Some? ==> checkedMs >= old(lastPollMs).value)
      ensures mishaps >= old(mishaps)
      ensures code.Some? && mishaps == old(mishaps) ==>
        Hindered(forward, lastHeartbeatMs) || (firstMs.Some? && clockMs - firstMs.value > maximumStartSkewMs)
      ensures code.None? && firstMs.Some? ==> checkedMs - firstMs.value <= maximumStartSkewMs
      ensures code.Some? && mishaps == old(mishaps) && touchValue == Some(0) && FreshBy(lastHeartbeatMs) ==>
        (firstMs.Some? && clockMs - firstMs.value > maximumStartSkewMs) || code == Some(InfraredNotFresh) || code == Some(InfraredObstacle)
    {
      checkedMs := 0;
      var now := CheckedNow();
      if now.None? {
        return Some(ClockRollback), checkedMs;
      }
      checkedMs := now.value;
      if touchValue != Some(0) {
        return Some(TouchPressed), checkedMs;
      }
      if !HeartbeatFresh(now.value) {
        return Some(HeartbeatTimeout), checkedMs;
      }
      if forward {
        code := RequireForwardClear();
        if code.Some? {
          return;
        }
      }
      if firstMs.Some? && now.value - firstMs.value > maximumStartSkewMs {
        return Some(OtherCode), checkedMs;
      }
      var guard: Option<Code> := *;
      mishaps := mishaps + if guard.None? then 0 else 1;
      return guard, checkedMs;
    }

    /** Writing takes a while. */
    method WriteStart() returns (written: bool)
      modifies `clockMs, `mishaps, owner`moving
      ensures owner.moving && mishaps == old(mishaps) + if written then 0 else 1
    {
      written := owner.WriteStart();
      mishaps := mishaps + if written then 0 else 1;
      clockMs := *;
    }

    /** Write one motor's start command; only a guard that just passed permits it. The
        second write must begin and end within the start-skew limit of the first. */
    method WriteGuardedStart(firstMs: Option<int>) returns (ok: bool, beginMs: int, endMs: int)
      requires permitted
      modifies `permitted, `clockMs, `starts, `mishaps, owner`moving
      ensures !permitted && starts == old(starts) + if ok then 1 else 0
      ensures ok ==> owner.moving && beginMs <= clockMs
      ensures ok && firstMs.Some? ==> clockMs - firstMs.value <= maximumStartSkewMs
      ensures owner.moving || owner.moving == old(owner.moving)
      ensures mishaps >= old(mishaps)
      ensures ok ==> mishaps == old(mishaps)
      ensures !ok && mishaps == old(mishaps) ==> firstMs.Some? && clockMs - firstMs.value > maximumStartSkewMs
      ensures ok ==> endMs == clockMs
    {
      permitted := false;
      beginMs := Clock();
      endMs := beginMs;
      if firstMs.Some? && beginMs - firstMs.value > maximumStartSkewMs {
        return false, beginMs, endMs;
      }
      var written := WriteStart();
      if !written {
        return false, beginMs, endMs;
      }
      endMs := Clock();
      mishaps := mishaps + if beginMs <= endMs then 0 else 1;
      ok := beginMs <= endMs && (firstMs.Some? ==> endMs - firstMs.value <= maximumStartSkewMs);
      starts := starts + if ok then 1 else 0;
    }

    /** Of the starts since, only one was written in time: the other one came too long
        after it began. */
    ghost predicate LateStart(before: nat)
      reads `starts, `clockMs, `firstStartMs
    {
      starts == before + 1 && clockMs - firstStartMs > maximumStartSkewMs
    }

    /** Start both drive motors. Any failure stops every motor again; the motion
        becomes active only when both start commands were written in time, and its
        deadline counts from the first of them. */
    method StartMotors(forward: bool, durationMs: int) returns (code: Option<Code>, cleanup: Option<StopResult>)
      requires !owner.closed && owner.active.None?
      modifies `clockMs, `lastPollMs, `touchValue, `touchReleasedSamples
      modifies `infraredBlocked, `infraredObservedMs, `infraredValid, `seen, `mishaps
      modifies `permitted, `starts, `firstStartMs, owner`active, owner`moving, owner`tally
      ensures code.None? ==> owner.active.Some?
      ensures owner.active.Some? <==> starts == old(starts) + 2
      ensures owner.active.Some? ==>
        && owner.active.value.forward == forward
        && owner.active.value.deadlineMs == owner.active.value.startedMs + durationMs
        && owner.active.value.windowMs <= maximumStartSkewMs
        && clockMs - owner.active.value.startedMs <= maximumStartSkewMs
        && seen.touch > old(seen).touch && seen.infrared > old(seen).infrared && seen.idle > old(seen).idle
      ensures old(starts) <= starts
      ensures mishaps >= old(mishaps)
      ensures code.Some? && mishaps == old(mishaps) ==> Hindered(forward, lastHeartbeatMs) || LateStart(old(starts))
      ensures code.Some? && mishaps == old(mishaps) && touchValue == Some(0) && FreshBy(lastHeartbeatMs) ==>
        LateStart(old(starts)) || code == Some(InfraredNotFresh) || code == Some(InfraredObstacle)
    {
      var staged: Option<Code> := *;
      mishaps := mishaps + if staged.None? then 0 else 1;
      code := staged;
      var firstMs: Option<int>, endMs := None, 0;
      var i := 0;
      while i < 2 && code.None?
        invariant owner.active.None? && 0 <= i <= 2 && (firstMs.Some? <==> i > 0)
        invariant firstMs.Some? ==> firstMs.value == firstStartMs
        invariant mishaps >= old(mishaps) && (code.None? && i > 0 ==> endMs == clockMs)
        invariant code.Some? && mishaps == old(mishaps) ==>
          Hindered(forward, lastHeartbeatMs) || LateStart(old(starts))
        invariant code.Some? && mishaps == old(mishaps) && touchValue == Some(0) && FreshBy(lastHeartbeatMs) ==>
          LateStart(old(starts)) || code == Some(InfraredNotFresh) || code == Some(InfraredObstacle)
        invariant (code.None? ==> starts == old(starts) + i) && (code.Some? ==> old(starts) <= starts < old(starts) + 2)
        invariant code.None? && i == 0 ==> seen == old(seen)
        invariant code.None? && i > 0 ==>
          seen.touch > old(seen).touch && seen.infrared > old(seen).infrared && seen.idle > old(seen).idle
        invariant code.None? && i == 2 ==> clockMs - firstMs.value <= maximumStartSkewMs
        decreases 2 - i, code.None?
      {
        ghost var checkedMs;
        code, checkedMs := GuardMotorStart(firstMs, forward);
        if code.None? {
          var ok, beginMs;
          ok, beginMs, endMs := WriteGuardedStart(firstMs);
          if !ok {
            code := Some(OtherCode);
          }
          firstMs := if firstMs.None? then Some(beginMs) else firstMs;
          firstStartMs := firstMs.value;
          i := i + 1;
        }
      }
      if code.Some? {
        var interrupted: bool := *;
        if interrupted {
          return code, Some(FAILED_STOP);
        }
        var stop := owner.StopAllVerified();
        return code, Some(stop);
      }
      owner.active := Some(Motion(forward, firstMs.value, endMs - firstMs.value, firstMs.value + durationMs));
      var snapshot: Option<Code> := *;
      mishaps := mishaps + if snapshot.None? then 0 else 1;
      return snapshot, None;
    }

    /** The checks of an accepted command before any motor is touched. */
    method Prestart(forward: bool) returns (code: Option<Code>)
      modifies `clockMs, `lastPollMs, `touchValue, `touchReleasedSamples
      modifies `infraredBlocked, `infraredObservedMs, `infraredValid, `seen, `mishaps
      modifies `permitted
      ensures code.None? ==> touchValue == Some(0) && (forward ==> !infraredBlocked)
      ensures code.None? ==> seen == Seen(old(seen).touch + 1, old(seen).infrared + 1, old(seen).idle + 1)
      ensures mishaps >= old(mishaps)
      ensures code.Some? && mishaps == old(mishaps) ==> Hindered(forward, lastHeartbeatMs)
      ensures code.Some? && mishaps == old(mishaps) && touchValue == Some(0) && FreshBy(lastHeartbeatMs) ==>
        code == Some(InfraredNotFresh) || code == Some(InfraredObstacle)
    {
      ghost var checkedMs;
      code, checkedMs := GuardMotorStart(None, forward);
      permitted := false;
    }

    predicate InfraredCode(code: Code) {
      code == InfraredNotFresh || code == InfraredObstacle
    }

    /** A refused prestart check latches a fault, but an IR refusal only refuses. */
    method AbandonPrestart(code: Code)
      requires Valid() && state == ArmedIdle
      modifies `state, `fault, `sessionId, `lastSequence, `lastHeartbeatMs, `lastHeartbeatSequence, `claimedAtMs
      modifies `seenCommands, `activeCommand, `mishaps, owner`active, owner`moving, owner`tally
      ensures Valid()
      ensures Faulted(Snapshot())
           || ((code == InfraredNotFresh || code == InfraredObstacle) && Snapshot() == old(Snapshot()))
      ensures mishaps >= old(mishaps)
      ensures (code == InfraredNotFresh || code == InfraredObstacle) && mishaps == old(mishaps) ==> state == ArmedIdle
    {
      if InfraredCode(code) {
        var audited := Audit();
      } else {
        EnterFault(code, None, true);
      }
    }

    ghost predicate Sound(stop: Option<StopResult>) {
      stop.Some? ==> !stop.value.errors
    }

    /** Clean up a start that failed. Only an IR refusal behind a verified stop
        leaves the supervisor armed. */
    method AbandonStart(code: Code, cleanup: Option<StopResult>)
      requires !closed && !owner.closed && state == ArmedIdle && Coherent(Snapshot())
      requires (lastHeartbeatMs.Some? <==> lastHeartbeatSequence.Some?) && fault.None?
      requires |seenCommands| <= maximumCommands
      modifies `state, `fault, `sessionId, `lastSequence, `lastHeartbeatMs, `lastHeartbeatSequence, `claimedAtMs
      modifies `seenCommands, `activeCommand, `mishaps, owner`active, owner`moving, owner`tally
      ensures Valid()
      ensures Faulted(Snapshot())
           || ((code == InfraredNotFresh || code == InfraredObstacle) && Snapshot() == old(Snapshot()))
      ensures mishaps >= old(mishaps)
      ensures !owner.closed ==> owner.tally.stops > old(owner.tally.stops)
      ensures (code == InfraredNotFresh || code == InfraredObstacle) && mishaps == old(mishaps) ==> state == ArmedIdle
    {
      var finish := owner.FinishActive(false);
      mishaps := mishaps + if Sound(cleanup) && finish.Finished? && finish.stop.Verified() then 0 else 1;
      var stop := Combine(cleanup, if finish.Finished? then finish.stop else FAILED_STOP);
      if InfraredCode(code) && stop.Verified() && !stop.faultTokens {
        activeCommand := None;
        state := ArmedIdle;
        var audited := Audit();
        return;
      }
      EnterFault(code, Some(stop), true);
    }

    /** The checks right after both motors started. */
    method Poststart(forward: bool) returns (code: Option<Code>)
      requires Valid() && state == Running
      modifies `state, `fault, `sessionId, `lastSequence, `lastHeartbeatMs, `lastHeartbeatSequence, `claimedAtMs
      modifies `seenCommands, `activeCommand, `clockMs, `lastPollMs, `touchValue, `touchReleasedSamples
      modifies `infraredBlocked, `infraredObservedMs, `infraredValid, `seen, `mishaps
      modifies owner`active, owner`moving, owner`tally
      ensures code.None? ==> owner.active == old(owner.active)
      ensures Valid()
      ensures code.None? ==> Snapshot() == old(Snapshot()) && (forward ==> !infraredBlocked) && touchValue == Some(0)
      ensures code.None? ==>
        && lastPollMs.Some? && lastHeartbeatMs.Some?
        && 0 <= lastPollMs.value - lastHeartbeatMs.value < heartbeatTimeoutMs
      ensures code.Some? ==>
        || Faulted(Snapshot())
        || Snapshot() == old(Snapshot())
        || Snapshot() == old(Snapshot()).(state := ArmedIdle, command := None)
      ensures code.Some? && state == ArmedIdle ==> code.value == InfraredNotFresh || code.value == InfraredObstacle
      ensures mishaps >= old(mishaps)
      ensures code.Some? && mishaps == old(mishaps) ==>
        Hindered(forward, old(lastHeartbeatMs)) || old(owner.active).value.windowMs > maximumStartSkewMs
      ensures code.Some? && mishaps == old(mishaps) && touchValue == Some(0) && FreshBy(old(lastHeartbeatMs)) ==>
        old(owner.active).value.windowMs > maximumStartSkewMs || (code == Some(InfraredObstacle) && state == ArmedIdle)
    {
      code := ReadInfrared();
      if code.Some? {
        return;
      }
      if forward && infraredBlocked {
        var stopped := StopForwardForInfrared();
        return Some(if stopped.Done? then InfraredObstacle else OtherCode);
      }
      var now: int;
      code, now := CheckRunningMotion(false);
      if code.Some? {
        return;
      }
      if owner.active.value.windowMs > maximumStartSkewMs {
        return Some(OtherCode);
      }
      if touchValue != Some(0) {
        return Some(TouchPressed);
      }
      var guard: Option<Code> := *;
      mishaps := mishaps + if guard.None? then 0 else 1;
      return guard;
    }

    /** A motion that fails its first checks is stopped, and faulted unless an
        obstacle ahead already ended it. */
    method FinishStart(forward: bool) returns (r: Outcome)
      requires Valid() && state == Running && owner.active.value.windowMs <= maximumStartSkewMs
      modifies `state, `fault, `sessionId, `lastSequence, `lastHeartbeatMs, `lastHeartbeatSequence, `claimedAtMs
      modifies `seenCommands, `activeCommand, `clockMs, `lastPollMs, `touchValue, `touchReleasedSamples
      modifies `infraredBlocked, `infraredObservedMs, `infraredValid, `seen, `mishaps
      modifies owner`active, owner`moving, owner`tally
      ensures Valid() && mishaps >= old(mishaps)
      ensures r.Done? ==> Snapshot() == old(Snapshot()) && owner.active == old(owner.active)
      ensures r.Done? ==> touchValue == Some(0) && (forward ==> !infraredBlocked)
      ensures r.Done? ==>
        && lastPollMs.Some? && lastHeartbeatMs.Some?
        && 0 <= lastPollMs.value - lastHeartbeatMs.value < heartbeatTimeoutMs
      ensures r.Raised? ==>
        Faulted(Snapshot()) || Snapshot() == old(Snapshot()).(state := ArmedIdle, command := None)
      ensures r.Raised? && mishaps == old(mishaps) ==> Hindered(forward, old(lastHeartbeatMs))
      ensures r.Raised? && mishaps == old(mishaps) && touchValue == Some(0) && FreshBy(old(lastHeartbeatMs)) ==>
        state == ArmedIdle
    {
      var code := Poststart(forward);
      if code.Some? {
        if !(InfraredCode(code.value) && state == ArmedIdle) {
          EnterFault(code.value, None, true);
        }
        return Raised;
      }
      r := Audit();
    }

    /** Everything checked before a drive command is accepted. A refusal here
        consumes nothing, except that the safety poll may latch a fault. */
    method AdmitDrive(session: int, sequence: int, command: int, reference: int, forward: bool, arguments: bool)
      returns (admitted: bool, ghost checkedMs: int)
      requires Valid()
      modifies `state, `fault, `sessionId, `lastSequence, `lastHeartbeatMs, `lastHeartbeatSequence, `claimedAtMs
      modifies `seenCommands, `activeCommand, `clockMs, `lastPollMs, `touchValue, `touchReleasedSamples
      modifies `infraredBlocked, `infraredObservedMs, `infraredValid, `seen, `mishaps, `polls
      modifies owner`active, owner`moving, owner`tally
      ensures polls >= old(polls)
      ensures Valid()
      ensures admitted ==> Snapshot() == old(Snapshot()) && state == ArmedIdle && |seenCommands| < maximumCommands
      ensures admitted ==> Presents(Drive(session, sequence, command), Snapshot()) && command !in seenCommands
      ensures admitted ==> lastHeartbeatSequence == Some(reference) && touchValue == Some(0)
      ensures admitted && forward ==> !infraredBlocked && infraredValid
      ensures admitted ==>
        lastHeartbeatMs.Some? && 0 <= checkedMs - lastHeartbeatMs.value < heartbeatTimeoutMs
      ensures admitted ==> seen.touch > old(seen).touch && seen.infrared > old(seen).infrared && seen.idle > old(seen).idle
      ensures !admitted ==> Allowed(Drive(session, sequence, command), old(Snapshot()), Snapshot())
      ensures !admitted ==> state != Running || old(state) == Running
      ensures mishaps >= old(mishaps)
      ensures mishaps == old(mishaps) && !admitted ==>
        var acceptable := arguments && old(state) == ArmedIdle
          && Presents(Drive(session, sequence, command), old(Snapshot())) && command !in old(seenCommands)
          && |old(seenCommands)| < maximumCommands && old(lastHeartbeatSequence) == Some(reference);
        acceptable ==> Hindered(forward, old(lastHeartbeatMs))
      ensures admitted ==> lastHeartbeatMs == old(lastHeartbeatMs)
      ensures !admitted && mishaps == old(mishaps) && touchValue == Some(0) && FreshBy(old(lastHeartbeatMs)) ==>
        old(state) == ArmedIdle ==> state == ArmedIdle
    {
      checkedMs := 0;
      if state != ArmedIdle || sessionId != Some(session) || sequence <= lastSequence
        || command in seenCommands || |seenCommands| >= maximumCommands
        || lastHeartbeatSequence != Some(reference) || !arguments
      {
        return false, checkedMs;
      }
      var revalidated := Revalidate();
      if revalidated.Raised? {
        return false, checkedMs;
      }
      var polled := PollOnce();
      if state != ArmedIdle {
        return false, checkedMs;
      }
      var now := CheckedNow();
      if now.None? || !HeartbeatFresh(now.value) || touchValue != Some(0) {
        return false, checkedMs;
      }
      checkedMs := now.value;
      if forward {
        var clear := RequireForwardClear();
        if clear.Some? {
          return false, checkedMs;
        }
      }
      var guard: bool := *;
      mishaps := mishaps + if guard then 0 else 1;
      return guard, checkedMs;
    }

    /** A timed drive. It returns with the motion running and every check passed;
        every other way out leaves the motors stopped or a fault latched. */
    method StartDrive(session: int, sequence: int, command: int, reference: int, forward: bool, durationMs: int,
                      arguments: bool)
      returns (r: Outcome)
      requires Valid()
      modifies this, owner`active, owner`moving, owner`tally
      ensures polls >= old(polls)
      ensures Valid() && Allowed(Drive(session, sequence, command), old(Snapshot()), Snapshot())
      ensures r.Done? ==>
        && state == Running && activeCommand == Some(command) && command !in old(seenCommands)
        && old(lastHeartbeatSequence) == Some(reference)
        && owner.active.Some? && owner.active.value.forward == forward
        && owner.active.value.deadlineMs == owner.active.value.startedMs + durationMs
        && touchValue == Some(0) && (forward ==> !infraredBlocked)
        && lastPollMs.Some? && lastHeartbeatMs.Some?
        && 0 <= lastPollMs.value - lastHeartbeatMs.value < heartbeatTimeoutMs
      ensures r.Raised? ==> state != Running || old(state) == Running
      ensures mishaps >= old(mishaps)
      ensures mishaps == old(mishaps) && r.Raised? ==>
        var acceptable := arguments && old(state) == ArmedIdle
          && Presents(Drive(session, sequence, command), old(Snapshot())) && command !in old(seenCommands)
          && |old(seenCommands)| < maximumCommands && old(lastHeartbeatSequence) == Some(reference);
        acceptable ==> Hindered(forward, old(lastHeartbeatMs)) || LateStart(old(starts))
      ensures r.Raised? && mishaps == old(mishaps) && touchValue == Some(0) && FreshBy(old(lastHeartbeatMs)) ==>
        old(state) == ArmedIdle ==> LateStart(old(starts)) || state == ArmedIdle
    {
      ghost var checkedMs;
      var admitted;
      admitted, checkedMs := AdmitDrive(session, sequence, command, reference, forward, arguments);
      if !admitted {
        return Raised;
      }
      lastSequence := sequence;
      seenCommands := seenCommands + {command};
      r := Audit();
      if r.Raised? {
        return;
      }
      r := ExecuteDrive(command, forward, durationMs);
    }

    /** Start the motors of an accepted command, or clean up. */
    method BeginMotion(command: int, forward: bool, durationMs: int) returns (begun: bool)
      requires Valid() && state == ArmedIdle && command in seenCommands
      modifies this, owner`active, owner`moving, owner`tally
      ensures Valid() && polls == old(polls) && mishaps >= old(mishaps)
      ensures begun ==>
        && Snapshot() == old(Snapshot()).(state := Running, command := Some(command))
        && lastHeartbeatMs == old(lastHeartbeatMs) && starts == old(starts) + 2
        && owner.active.value.forward == forward && owner.active.value.windowMs <= maximumStartSkewMs
        && owner.active.value.deadlineMs == owner.active.value.startedMs + durationMs
      ensures !begun ==> Faulted(Snapshot()) || Snapshot() == old(Snapshot())
      ensures !begun && mishaps == old(mishaps) ==> Hindered(forward, old(lastHeartbeatMs)) || LateStart(old(starts))
      ensures !begun && mishaps == old(mishaps) && touchValue == Some(0) && FreshBy(old(lastHeartbeatMs)) ==>
        LateStart(old(starts)) || state == ArmedIdle
    {
      var code, cleanup := StartMotors(forward, durationMs);
      if code.Some? {
        AbandonStart(code.value, cleanup);
        return false;
      }
      activeCommand := Some(command);
      state := Running;
      return true;
    }

    /** The accepted command: prestart checks, motor start, poststart checks. */
    method ExecuteDrive(command: int, forward: bool, durationMs: int) returns (r: Outcome)
      requires Valid() && state == ArmedIdle && command in seenCommands
      modifies this, owner`active, owner`moving, owner`tally
      ensures polls == old(polls)
      ensures Valid()
      ensures r.Done? ==> Snapshot() == old(Snapshot()).(state := Running, command := Some(command))
      ensures r.Done? ==>
        && starts == old(starts) + 2 && owner.active.Some? && owner.active.value.forward == forward
        && owner.active.value.deadlineMs == owner.active.value.startedMs + durationMs
      ensures r.Done? ==> touchValue == Some(0) && (forward ==> !infraredBlocked)
      ensures r.Done? ==>
        && lastPollMs.Some? && lastHeartbeatMs.Some?
        && 0 <= lastPollMs.value - lastHeartbeatMs.value < heartbeatTimeoutMs
      ensures r.Raised? ==> Faulted(Snapshot()) || Snapshot() == old(Snapshot())
      ensures mishaps >= old(mishaps)
      ensures r.Raised? && mishaps == old(mishaps) ==> Hindered(forward, old(lastHeartbeatMs)) || LateStart(old(starts))
      ensures r.Raised? && mishaps == old(mishaps) && touchValue == Some(0) && FreshBy(old(lastHeartbeatMs)) ==>
        LateStart(old(starts)) || state == ArmedIdle
    {
      var code := Prestart(forward);
      if code.Some? {
        AbandonPrestart(code.value);
        return Raised;
      }
      var begun := BeginMotion(command, forward, durationMs);
      if !begun {
        return Raised;
      }
      r := FinishStart(forward);
    }

    /** Behind a verified stop the supervisor is disarmed and nothing is latched. */
    method Disarm() returns (r: Outcome)
      requires !closed && !owner.closed && owner.active.None? && !owner.moving
      requires Bare(Snapshot()) && lastHeartbeatMs.None? && claimedAtMs.None?
      requires |seenCommands| <= maximumCommands
      modifies `state, `fault, `sessionId, `lastSequence, `lastHeartbeatMs, `lastHeartbeatSequence, `claimedAtMs
      modifies `seenCommands, `activeCommand, `mishaps, owner`active, owner`moving, owner`tally
      ensures Valid() && !owner.moving && (Unclaimed(Snapshot()) || Faulted(Snapshot()))
      ensures r.Done? <==> Unclaimed(Snapshot())
      ensures mishaps >= old(mishaps)
      ensures mishaps == old(mishaps) ==> r.Done?
      ensures owner.tally.stops >= old(owner.tally.stops)
    {
      fault := None;
      state := Disarmed;
      r := Audit();
    }

    /** The unauthenticated local stop. It returns with the supervisor disarmed
        behind a verified stop, or faulted. */
    method Stop() returns (r: Outcome)
      requires Valid()
      modifies `state, `fault, `sessionId, `lastSequence, `lastHeartbeatMs, `lastHeartbeatSequence, `claimedAtMs
      modifies `seenCommands, `activeCommand, `mishaps, owner`active, owner`moving, owner`tally
      ensures Valid() && Allowed(Op.Stop, old(Snapshot()), Snapshot())
      ensures owner.moving ==> old(owner.moving)
      ensures old(state) == FaultLatched ==> fault.value.code == old(fault.value.code)
      ensures r.Done? && (state == Disarmed || state == Closed) ==> ProvesVerifiedStop()
      ensures r.Done? && state == FaultLatched && fault.value.stop == StopResult(true, false, false) ==>
        ProvesVerifiedStop()
      ensures mishaps >= old(mishaps)
      ensures mishaps == old(mishaps) ==> r.Done? && ProvesVerifiedStop()
      ensures !old(closed) && !owner.closed ==> owner.tally.stops > old(owner.tally.stops)
      ensures owner.tally.stops >= old(owner.tally.stops)
    {
      if closed {
        return Done;
      }
      var wasFaulted := state == FaultLatched;
      var stop, interrupted := FinishWithRetry();
      activeCommand := None;
      InvalidateSession();
      if wasFaulted {
        fault := Some(fault.value.(stop := stop));
        var recorded: bool := *;
        mishaps := mishaps + if recorded then 0 else 1;
        if !recorded {
          RetryFaultStop();
          return Raised;
        }
      } else if !interrupted && stop.Verified() {
        r := Disarm();
        return;
      } else {
        EnterFault(StopFailed, Some(stop), true);
      }
      return Done;
    }

    method Release(session: int, sequence: int) returns (r: Outcome)
      requires Valid()
      modifies `state, `fault, `sessionId, `lastSequence, `lastHeartbeatMs, `lastHeartbeatSequence, `claimedAtMs
      modifies `seenCommands, `activeCommand, `mishaps, owner`active, owner`moving, owner`tally
      ensures Valid() && Allowed(Op.Release(session, sequence), old(Snapshot()), Snapshot())
      ensures r.Done? ==> sessionId.None? && activeCommand.None? && (state == Disarmed || state == FaultLatched)
      ensures mishaps >= old(mishaps)
      ensures mishaps == old(mishaps) ==>
        (r.Done? <==> old(state).Live() && old(sessionId) == Some(session) && sequence > old(lastSequence))
      ensures r.Done? && mishaps == old(mishaps) ==> state == Disarmed
      ensures old(state).Live() && old(sessionId) == Some(session) && sequence > old(lastSequence) ==>
        owner.tally.stops > old(owner.tally.stops)
    {
      if !state.Live() || sessionId != Some(session) || sequence <= lastSequence {
        return Raised;
      }
      lastSequence := sequence;
      var stop, interrupted := FinishWithRetry();
      activeCommand := None;
      InvalidateSession();
      if !interrupted && stop.Verified() {
        r := Disarm();
        return;
      }
      EnterFault(StopFailed, Some(stop), true);
      return Done;
    }

    /** Fresh evidence that the hardware binding holds and touch is released. */
    method ReadyToReset() returns (ready: bool)
      modifies `clockMs, `lastPollMs, `touchValue, `touchReleasedSamples
      modifies `infraredBlocked, `infraredObservedMs, `infraredValid, `seen, `mishaps
      ensures ready ==> !owner.closed && touchValue == Some(0) && touchReleasedSamples >= touchReleaseSamples
      ensures mishaps >= old(mishaps)
      ensures mishaps == old(mishaps) && !owner.closed ==>
        touchValue == Some(0) && touchReleasedSamples >= touchReleaseSamples ==> ready
    {
      var bound: bool := *;
      mishaps := mishaps + if bound then 0 else 1;
      if !bound || owner.closed {
        return false;
      }
      var touch := ReadTouch();
      if touch.Some? {
        return false;
      }
      var infrared := ReadInfrared();
      return infrared.None? && touchValue == Some(0) && touchReleasedSamples >= touchReleaseSamples;
    }

    /** A fault is reset only behind a verified stop, with touch stably released
        and no sign that the hardware binding itself failed. */
    method ResetFault() returns (r: Outcome)
      requires Valid()
      modifies `state, `fault, `sessionId, `lastSequence, `lastHeartbeatMs, `lastHeartbeatSequence, `claimedAtMs
      modifies `seenCommands, `activeCommand, `clockMs, `lastPollMs, `touchValue, `touchReleasedSamples
      modifies `infraredBlocked, `infraredObservedMs, `infraredValid, `seen, `mishaps
      modifies owner`active, owner`moving, owner`tally
      ensures Valid() && Allowed(Op.ResetFault, old(Snapshot()), Snapshot())
      ensures old(state) == FaultLatched && state != FaultLatched ==>
        && state == Disarmed && !owner.moving && !old(fault.value.secondary)
        && old(fault.value.code) != HardwareReadFailed && old(fault.value.code) != HardwareTopologyChanged
        && old(fault.value.code) != HardwareTopologyUnreadable && old(fault.value.code) != InfraredInvalidSample
        && touchValue == Some(0) && touchReleasedSamples >= touchReleaseSamples
      ensures r.Done? ==> old(state) == FaultLatched && state == Disarmed
      ensures mishaps >= old(mishaps)
      ensures old(state) == FaultLatched && !old(owner.closed) && mishaps == old(mishaps) ==>
        var code := old(fault.value.code);
        var resettable := !old(fault.value.secondary)
          && code != HardwareReadFailed && code != HardwareTopologyChanged
          && code != HardwareTopologyUnreadable && code != InfraredInvalidSample;
        resettable && touchValue == Some(0) && touchReleasedSamples >= touchReleaseSamples ==> r.Done?
      ensures r.Done? ==> owner.tally.stops > old(owner.tally.stops)
    {
      if state != FaultLatched || BindingFailed(fault.value.code) {
        return Raised;
      }
      PollFaulted();
      if fault.value.secondary {
        return Raised;
      }
      var ready := ReadyToReset();
      if !ready {
        return Raised;
      }
      var stop := owner.StopAllVerified();
      mishaps := mishaps + if stop.Verified() then 0 else 1;
      if !stop.Verified() {
        return Raised;
      }
      r := Disarm();
    }

    /** Shutting down releases the ownership lock only behind a verified stop. */
    method Close() returns (r: Outcome)
      requires Valid()
      modifies this, owner
      ensures polls == old(polls)
      ensures Valid() && Allowed(Op.Close, old(Snapshot()), Snapshot())
      ensures state == Closed ==> !owner.moving
      ensures old(closed) ==> owner.moving == old(owner.moving)
      ensures mishaps >= old(mishaps)
      ensures mishaps == old(mishaps) ==> state == Closed
      ensures !old(closed) && !old(owner.closed) ==> owner.tally.stops > old(owner.tally.stops)
    {
      if closed {
        return Done;
      }
      state := ShuttingDown;
      var first := owner.Close();
      mishaps := mishaps + if first.Finished? && first.stop.Verified() && !first.stop.faultTokens then 0 else 1;
      if first.Finished? {
        CloseBehind(first.stop);
        return Done;
      }
      var retry := owner.Close();
      var retried := if retry.Finished? then retry.stop else FAILED_STOP;
      if owner.closed && retried.Verified() && !retried.faultTokens {
        FinalizeClosed();
      } else {
        EnterFault(StopFailed, Some(Combine(Some(FAILED_STOP), retried)), true);
      }
      return Done;
    }

    method CloseBehind(stop: StopResult)
      requires !closed && state == ShuttingDown && owner.active.None?
      requires owner.closed <==> stop.Verified() && !stop.faultTokens
      requires stop.Verified() || owner.closed ==> !owner.moving
      modifies this, owner`active, owner`moving, owner`tally
      ensures polls == old(polls)
      ensures Valid() && (Faulted(Snapshot()) || (state == Closed && Bare(Snapshot())))
      ensures mishaps == old(mishaps)
      ensures stop.Verified() && !stop.faultTokens ==> state == Closed
      ensures owner.tally.stops >= old(owner.tally.stops)
    {
      if !stop.Verified() || stop.faultTokens {
        EnterFault(StopFailed, Some(stop), true);
      } else {
        FinalizeClosed();
      }
    }

    method FinalizeClosed()
      requires !closed && state == ShuttingDown && owner.closed && owner.active.None? && !owner.moving
      modifies this
      ensures polls == old(polls)
      ensures Valid() && state == Closed && Bare(Snapshot())
      ensures mishaps == old(mishaps)
    {
      activeCommand := None;
      InvalidateSession();
      closed := true;
      state := Closed;
    }
  }
}
