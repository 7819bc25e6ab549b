/** The EV3 navigation worker's motion accounting: fixed actions, scan turns and
    encoder recovery (ev3/navigation_worker.py, ev3/encoder_recovery_runtime.py).

    Whatever the hardware does is a nondeterministic outcome (`*`). An exception
    that leaves a method is modelled by `None` or `Raised`. */
module NavigationWorker {
  import opened Common
  import opened EncoderRecovery
  import opened NavigationProfile

  datatype Status = Completed | Interrupted | VerificationFailed | Denied

  datatype Segment = Segment(durationMs: nat, status: Status)

  /** A slice's receipt; its segments are the primary motion, then the corrections. */
  datatype SliceResult = SliceResult(status: Status, motors: Pair, corrections: seq<Segment>, passed: bool)

  /** How one recovery motion can go once its instruction is handed to the motors. */
  datatype Attempt =
    | StartRefused(fatal: bool)
    | EvidenceIncomplete
    | PartialStart(latches: bool, consistent: bool, after: Pair)
    | Ran(interrupted: bool, motorFault: bool, verified: bool, after: Pair)
    | RanThenRaised(motorFault: bool)
  {
    /** It leaves the recovery with an exception. */
    predicate Raises() {
      || EvidenceIncomplete? || RanThenRaised? || (StartRefused? && fatal) || (PartialStart? && !consistent)
    }

    /** It ran, if only in part, and ends the recovery. */
    predicate Ends() {
      (PartialStart? && consistent) || (Ran? && interrupted)
    }
  }

  /** What each pass of the recovery meets: whether the process deadline is still
      ahead, and how its attempt goes. */
  datatype World = World(inTime: nat -> bool, attempts: nat -> Attempt)

  datatype Executed = Raised | Stepped(segment: Option<Segment>, after: Pair, terminal: bool)

  /** What one pass of the recovery loop leaves behind. */
  datatype Progress =
    | Fatal
    | Continue(corrections: seq<Segment>, motors: Pair, budget: Budget)
    | Exit(status: Status, corrections: seq<Segment>, motors: Pair, budget: Budget)

  /** How starting the primary motion of a slice can go. */
  datatype Start =
    | EvidenceMissing
    | Refused(workerError: bool, fatal: bool)
    | Partial(mismatch: bool, workerError: bool)
    | Started

  /** How waiting for a started motion can end. */
  datatype Wait = Elapsed | MotorFault | OtherInterrupt

  /** Everything the hardware decides about one slice: how it starts, how the wait
      ends, whether the finish could be verified and the motion with it, whether a
      shortfall is one the recovery may handle, and what the encoders say. */
  datatype SliceOutcome = SliceOutcome(
    start: Start,
    wait: Wait,
    finished: bool,
    verified: bool,
    candidate: bool,
    expected: Pair,
    observed: Pair,
    motors: Option<Pair>,
    world: World)

  /** A slice receipt: what was commanded, how it ended and what it recorded;
      `motors` is the travel of both sides, unset unless each is reported once. */
  datatype Receipt = Receipt(
    status: Status,
    passed: bool,
    expected: Pair,
    recovery: Option<SliceResult>,
    motors: Option<Pair>)

  /** Encoder travel of a turn, unset when a receipt does not tell it. */
  function TotalsOf(receipts: seq<Receipt>): Option<Pair> {
    if receipts == [] then Some(Pair(0, 0))
    else
      var before, last := TotalsOf(receipts[..|receipts| - 1]), receipts[|receipts| - 1].motors;
      if before.None? || last.None? then None
      else Some(Pair(before.value.left + last.value.left, before.value.right + last.value.right))
  }

  lemma TotalsOfLonger(receipts: seq<Receipt>, last: Receipt)
    ensures TotalsOf(receipts + [last]) ==
      if TotalsOf(receipts).None? || last.motors.None? then None
      else Some(Pair(TotalsOf(receipts).value.left + last.motors.value.left,
                     TotalsOf(receipts).value.right + last.motors.value.right))
  {
    assert (receipts + [last])[..|receipts|] == receipts;
  }

  /** The totals are known exactly when every receipt tells both sides. */
  lemma {:induction false} TotalsNeedEveryReceipt(receipts: seq<Receipt>)
    ensures TotalsOf(receipts).Some? <==> forall i :: 0 <= i < |receipts| ==> receipts[i].motors.Some?
  {
    if receipts != [] {
      var before := receipts[..|receipts| - 1];
      TotalsNeedEveryReceipt(before);
      assert forall i :: 0 <= i < |before| ==> before[i] == receipts[i];
    }
  }

  method EncoderTotals(receipts: seq<Receipt>) returns (totals: Option<Pair>)
    ensures totals == TotalsOf(receipts)
  {
    var left, right := 0, 0;
    for i := 0 to |receipts|
      invariant TotalsOf(receipts[..i]) == Some(Pair(left, right))
    {
      assert receipts[..i + 1] == receipts[..i] + [receipts[i]];
      TotalsOfLonger(receipts[..i], receipts[i]);
      if receipts[i].motors.None? {
        TotalsNeedEveryReceipt(receipts);
        return None;
      }
      left, right := left + receipts[i].motors.value.left, right + receipts[i].motors.value.right;
    }
    assert receipts[..|receipts|] == receipts;
    return Some(Pair(left, right));
  }

  /** The outcome of a scan turn. */
  datatype Turn = Turn(status: Status, receipts: seq<Receipt>, totals: Option<Pair>)

  function Durations(segments: seq<Segment>): nat {
    if segments == [] then 0 else Durations(segments[..|segments| - 1]) + segments[|segments| - 1].durationMs
  }

  lemma DurationsOfLonger(segments: seq<Segment>, last: Segment)
    ensures Durations(segments + [last]) == Durations(segments) + last.durationMs
  {
    assert (segments + [last])[..|segments|] == segments;
  }

  class NavigationWorker {
    const policy: Policy
    var pulseCount: nat
    var pulseDurationMs: nat
    var motionFaultLatched: bool

    /** The process limits hold between requests and at every raised error. */
    ghost predicate Valid()
      reads this
    {
      && policy.Valid()
      && pulseCount <= MAX_PULSES
      && pulseDurationMs <= MAX_PULSE_DURATION_MS
    }

    constructor (policy: Policy)
      requires policy.Valid()
      ensures Valid() && pulseCount == 0 && pulseDurationMs == 0 && !motionFaultLatched
      ensures this.policy == policy
    {
      this.policy := policy;
      pulseCount, pulseDurationMs, motionFaultLatched := 0, 0, false;
    }

    /** Room for one more motion. */
    method BudgetAllows(durationMs: nat, beforeDeadline: bool) returns (allowed: bool)
      ensures allowed <==> beforeDeadline && pulseCount + 1 <= 40 && pulseDurationMs + durationMs <= 32000
    {
      allowed := pulseCount + 1 <= MAX_PULSES
        && pulseDurationMs + durationMs <= MAX_PULSE_DURATION_MS
        && beforeDeadline;
    }

    method ConsumeRecoveryMotionBudget(durationMs: nat)
      modifies `pulseCount, `pulseDurationMs
      ensures pulseCount == old(pulseCount) + 1 && pulseDurationMs == old(pulseDurationMs) + durationMs
    {
      pulseCount := pulseCount + 1;
      pulseDurationMs := pulseDurationMs + durationMs;
    }

    /** Carry out one instruction; `attempt` is what the hardware makes of it. It is
        charged exactly when a motor started. */
    method ExecuteInstruction(before: Pair, instruction: Instruction, attempt: Attempt) returns (r: Executed)
      requires Valid()
      requires pulseCount + 1 <= MAX_PULSES
      requires pulseDurationMs + instruction.durationMs <= MAX_PULSE_DURATION_MS
      modifies this
      ensures Valid()
      ensures attempt.EvidenceIncomplete? || attempt.StartRefused? ==> unchanged(this)
      ensures !attempt.EvidenceIncomplete? && !attempt.StartRefused? ==>
        pulseCount == old(pulseCount) + 1 && pulseDurationMs == old(pulseDurationMs) + instruction.durationMs
      ensures motionFaultLatched <==>
        || old(motionFaultLatched) || (attempt.PartialStart? && attempt.latches)
        || (attempt.RanThenRaised? && attempt.motorFault) || (attempt.Ran? && attempt.interrupted && attempt.motorFault)
      ensures r.Raised? <==>
        || attempt.EvidenceIncomplete? || attempt.RanThenRaised?
        || (attempt.StartRefused? && attempt.fatal) || (attempt.PartialStart? && !attempt.consistent)
      ensures attempt.StartRefused? && !attempt.fatal ==> r == Stepped(None, before, true)
      ensures attempt.PartialStart? && attempt.consistent ==>
        r == Stepped(Some(Segment(instruction.durationMs, Interrupted)), attempt.after, true)
      ensures attempt.Ran? && attempt.interrupted ==>
        r == Stepped(Some(Segment(instruction.durationMs, Interrupted)), attempt.after, true)
      ensures attempt.Ran? && !attempt.interrupted ==>
        r == Stepped(Some(Segment(instruction.durationMs, if attempt.verified then Completed else VerificationFailed)),
                     attempt.after, false)
    {
      match attempt
      case EvidenceIncomplete =>
        return Raised;
      case StartRefused(fatal) =>
        if fatal {
          return Raised;
        }
        return Stepped(None, before, true);
      case PartialStart(latches, consistent, after) =>
        ConsumeRecoveryMotionBudget(instruction.durationMs);
        if latches {
          motionFaultLatched := true;
        }
        if !consistent {
          return Raised;
        }
        return Stepped(Some(Segment(instruction.durationMs, Interrupted)), after, true);
      case RanThenRaised(motorFault) =>
        ConsumeRecoveryMotionBudget(instruction.durationMs);
        if motorFault {
          motionFaultLatched := true;
        }
        return Raised;
      case Ran(interrupted, motorFault, verified, after) =>
        ConsumeRecoveryMotionBudget(instruction.durationMs);
        if interrupted && motorFault {
          motionFaultLatched := true;
        }
        var status := if interrupted then Interrupted else if verified then Completed else VerificationFailed;
        return Stepped(Some(Segment(instruction.durationMs, status)), after, interrupted);
    }

    /** Whether the cumulative encoder evidence proves the paired command. */
    ghost predicate Proves(expected: Pair, motors: Pair)
      requires expected.left != 0 && expected.right != 0
    {
      && !Mismatch(expected.left, motors.left) && !Mismatch(expected.right, motors.right)
      && Satisfied(policy, CompletionOf(expected, motors))
    }

    ghost predicate Disagrees(expected: Pair, motors: Pair) {
      Mismatch(expected.left, motors.left) || Mismatch(expected.right, motors.right)
    }

    /** What a loop exit says about the encoder evidence it stopped on. */
    ghost predicate RestsOn(status: Status, expected: Pair, durationMs: nat, motors: Pair) {
      && AcceptableRequest(policy, expected, durationMs)
      && expected.left != 0 && expected.right != 0
      && status != Denied
      && (status == VerificationFailed ==> !Proves(expected, motors))
      && (status == Completed ==> !Disagrees(expected, motors))
      && (status == Completed && StartsBeforeAcceptable() ==> Satisfied(policy, CompletionOf(expected, motors)))
    }

    /** A wheel at the acceptable share has necessarily moved the minimum. */
    ghost predicate StartsBeforeAcceptable() {
      policy.minimumProgressDegrees * (100 - policy.acceptableCompletionPercent) < 100
    }

    /** The corrections recorded so far are exactly what the budget has spent. */
    ghost predicate Recorded(corrections: seq<Segment>, budget: Budget) {
      && Within(policy, budget)
      && |corrections| == budget.TotalAttempts()
      && Durations(corrections) == budget.durationMs
      && (corrections == [] ==> budget == Budget(0, 0, 0, 0))
    }

    /** The policy's decision on that evidence asks for nothing more, or gives up. */
    ghost predicate Chose(choice: Choice, expected: Pair, durationMs: nat, motors: Pair, spent: Budget)
      requires policy.Valid()
    {
      var d := Decide(policy, expected, motors, durationMs, spent);
      d.Some? && d.value.choice == choice
    }

    /** What else ends the recovery after so many corrections: time or the process limits
        rule an instruction out, or the last attempt refused to start or did not run to
        its end. */
    ghost predicate Blocked(status: Status, corrections: nat, world: World, pulses: nat, pulseMs: nat) {
      match status
      case VerificationFailed =>
        !world.inTime(corrections) || pulses >= 40 || pulseMs + policy.maximumStepDurationMs > 32000
      case Interrupted =>
        world.attempts(corrections) == StartRefused(false) || (corrections > 0 && world.attempts(corrections - 1).Ends())
      case _ => false
    }

    /** Why the recovery ended with that status. */
    ghost predicate Concluded(expected: Pair, durationMs: nat, status: Status, corrections: seq<Segment>, motors: Pair,
                              spent: Budget, world: World, pulses: nat, pulseMs: nat)
      requires policy.Valid()
    {
      && Recorded(corrections, spent)
      && (status == Completed ==> Chose(NoRecovery, expected, durationMs, motors, spent))
      && (status == VerificationFailed ==>
            && !Chose(NoRecovery, expected, durationMs, motors, spent)
            && (Blocked(status, |corrections|, world, pulses, pulseMs)
                || Chose(Abort, expected, durationMs, motors, spent)))
      && (status == Interrupted ==> Blocked(status, |corrections|, world, pulses, pulseMs))
      && status != Denied
    }

    /** The recovery leaves with an exception: its request is not one, or an attempt
        raises. */
    ghost predicate Derails(expected: Pair, durationMs: nat, world: World) {
      !AcceptableRequest(policy, expected, durationMs) || exists n: nat :: world.attempts(n).Raises()
    }

    /** Carry out one decision and record what it did. */
    method Correct(instruction: Instruction, corrections: seq<Segment>, motors: Pair, budget: Budget, after: Budget,
                   attempt: Attempt)
      returns (r: Progress)
      requires Valid() && Recorded(corrections, budget)
      requires pulseCount < MAX_PULSES && pulseDurationMs + instruction.durationMs <= MAX_PULSE_DURATION_MS
      requires Within(policy, after) && after.TotalAttempts() == budget.TotalAttempts() + 1
      requires after.durationMs == budget.durationMs + instruction.durationMs
      modifies this
      ensures Valid() && (old(motionFaultLatched) ==> motionFaultLatched)
      ensures !r.Fatal? ==> Charged(r, corrections, budget, old(pulseCount), old(pulseDurationMs))
      ensures r.Continue? ==> motionFaultLatched == old(motionFaultLatched)
      ensures Attempted(r, corrections, motors, budget, attempt)
      ensures r.Continue? || attempt.Ends() ==> r.motors == attempt.after && r.budget == after
    {
      var executed := ExecuteInstruction(motors, instruction, attempt);
      NothingCharged(Interrupted, corrections, motors, budget);
      r := Exit(Interrupted, corrections, motors, budget);
      if executed.Raised? {
        r := Fatal;
      } else if executed.segment.Some? {
        DurationsOfLonger(corrections, executed.segment.value);
        var longer := corrections + [executed.segment.value];
        r := if executed.terminal
             then Exit(Interrupted, longer, executed.after, after)
             else Continue(longer, executed.after, after);
      }
    }

    /** Act on one decision: stop where it asks for nothing or gives up, or where its
        instruction has no room, and else carry it out. */
    method Act(decision: Decision, corrections: seq<Segment>, motors: Pair, budget: Budget, beforeDeadline: bool,
               attempt: Attempt)
      returns (r: Progress)
      requires Valid() && Recorded(corrections, budget)
      requires decision.instruction.Some? <==> decision.choice == CatchUp || decision.choice == RetryPair
      requires decision.instruction.Some? ==>
        var after := decision.budgetAfterIfExecuted;
        && Within(policy, after) && after.TotalAttempts() == budget.TotalAttempts() + 1
        && after.durationMs == budget.durationMs + decision.instruction.value.durationMs
      modifies this
      ensures Valid() && (old(motionFaultLatched) ==> motionFaultLatched)
      ensures !r.Fatal? ==> Charged(r, corrections, budget, old(pulseCount), old(pulseDurationMs))
      ensures r.Continue? ==> motionFaultLatched == old(motionFaultLatched)
      ensures decision.choice == NoRecovery ==>
        r == Exit(Completed, corrections, motors, budget) && motionFaultLatched == old(motionFaultLatched)
      ensures decision.choice == Abort ==> r == Exit(VerificationFailed, corrections, motors, budget)
      ensures decision.choice == Abort && decision.reason == EncoderDirectionMismatch ==> motionFaultLatched
      ensures decision.instruction.Some? ==>
        if !beforeDeadline || old(pulseCount) >= 40
           || old(pulseDurationMs) + decision.instruction.value.durationMs > 32000
        then r == Exit(VerificationFailed, corrections, motors, budget)
        else Attempted(r, corrections, motors, budget, attempt)
    {
      NothingCharged(Completed, corrections, motors, budget);
      NothingCharged(VerificationFailed, corrections, motors, budget);
      r := Exit(if decision.choice == NoRecovery then Completed else VerificationFailed, corrections, motors, budget);
      if decision.instruction.Some? {
        var instruction := decision.instruction.value;
        var allowed := BudgetAllows(instruction.durationMs, beforeDeadline);
        if allowed {
          r := Correct(instruction, corrections, motors, budget, decision.budgetAfterIfExecuted, attempt);
        }
      } else if decision.choice == Abort && decision.reason == EncoderDirectionMismatch {
        motionFaultLatched := true;
      }
    }

    /** The counters moved by what was recorded. */
    ghost predicate Charged(r: Progress, corrections: seq<Segment>, budget: Budget, pulses: nat, pulseMs: nat)
      requires !r.Fatal?
      reads `pulseCount, `pulseDurationMs
    {
      && Recorded(r.corrections, r.budget)
      && pulseCount == pulses + r.budget.TotalAttempts() - budget.TotalAttempts()
      && pulseDurationMs == pulseMs + r.budget.durationMs - budget.durationMs
      && |r.corrections| == |corrections| + r.budget.TotalAttempts() - budget.TotalAttempts()
      && (r.Continue? ==> r.budget.TotalAttempts() == budget.TotalAttempts() + 1)
    }

    lemma NothingCharged(status: Status, corrections: seq<Segment>, motors: Pair, budget: Budget)
      requires Recorded(corrections, budget)
      ensures Charged(Exit(status, corrections, motors, budget), corrections, budget, pulseCount, pulseDurationMs)
    {
    }

    /** What an attempt that was made leaves behind. */
    ghost predicate Attempted(r: Progress, corrections: seq<Segment>, motors: Pair, budget: Budget, attempt: Attempt) {
      && (r.Fatal? <==> attempt.Raises())
      && (r.Continue? <==> attempt.Ran? && !attempt.interrupted)
      && (r.Exit? ==> r.status == Interrupted)
      && (r.Exit? && r.corrections == corrections ==> attempt == StartRefused(false))
      && (r.Exit? && r.corrections != corrections ==> attempt.Ends() && |r.corrections| == |corrections| + 1)
      && (attempt == StartRefused(false) ==> r == Exit(Interrupted, corrections, motors, budget))
    }

    /** One pass of the recovery loop. */
    method RecoveryStep(expected: Pair, durationMs: nat, corrections: seq<Segment>,
                        motors: Pair, budget: Budget, beforeDeadline: bool, attempt: Attempt)
      returns (r: Progress)
      requires Valid() && Recorded(corrections, budget)
      modifies this
      ensures Valid() && (old(motionFaultLatched) ==> motionFaultLatched)
      ensures !r.Fatal? ==> Charged(r, corrections, budget, old(pulseCount), old(pulseDurationMs))
      ensures r.Continue? || (r.Exit? && r.status == Completed) ==> motionFaultLatched == old(motionFaultLatched)
      ensures var d := Decide(policy, expected, motors, durationMs, budget);
        && (d.None? ==> r == Fatal)
        && (d.Some? && d.value.choice == NoRecovery ==> r == Exit(Completed, corrections, motors, budget))
        && (d.Some? && d.value.choice == Abort ==>
              && r == Exit(VerificationFailed, corrections, motors, budget)
              && (d.value.reason == EncoderDirectionMismatch ==> motionFaultLatched))
        && (d.Some? && (d.value.choice == CatchUp || d.value.choice == RetryPair) ==>
              && d.value.instruction.Some? && d.value.instruction.value.durationMs <= policy.maximumStepDurationMs
              && if !beforeDeadline || old(pulseCount) >= 40
                    || old(pulseDurationMs) + d.value.instruction.value.durationMs > 32000
                 then r == Exit(VerificationFailed, corrections, motors, budget)
                 else Attempted(r, corrections, motors, budget, attempt))
    {
      var decided := Decide(policy, expected, motors, durationMs, budget);
      r := Fatal;
      if decided.Some? {
        ExecutionStaysWithin(policy, expected, motors, durationMs, budget);
        DecisionSpends(policy, expected, motors, durationMs, budget);
        r := Act(decided.value, corrections, motors, budget, beforeDeadline, attempt);
      }
    }

    /** Correct until the policy or the hardware ends it. */
    method RecoveryLoop(expected: Pair, durationMs: nat, observed: Pair, world: World) returns (r: Progress)
      requires Valid()
      modifies this
      ensures Valid() && (old(motionFaultLatched) ==> motionFaultLatched)
      ensures !r.Continue?
      ensures r.Exit? ==>
        && AcceptableRequest(policy, expected, durationMs) && Recorded(r.corrections, r.budget)
        && pulseCount == old(pulseCount) + r.budget.TotalAttempts()
        && pulseDurationMs == old(pulseDurationMs) + r.budget.durationMs
        && (r.status == Completed ==> motionFaultLatched == old(motionFaultLatched))
      ensures r.Exit? ==>
        Concluded(expected, durationMs, r.status, r.corrections, r.motors, r.budget, world, pulseCount, pulseDurationMs)
      ensures r.Fatal? ==> Derails(expected, durationMs, world)
    {
      r := Continue([], observed, Budget(0, 0, 0, 0));
      while r.Continue?
        invariant Valid() && (old(motionFaultLatched) ==> motionFaultLatched)
        invariant !r.Fatal? ==>
          && Recorded(r.corrections, r.budget)
          && pulseCount == old(pulseCount) + r.budget.TotalAttempts()
          && pulseDurationMs == old(pulseDurationMs) + r.budget.durationMs
        invariant r.Exit? ==>
          Concluded(expected, durationMs, r.status, r.corrections, r.motors, r.budget, world, pulseCount, pulseDurationMs)
        invariant r.Fatal? ==> Derails(expected, durationMs, world)
        invariant r.Exit? ==> AcceptableRequest(policy, expected, durationMs)
        invariant r.Continue? || (r.Exit? && r.status == Completed) ==> motionFaultLatched == old(motionFaultLatched)
        decreases r.Continue?, if r.Fatal? then 0 else policy.maximumTotalAttempts - r.budget.TotalAttempts()
      {
        var pass := |r.corrections|;
        r := RecoveryStep(expected, durationMs, r.corrections, r.motors, r.budget, world.inTime(pass),
                          world.attempts(pass));
      }
    }

    /** Execute bounded corrections. `None` is a fatal worker error.

        The result's verdict is tied to the final encoder evidence, the number
        and the total duration of the corrections to the policy, and the process
        counters to exactly the corrections that were recorded. */
    method RecoverSlice(expected: Pair, durationMs: nat, observed: Pair, world: World)
      returns (r: Option<SliceResult>, ghost spent: Budget)
      requires Valid()
      modifies this
      ensures Valid() && (old(motionFaultLatched) ==> motionFaultLatched)
      ensures r.Some? ==> AcceptableRequest(policy, expected, durationMs)
      ensures r.Some? ==>
        && |r.value.corrections| <= policy.maximumTotalAttempts
        && Durations(r.value.corrections) <= policy.maximumTotalDurationMs
        && pulseCount == old(pulseCount) + |r.value.corrections|
        && pulseDurationMs == old(pulseDurationMs) + Durations(r.value.corrections)
      ensures r.Some? ==> Judged(expected, r.value)
      ensures r.Some? && r.value.status == Completed ==> motionFaultLatched == old(motionFaultLatched)
      ensures r.Some? && Disagrees(expected, r.value.motors) ==> motionFaultLatched
      ensures r.Some? ==>
        Concluded(expected, durationMs, r.value.status, r.value.corrections, r.value.motors, spent, world,
                  pulseCount, pulseDurationMs)
      ensures r.None? ==> Derails(expected, durationMs, world)
    {
      var concluded := RecoveryLoop(expected, durationMs, observed, world);
      spent := Budget(0, 0, 0, 0);
      if concluded.Fatal? {
        return None, spent;
      }
      spent := concluded.budget;
      ConcludedRests(expected, durationMs, concluded.status, concluded.corrections, concluded.motors, spent, world);
      var slice := Verdict(expected, concluded.motors, durationMs, concluded.budget, concluded.status,
                           concluded.corrections);
      return Some(slice), spent;
    }

    /** `passed` says the worker completed and the encoders prove it. For policies
        whose NO_RECOVERY means satisfied, status and verdict never disagree. */
    ghost predicate Judged(expected: Pair, slice: SliceResult)
      requires expected.left != 0 && expected.right != 0
    {
      && slice.status != Denied
      && (slice.passed <==> slice.status == Completed && Proves(expected, slice.motors))
      && (slice.status == VerificationFailed ==> !Proves(expected, slice.motors))
      && (StartsBeforeAcceptable() ==> (slice.passed <==> slice.status == Completed))
    }

    /** The final decision on the concluding evidence; a direction mismatch latches. */
    method Verdict(expected: Pair, motors: Pair, durationMs: nat, budget: Budget, status: Status,
                   corrections: seq<Segment>)
      returns (slice: SliceResult)
      requires policy.Valid() && RestsOn(status, expected, durationMs, motors)
      modifies `motionFaultLatched
      ensures motionFaultLatched <==> old(motionFaultLatched) || Disagrees(expected, motors)
      ensures Disagrees(expected, motors) ==> status != Completed
      ensures slice == SliceResult(status, motors, corrections, slice.passed) && Judged(expected, slice)
    {
      var final := Decide(policy, expected, motors, durationMs, budget).value;
      if final.choice == Abort && final.reason == EncoderDirectionMismatch {
        motionFaultLatched := true;
      }
      slice := SliceResult(status, motors, corrections, status == Completed && Satisfied(policy, final.completion));
    }

    /** The decision taken on the evidence settles what each exit may claim. */
    lemma DecisionSettles(expected: Pair, motors: Pair, durationMs: nat, budget: Budget)
      requires policy.Valid() && AcceptableRequest(policy, expected, durationMs)
      ensures var choice := Decide(policy, expected, motors, durationMs, budget).value.choice;
        && (choice == NoRecovery ==> RestsOn(Completed, expected, durationMs, motors))
        && (choice != NoRecovery ==> RestsOn(VerificationFailed, expected, durationMs, motors))
        && RestsOn(Interrupted, expected, durationMs, motors)
    {
      NoRecoveryMeaning(policy, expected, motors, durationMs, budget);
      JudgedOnNumbers(policy, expected, motors);
      if StartsBeforeAcceptable() {
        NoRecoveryMeansSatisfied(policy, expected, motors, durationMs, budget);
      }
    }

    /** And so the reason of every exit does. */
    lemma ConcludedRests(expected: Pair, durationMs: nat, status: Status, corrections: seq<Segment>, motors: Pair,
                         spent: Budget, world: World)
      requires policy.Valid() && AcceptableRequest(policy, expected, durationMs)
      requires Concluded(expected, durationMs, status, corrections, motors, spent, world, pulseCount, pulseDurationMs)
      ensures RestsOn(status, expected, durationMs, motors)
    {
      DecisionSettles(expected, motors, durationMs, spent);
    }

    /** Wait for a started motion. A turn never defers its own motor fault. */
    method WaitForActive(recoverable: bool, w: Wait)
      modifies `motionFaultLatched
      ensures motionFaultLatched <==> old(motionFaultLatched) || (w == MotorFault && !recoverable)
    {
      if w == MotorFault && !recoverable {
        motionFaultLatched := true;
      }
    }

    /** The receipt a slice must carry: what was recorded is what was spent, and a
        completed recoverable slice rests on the recovery verdict. */
    ghost predicate Accounted(receipt: Receipt, recoverable: bool, durationMs: nat, count: int, spent: int) {
      match receipt.recovery
      case None =>
        if receipt.status == Denied then count == 0 && spent == 0 && !receipt.passed && receipt.motors.None?
        else
          && count == 1 && spent == durationMs
          && (receipt.status == Completed ==> receipt.passed && !recoverable)
          && (receipt.status == VerificationFailed ==> !receipt.passed)
      case Some(recovery) =>
        && recoverable
        && receipt.status == recovery.status && receipt.passed == recovery.passed
        && receipt.motors == Some(recovery.motors)
        && receipt.expected.left != 0 && receipt.expected.right != 0
        && Judged(receipt.expected, recovery)
        && |recovery.corrections| <= policy.maximumTotalAttempts
        && Durations(recovery.corrections) <= policy.maximumTotalDurationMs
        && count == 1 + |recovery.corrections|
        && spent == durationMs + Durations(recovery.corrections)
    }

    /** One slice that failed to start: nothing ran, or the part that did is
        charged as a whole motion. */
    method FailedStart(start: Start, recoverable: bool, durationMs: nat, motors: Option<Pair>)
      returns (r: Option<Receipt>)
      requires Valid() && start != Started
      requires pulseCount + 1 <= MAX_PULSES && pulseDurationMs + durationMs <= MAX_PULSE_DURATION_MS
      modifies this
      ensures Valid()
      ensures motionFaultLatched <==>
        || old(motionFaultLatched)
        || (start.Partial? && start.mismatch) || (!start.EvidenceMissing? && !start.workerError)
      ensures r.None? <==> start.EvidenceMissing? || (start.Refused? && (!start.workerError || start.fatal))
      ensures r.Some? ==> !r.value.passed && r.value.recovery.None?
      ensures r.Some? ==>
        if start.Partial? then r.value.status == Interrupted && r.value.motors == motors
        else r.value.status == Denied && r.value.motors.None?
      ensures pulseCount == old(pulseCount) + if start.Partial? then 1 else 0
      ensures pulseDurationMs == old(pulseDurationMs) + if start.Partial? then durationMs else 0
    {
      if start == EvidenceMissing {
        return None;
      }
      if start.Partial? {
        ConsumeRecoveryMotionBudget(durationMs);
        if start.mismatch || !start.workerError {
          motionFaultLatched := true;
        }
        return Some(Receipt(Interrupted, false, Pair(0, 0), None, motors));
      }
      if !start.workerError {
        motionFaultLatched := true;
        return None;
      }
      return if start.fatal then None else Some(Receipt(Denied, false, Pair(0, 0), None, None));
    }

    /** What the verified finish makes of the wait: the primary status, whether a
        transient motor fault was deferred, and whether the slice may recover. */
    method JudgePrimary(recoverable: bool, wait: Wait, verified: bool, candidate: bool)
      returns (status: Status)
      requires wait == MotorFault && !recoverable ==> motionFaultLatched
      modifies `motionFaultLatched
      ensures motionFaultLatched <==>
        || old(motionFaultLatched)
        || (wait == MotorFault && recoverable && !verified && !candidate)
        || (wait == Elapsed && !verified && !(recoverable && candidate))
      ensures status == Completed <==> verified && (wait == Elapsed || (wait == MotorFault && recoverable))
      ensures status == VerificationFailed <==>
        !verified && (wait == Elapsed || (wait == MotorFault && recoverable && candidate))
      ensures status != Denied
    {
      if wait == MotorFault && recoverable {
        if verified {
          return Completed;
        } else if candidate {
          return VerificationFailed;
        }
        motionFaultLatched := true;
        return Interrupted;
      }
      if wait != Elapsed {
        return Interrupted;
      }
      if !verified {
        if !(recoverable && candidate) {
          motionFaultLatched := true;
        }
        return VerificationFailed;
      }
      return Completed;
    }

    /** A slice that leaves with an exception: its evidence is missing, it was refused
        for more than itself, or its finish could not be read. */
    ghost predicate Breaks(o: SliceOutcome) {
      match o.start
      case EvidenceMissing => true
      case Refused(workerError, fatal) => !workerError || fatal
      case Partial(_, _) => false
      case Started => !o.finished
    }

    /** The receipt of a slice that recovery does not touch. */
    ghost predicate ReceiptOf(receipt: Receipt, o: SliceOutcome) {
      && receipt.motors == (if o.start.Refused? then None else o.motors)
      && receipt.passed == (o.start == Started && o.verified)
      && receipt.status == (if o.start.Refused? then Denied
                            else if o.start != Started || o.wait != Elapsed then Interrupted
                            else if o.verified then Completed else VerificationFailed)
    }

    /** The receipt of a slice that recovery may repair: it does so when the motion was
        proven or fell short in a way it may handle, and ends for one of its reasons. */
    ghost predicate RecoverableReceipt(receipt: Receipt, durationMs: nat, o: SliceOutcome, spent: Budget)
      requires policy.Valid()
      reads `pulseCount, `pulseDurationMs
    {
      if o.start != Started then ReceiptOf(receipt, o)
      else if o.wait == OtherInterrupt then receipt.status == Interrupted && receipt.recovery.None?
      else if !o.verified && !o.candidate then receipt.status != Completed && receipt.recovery.None?
      else
        && receipt.recovery.Some? && receipt.expected == o.expected
        && var s := receipt.recovery.value;
           && receipt.status == s.status && receipt.passed == s.passed
           && Concluded(o.expected, durationMs, s.status, s.corrections, s.motors, spent, o.world,
                        pulseCount, pulseDurationMs)
    }

    /** One motor slice. A raised error leaves the process limits intact; a motor
        fault, a failed finish or an unproven motion that the recovery may not or
        could not repair latches. */
    method ExecuteSlice(recoverable: bool, durationMs: nat, o: SliceOutcome)
      returns (r: Option<Receipt>, ghost spent: Budget)
      requires Valid() && !motionFaultLatched
      requires pulseCount + 1 <= MAX_PULSES && pulseDurationMs + durationMs <= MAX_PULSE_DURATION_MS
      modifies this
      ensures Valid()
      ensures r.Some? ==>
        Accounted(r.value, recoverable, durationMs, pulseCount - old(pulseCount), pulseDurationMs - old(pulseDurationMs))
      ensures r.Some? && r.value.status == Completed ==> !motionFaultLatched && o.start == Started && o.finished
      ensures r.Some? && r.value.status == Denied ==> o.start.Refused?
      ensures o.start == Started && o.wait == MotorFault && (r.None? ==> !o.finished) ==>
        motionFaultLatched || (r.Some? && r.value.status == Completed && recoverable)
      ensures o.start == Started && !o.finished ==> r.None? && (motionFaultLatched <==> o.wait == MotorFault)
      ensures o.start == Started && o.finished && !recoverable ==>
        && r.Some? && r.value.recovery.None?
        && (motionFaultLatched <==> o.wait == MotorFault || (o.wait == Elapsed && !o.verified))
      ensures o.start != Started || !recoverable ==>
        (r.None? <==> Breaks(o)) && (r.Some? ==> ReceiptOf(r.value, o))
      ensures recoverable && r.Some? ==> RecoverableReceipt(r.value, durationMs, o, spent)
      ensures o.start == Started && o.finished && recoverable && r.Some? && r.value.recovery.None? ==>
        (motionFaultLatched <==> o.wait != OtherInterrupt)
      ensures recoverable && r.None? ==> Breaks(o) || Derails(o.expected, durationMs, o.world)
    {
      spent := Budget(0, 0, 0, 0);
      if o.start != Started {
        r := FailedStart(o.start, recoverable, durationMs, o.motors);
        return;
      }
      ConsumeRecoveryMotionBudget(durationMs);
      WaitForActive(recoverable, o.wait);
      if !o.finished {
        if o.wait == MotorFault && recoverable {
          motionFaultLatched := true;
        }
        return None, spent;
      }
      var status := JudgePrimary(recoverable, o.wait, o.verified, o.candidate);
      if !recoverable || (status != Completed && status != VerificationFailed) || motionFaultLatched {
        return Some(Receipt(status, o.verified, Pair(0, 0), None, o.motors)), spent;
      }
      r, spent := RecoverPrimary(durationMs, o);
    }

    /** Hand a finished recoverable slice to the recovery. A deferred motor fault
        latches unless the recovery completes. */
    method RecoverPrimary(durationMs: nat, o: SliceOutcome) returns (r: Option<Receipt>, ghost spent: Budget)
      requires Valid() && !motionFaultLatched
      modifies this
      ensures Valid()
      ensures r.Some? ==>
        Accounted(r.value, true, durationMs, 1 + pulseCount - old(pulseCount),
                  durationMs + pulseDurationMs - old(pulseDurationMs))
      ensures r.Some? ==> r.value.recovery.Some? && r.value.expected == o.expected
      ensures r.Some? && r.value.status == Completed ==> !motionFaultLatched
      ensures r.Some? && r.value.status != Completed && o.wait == MotorFault ==> motionFaultLatched
      ensures r.Some? ==>
        var s := r.value.recovery.value;
        Concluded(o.expected, durationMs, s.status, s.corrections, s.motors, spent, o.world, pulseCount, pulseDurationMs)
      ensures r.None? ==> Derails(o.expected, durationMs, o.world)
    {
      var recovered;
      recovered, spent := RecoverSlice(o.expected, durationMs, o.observed, o.world);
      if recovered.None? {
        return None, spent;
      }
      var slice := recovered.value;
      if o.wait == MotorFault && slice.status != Completed {
        motionFaultLatched := true;
      }
      return Some(Receipt(slice.status, slice.passed, o.expected, recovered, Some(slice.motors))), spent;
    }

    /** Run the slices of one action in order until one does not complete. */
    method RunSlices(recoverable: bool, durations: seq<nat>, outcomes: nat -> SliceOutcome)
      returns (r: Option<seq<Receipt>>, ghost spent: Budget)
      requires Valid() && !motionFaultLatched
      requires recoverable ==> |durations| == 1
      requires pulseCount + |durations| <= MAX_PULSES
      requires pulseDurationMs + Sum(durations) <= MAX_PULSE_DURATION_MS
      modifies this
      ensures Valid()
      ensures r.Some? ==> AllCompletedButLast(r.value, durations)
      ensures r.Some? && Succeeded(r.value, durations) ==> !motionFaultLatched
      ensures !recoverable && r.Some? && Succeeded(r.value, durations) ==>
        && (forall j :: 0 <= j < |r.value| ==> r.value[j].passed)
        && pulseCount == old(pulseCount) + |durations| && pulseDurationMs == old(pulseDurationMs) + Sum(durations)
      ensures !recoverable && r.Some? ==>
        && pulseCount <= old(pulseCount) + |durations|
        && pulseDurationMs <= old(pulseDurationMs) + Sum(durations)
      ensures !recoverable && r.Some? ==>
        forall j :: 0 <= j < |r.value| ==> ReceiptOf(r.value[j], outcomes(j))
      ensures !recoverable && r.None? ==> exists j: nat :: Breaks(outcomes(j))
      ensures recoverable && r.Some? ==>
        |r.value| == 1 && RecoverableReceipt(r.value[0], durations[0], outcomes(0), spent)
      ensures recoverable && r.None? ==> Breaks(outcomes(0)) || Derails(outcomes(0).expected, durations[0], outcomes(0).world)
    {
      spent := Budget(0, 0, 0, 0);
      var receipts: seq<Receipt> := [];
      assert durations[..0] == [];
      for i := 0 to |durations|
        invariant Valid() && !motionFaultLatched && |receipts| == i
        invariant forall j :: 0 <= j < i ==> receipts[j].status == Completed && (recoverable || receipts[j].passed)
        invariant recoverable && i > 0 ==> RecoverableReceipt(receipts[0], durations[0], outcomes(0), spent)
        invariant !recoverable ==> forall j :: 0 <= j < i ==> ReceiptOf(receipts[j], outcomes(j))
        invariant i == 0 || !recoverable ==>
          pulseCount == old(pulseCount) + i && pulseDurationMs == old(pulseDurationMs) + Sum(durations[..i])
      {
        SumOfPrefix(durations, i);
        SumOfPrefix(durations, i + 1);
        assert durations[..i + 1][..i] == durations[..i];
        var receipt;
        receipt, spent := ExecuteSlice(recoverable, durations[i], outcomes(i));
        if receipt.None? {
          return None, spent;
        }
        receipts := receipts + [receipt.value];
        if receipt.value.status != Completed {
          assert !Succeeded(receipts, durations) by {
            assert receipts[i] == receipt.value;
          }
          return Some(receipts), spent;
        }
      }
      assert durations[..|durations|] == durations;
      return Some(receipts), spent;
    }

    /** ADVANCE, REVERSE and the fixed turns; `inTime` and `allowed` are the process
        deadline's and the sensors' verdicts. `None` covers every refusal. */
    method Pulse(action: Action, inTime: bool, allowed: bool, outcomes: nat -> SliceOutcome)
      returns (r: Option<seq<Receipt>>, ghost spent: Budget)
      requires Valid()
      modifies this
      ensures Valid() && (old(motionFaultLatched) ==> motionFaultLatched)
      ensures var turn := action == TurnLeft90 || action == TurnRight90;
        if old(motionFaultLatched) || !inTime || old(pulseCount) + (if turn then 4 else 1) > 40
          || old(pulseDurationMs) + (if turn then 2560 else 250) > 32000
        then r.None? && unchanged(this)
        else if !allowed then r == Some([]) && unchanged(this)
        else if r.Some? then r.value != []
        else if turn then exists j: nat :: Breaks(outcomes(j))
        else Breaks(outcomes(0)) || Derails(outcomes(0).expected, 250, outcomes(0).world)
      ensures r.Some? && r.value != [] ==> AllCompletedButLast(r.value, ActionSlices(action))
      ensures (action == TurnLeft90 || action == TurnRight90) && r.Some? ==>
        && pulseCount <= old(pulseCount) + 4 && pulseDurationMs <= old(pulseDurationMs) + 2560
        && (Succeeded(r.value, ActionSlices(action)) ==>
              pulseCount == old(pulseCount) + 4 && pulseDurationMs == old(pulseDurationMs) + 2560)
      ensures r.Some? && Succeeded(r.value, ActionSlices(action)) ==> !motionFaultLatched
      ensures (action == TurnLeft90 || action == TurnRight90) && r.Some? ==>
        forall j :: 0 <= j < |r.value| ==> ReceiptOf(r.value[j], outcomes(j))
      ensures action != TurnLeft90 && action != TurnRight90 && r.Some? && r.value != [] ==>
        |r.value| == 1 && RecoverableReceipt(r.value[0], 250, outcomes(0), spent)
    {
      spent := Budget(0, 0, 0, 0);
      var durations := ActionSlices(action);
      if motionFaultLatched || !inTime
        || pulseCount + |durations| > MAX_PULSES
        || pulseDurationMs + TotalDurationMs(action) > MAX_PULSE_DURATION_MS
      {
        return None, spent;
      }
      if !allowed {
        return Some([]), spent;
      }
      SlicesSumToTotal(action);
      r, spent := RunSlices(Recoverable(action), durations, outcomes);
    }

    /** A body turn from the fixed scan lattice. It completes only when every slice
        did and the encoder travel summed over the receipts went as commanded. */
    method ScanTurn(deltaMdeg: int, inTime: bool, allowed: bool, outcomes: nat -> SliceOutcome)
      returns (r: Option<Turn>, ghost ran: seq<Receipt>)
      requires Valid()
      modifies this
      ensures Valid() && (old(motionFaultLatched) ==> motionFaultLatched)
      ensures if old(motionFaultLatched) || deltaMdeg == 0 || deltaMdeg % 15000 != 0 || Abs(deltaMdeg) > 120000
          || !inTime || old(pulseCount) + SliceCount(ScanTurnDurationMs(deltaMdeg)) > 40
          || old(pulseDurationMs) + ScanTurnDurationMs(deltaMdeg) > 32000
        then r.None? && unchanged(this)
        else if !allowed then r == Some(Turn(Denied, [], None)) && unchanged(this)
        else r.None? ==> exists j: nat :: Breaks(outcomes(j))
      ensures r.Some? && r.value.receipts == [] ==> r.value.status == Denied
      ensures r.Some? && r.value.receipts != [] ==>
        !Succeeded(r.value.receipts, SliceDurations(ScanTurnDurationMs(deltaMdeg))) ==>
        r.value.status == r.value.receipts[|r.value.receipts| - 1].status && r.value.status != Completed
      ensures r.Some? ==> r.value.totals == if r.value.receipts == [] then None else TotalsOf(r.value.receipts)
      ensures r.Some? && r.value.status == Completed ==>
        && !motionFaultLatched
        && Succeeded(r.value.receipts, SliceDurations(ScanTurnDurationMs(deltaMdeg)))
        && pulseCount == old(pulseCount) + SliceCount(ScanTurnDurationMs(deltaMdeg))
        && pulseDurationMs == old(pulseDurationMs) + ScanTurnDurationMs(deltaMdeg)
      ensures r.Some? && Succeeded(r.value.receipts, SliceDurations(ScanTurnDurationMs(deltaMdeg))) ==>
        var totals := r.value.totals;
        && (r.value.status == Completed <==>
              totals.Some? && totals.value.left * deltaMdeg < 0 < totals.value.right * deltaMdeg
              && -80 <= Abs(totals.value.left) - Abs(totals.value.right) <= 80)
        && (r.value.status != Completed ==> r.value.status == VerificationFailed && motionFaultLatched)
      ensures ran != [] ==>
        && AllCompletedButLast(ran, SliceDurations(ScanTurnDurationMs(deltaMdeg)))
        && (forall j :: 0 <= j < |ran| ==> ReceiptOf(ran[j], outcomes(j)))
        && r.Some?
        && (if ran[|ran| - 1].status == Denied then r.value == Turn(Denied, [], None) else r.value.receipts == ran)
      ensures ran == [] ==> r.None? || !allowed
    {
      ran := [];
      if !ScanTurnAllowed(deltaMdeg) || motionFaultLatched {
        return None, ran;
      }
      var total := ScanTurnDurationMs(deltaMdeg);
      var durations := SliceDurations(total);
      if !inTime || pulseCount + |durations| > MAX_PULSES || pulseDurationMs + total > MAX_PULSE_DURATION_MS {
        return None, ran;
      }
      SlicesAreBalanced(total);
      if !allowed {
        return Some(Turn(Denied, [], None)), ran;
      }
      var done, spent := RunSlices(false, durations, outcomes);
      if done.None? {
        return None, ran;
      }
      var receipts := done.value;
      ran := receipts;
      var last := receipts[|receipts| - 1];
      if last.status == Denied {
        return Some(Turn(Denied, [], None)), ran;
      }
      var totals := EncoderTotals(receipts);
      if |receipts| < |durations| || last.status != Completed {
        return Some(Turn(last.status, receipts, totals)), ran;
      }
      if totals.Some? {
        SignsMultiply(totals.value.left, deltaMdeg);
        SignsMultiply(totals.value.right, deltaMdeg);
      }
      if totals.Some? && TurnedAsCommanded(deltaMdeg, totals.value) {
        return Some(Turn(Completed, receipts, totals)), ran;
      }
      motionFaultLatched := true;
      return Some(Turn(VerificationFailed, receipts, totals)), ran;
    }
  }

  /** Both wheels moved in the commanded directions and by similar amounts. */
  predicate TurnedAsCommanded(deltaMdeg: int, totals: Pair) {
    && (if deltaMdeg > 0 then totals.left < 0 < totals.right else totals.right < 0 < totals.left)
    && Abs(Abs(totals.left) - Abs(totals.right)) <= SCAN_TURN_MAX_SIDE_DIVERGENCE_DEGREES
  }

  /** Slices run in order; only the last one that ran may have failed. */
  ghost predicate AllCompletedButLast(receipts: seq<Receipt>, durations: seq<nat>) {
    && |receipts| <= |durations|
    && (forall j :: 0 <= j < |receipts| - 1 ==> receipts[j].status == Completed)
    && (|receipts| < |durations| ==> receipts != [] && receipts[|receipts| - 1].status != Completed)
  }

  /** Every requested slice completed. */
  ghost predicate Succeeded(receipts: seq<Receipt>, durations: seq<nat>) {
    |receipts| == |durations| && forall j :: 0 <= j < |receipts| ==> receipts[j].status == Completed
  }
}
