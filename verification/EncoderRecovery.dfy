/** The bounded encoder-recovery policy (ev3/encoder_recovery.py). */
module EncoderRecovery {
  import opened Common

  datatype Side = Left | Right

  datatype Pair = Pair(left: int, right: int) {
    function At(side: Side): int {
      if side == Left then left else right
    }
  }

  datatype Policy = Policy(
    minimumProgressDegrees: int,
    catchUpLeaderMinimumDegrees: int,
    acceptableCompletionPercent: int,
    maximumProgressSkewPercent: int,
    maximumCatchUpAttempts: int,
    maximumPairRetryAttempts: int,
    maximumTotalAttempts: int,
    maximumStepDurationMs: int,
    maximumTotalDurationMs: int,
    maximumTotalEncoderDegrees: int)
  {
    /** The constructor's checks. */
    predicate Valid() {
      && 1 <= minimumProgressDegrees <= catchUpLeaderMinimumDegrees
      && 1 <= acceptableCompletionPercent <= 100
      && 0 <= maximumProgressSkewPercent <= 100
      && 0 <= maximumCatchUpAttempts && 0 <= maximumPairRetryAttempts
      && 0 <= maximumTotalAttempts <= maximumCatchUpAttempts + maximumPairRetryAttempts
      && 1 <= maximumStepDurationMs && 1 <= maximumTotalDurationMs && 1 <= maximumTotalEncoderDegrees
    }
  }

  datatype Budget = Budget(catchUpAttempts: nat, pairRetryAttempts: nat, durationMs: nat, encoderDegrees: nat) {
    function TotalAttempts(): nat {
      catchUpAttempts + pairRetryAttempts
    }
  }

  const EMPTY_BUDGET := Budget(0, 0, 0, 0)

  datatype Mode = SingleWheel(side: Side) | Paired {
    predicate Selects(side: Side) {
      this == Paired || this == SingleWheel(side)
    }
  }

  datatype Choice = NoRecovery | CatchUp | RetryPair | Abort

  datatype Reason =
    | CommandSatisfied
    | LeftLagging
    | RightLagging
    | PairedUndertravel
    | EncoderDirectionMismatch
    | TotalAttemptBudget
    | CatchUpAttemptBudget
    | PairRetryAttemptBudget
    | DurationBudget
    | EncoderBudget

  datatype Instruction = Instruction(mode: Mode, durationMs: nat, target: Pair, bounded: bool)

  datatype Decision = Decision(
    choice: Choice,
    reason: Reason,
    completion: Pair,
    instruction: Option<Instruction>,
    budgetAfterIfExecuted: Budget)

  // -------------------------------------------------------------- encoder cost

  /** The paired command under recovery: unsigned expected travel and duration. */
  datatype Command = Command(expected: Pair, durationMs: int) {
    predicate Valid() {
      expected.left >= 1 && expected.right >= 1 && durationMs >= 1
    }
  }

  function ExpectedFor(c: Command, side: Side, durationMs: nat): int
    requires c.Valid()
  {
    CeilDiv(c.expected.At(side) * durationMs, c.durationMs)
  }

  function EncoderCost(c: Command, mode: Mode, durationMs: nat): int
    requires c.Valid()
  {
    if durationMs <= 0 then 0
    else match mode
      case SingleWheel(side) => ExpectedFor(c, side, durationMs)
      case Paired => ExpectedFor(c, Left, durationMs) + ExpectedFor(c, Right, durationMs)
  }

  lemma ExpectedGrows(c: Command, side: Side, a: nat, b: nat)
    requires c.Valid() && a <= b
    ensures 0 <= ExpectedFor(c, side, a) <= ExpectedFor(c, side, b)
  {
    var e := c.expected.At(side);
    ScaleOrder(a, b, e);
    assert e * a >= 0 by { ScaleOrder(0, a, e); }
    CeilDivIsLeast(e * a, c.durationMs, ExpectedFor(c, side, b));
    CeilDivIsLeast(e * b, c.durationMs, ExpectedFor(c, side, b));
  }

  lemma CostGrows(c: Command, mode: Mode, a: nat, b: nat)
    requires c.Valid() && a <= b
    ensures 0 <= EncoderCost(c, mode, a) <= EncoderCost(c, mode, b)
  {
    ExpectedGrows(c, Left, a, b);
    ExpectedGrows(c, Right, a, b);
  }

  /** The longest affordable duration, found by trying every one from the top. */
  function LongestAffordable(c: Command, mode: Mode, desired: nat, available: nat): nat
    requires c.Valid()
  {
    if desired == 0 || EncoderCost(c, mode, desired) <= available then desired
    else LongestAffordable(c, mode, desired - 1, available)
  }

  lemma {:induction false} LongestIsAffordable(c: Command, mode: Mode, desired: nat, available: nat, d: nat)
    requires c.Valid()
    ensures var longest := LongestAffordable(c, mode, desired, available);
      && longest <= desired
      && EncoderCost(c, mode, longest) <= available
      && (d <= desired && EncoderCost(c, mode, d) <= available ==> d <= longest)
  {
    if desired != 0 && EncoderCost(c, mode, desired) > available {
      LongestIsAffordable(c, mode, desired - 1, available, d);
    }
  }

  /** The source's binary search agrees with the exhaustive search. */
  method DurationWithinEncoderBudget(c: Command, mode: Mode, desired: nat, available: nat) returns (low: nat)
    requires c.Valid()
    ensures low == LongestAffordable(c, mode, desired, available)
  {
    low := 0;
    var high := desired;
    while low < high
      invariant 0 <= low <= high <= desired
      invariant EncoderCost(c, mode, low) <= available
      invariant forall d: nat :: high < d <= desired ==> EncoderCost(c, mode, d) > available
    {
      var middle := (low + high + 1) / 2;
      if EncoderCost(c, mode, middle) <= available {
        low := middle;
      } else {
        forall d: nat | middle <= d
          ensures EncoderCost(c, mode, d) > available
        {
          CostGrows(c, mode, middle, d);
        }
        high := middle - 1;
      }
    }
    LongestIsAffordable(c, mode, desired, available, low);
    assert EncoderCost(c, mode, LongestAffordable(c, mode, desired, available)) <= available;
  }

  // ---------------------------------------------------------------- decisions

  /** Shortest duration whose commanded travel the encoders can verify. */
  function MinimumVerifiable(p: Policy, c: Command, mode: Mode): nat
    requires p.Valid() && c.Valid()
  {
    VerifiableIsNatural(p, c);
    match mode
    case SingleWheel(side) => CeilDiv(p.minimumProgressDegrees * c.durationMs, c.expected.At(side))
    case Paired => Max(CeilDiv(p.minimumProgressDegrees * c.durationMs, c.expected.left),
                       CeilDiv(p.minimumProgressDegrees * c.durationMs, c.expected.right))
  }

  lemma VerifiableIsNatural(p: Policy, c: Command)
    requires p.Valid() && c.Valid()
    ensures CeilDiv(p.minimumProgressDegrees * c.durationMs, c.expected.left) >= 1
    ensures CeilDiv(p.minimumProgressDegrees * c.durationMs, c.expected.right) >= 1
  {
    ScaleOrder(1, p.minimumProgressDegrees, c.durationMs);
    CeilDivIsLeast(p.minimumProgressDegrees * c.durationMs, c.expected.left, 0);
    CeilDivIsLeast(p.minimumProgressDegrees * c.durationMs, c.expected.right, 0);
  }

  function Consume(b: Budget, choice: Choice, durationMs: nat, encoderDegrees: nat): Budget
    requires choice == CatchUp || choice == RetryPair
  {
    Budget(
      b.catchUpAttempts + (if choice == CatchUp then 1 else 0),
      b.pairRetryAttempts + (if choice == RetryPair then 1 else 0),
      b.durationMs + durationMs,
      b.encoderDegrees + encoderDegrees)
  }

  function Target(c: Command, mode: Mode, durationMs: nat): Pair
    requires c.Valid()
  {
    Pair(if mode.Selects(Left) then ExpectedFor(c, Left, durationMs) else 0,
         if mode.Selects(Right) then ExpectedFor(c, Right, durationMs) else 0)
  }

  /** The attempt, duration and encoder guards in the order the source tests
      them; `None` when an instruction may be attempted. */
  function Exhausted(p: Policy, choice: Choice, b: Budget): Option<Reason> {
    if b.TotalAttempts() >= p.maximumTotalAttempts then Some(TotalAttemptBudget)
    else if choice == CatchUp && b.catchUpAttempts >= p.maximumCatchUpAttempts then Some(CatchUpAttemptBudget)
    else if choice == RetryPair && b.pairRetryAttempts >= p.maximumPairRetryAttempts then Some(PairRetryAttemptBudget)
    else if b.durationMs >= p.maximumTotalDurationMs then Some(DurationBudget)
    else if b.encoderDegrees >= p.maximumTotalEncoderDegrees then Some(EncoderBudget)
    else None
  }

  function Longest(p: Policy, c: Command, mode: Mode, desired: nat, b: Budget): nat
    requires p.Valid() && c.Valid()
    requires b.durationMs < p.maximumTotalDurationMs && b.encoderDegrees < p.maximumTotalEncoderDegrees
  {
    LongestAffordable(c, mode,
      Min(Max(desired, MinimumVerifiable(p, c, mode)),
          Min(p.maximumStepDurationMs, p.maximumTotalDurationMs - b.durationMs)),
      p.maximumTotalEncoderDegrees - b.encoderDegrees)
  }

  function Instruct(p: Policy, c: Command, completion: Pair, choice: Choice, reason: Reason, mode: Mode,
                    desired: nat, b: Budget): Decision
    requires p.Valid() && c.Valid() && (choice == CatchUp || choice == RetryPair)
  {
    var exhausted := Exhausted(p, choice, b);
    if exhausted.Some? then Decision(Abort, exhausted.value, completion, None, b)
    else
      var duration := Longest(p, c, mode, desired, b);
      if duration < MinimumVerifiable(p, c, mode) then Decision(Abort, EncoderBudget, completion, None, b)
      else
        CostIsTarget(c, mode, duration);
        var target := Target(c, mode, duration);
        Decision(choice, reason, completion,
          Some(Instruction(mode, duration, target, duration != desired)),
          Consume(b, choice, duration, target.left + target.right))
  }

  lemma CostIsTarget(c: Command, mode: Mode, durationMs: nat)
    requires c.Valid()
    ensures var t := Target(c, mode, durationMs);
      t.left >= 0 && t.right >= 0 && t.left + t.right == EncoderCost(c, mode, durationMs)
  {
    ExpectedGrows(c, Left, 0, durationMs);
    ExpectedGrows(c, Right, 0, durationMs);
  }

  function Completion(expected: int, observed: int): int
    requires expected >= 1
  {
    Abs(observed) * 100 / expected
  }

  predicate Mismatch(expected: int, observed: int) {
    observed != 0 && observed * (if expected > 0 then 1 else -1) < 0
  }

  predicate Started(p: Policy, observed: int) {
    Abs(observed) >= p.minimumProgressDegrees
  }

  /** The side the policy lets catch up, when one wheel is an established leader. */
  function Lagging(p: Policy, observed: Pair, completion: Pair): Option<Side> {
    var skew := Abs(completion.left - completion.right);
    if Started(p, observed.left) != Started(p, observed.right) then
      var leader := if Started(p, observed.left) then Left else Right;
      if Abs(observed.At(leader)) >= p.catchUpLeaderMinimumDegrees
      then Some(if leader == Left then Right else Left)
      else None
    else if Started(p, observed.left) && skew > p.maximumProgressSkewPercent then
      Some(if completion.left < completion.right then Left else Right)
    else None
  }

  function Other(side: Side): Side {
    if side == Left then Right else Left
  }

  function CatchUpDuration(c: Command, observed: Pair, lagging: Side): nat
    requires c.Valid()
  {
    var leader := Other(lagging);
    var wanted := CeilDiv(Abs(observed.At(leader)) * c.expected.At(lagging), c.expected.At(leader));
    DurationIsNatural(c, lagging, Max(1, wanted - Abs(observed.At(lagging))));
    CeilDiv(Max(1, wanted - Abs(observed.At(lagging))) * c.durationMs, c.expected.At(lagging))
  }

  lemma DurationIsNatural(c: Command, side: Side, degrees: nat)
    requires c.Valid()
    ensures CeilDiv(degrees * c.durationMs, c.expected.At(side)) >= 0
    ensures CeilDiv(degrees * c.durationMs, c.expected.At(side)) == 0 <==> degrees == 0
  {
    ScaleOrder(0, degrees, c.durationMs);
    if degrees >= 1 {
      ScaleOrder(1, degrees, c.durationMs);
    }
    CeilDivIsLeast(degrees * c.durationMs, c.expected.At(side), -1);
    CeilDivIsLeast(degrees * c.durationMs, c.expected.At(side), 0);
  }

  function Remaining(p: Policy, c: Command, observed: Pair, side: Side): nat
    requires p.Valid() && c.Valid()
  {
    Max(0, CeilDiv(c.expected.At(side) * p.acceptableCompletionPercent, 100) - Abs(observed.At(side)))
  }

  function RetryDuration(p: Policy, c: Command, observed: Pair): nat
    requires p.Valid() && c.Valid()
  {
    DurationIsNatural(c, Left, Remaining(p, c, observed, Left));
    DurationIsNatural(c, Right, Remaining(p, c, observed, Right));
    Max(CeilDiv(Remaining(p, c, observed, Left) * c.durationMs, c.expected.left),
        CeilDiv(Remaining(p, c, observed, Right) * c.durationMs, c.expected.right))
  }

  predicate Satisfied(p: Policy, completion: Pair) {
    && completion.left >= p.acceptableCompletionPercent
    && completion.right >= p.acceptableCompletionPercent
    && Abs(completion.left - completion.right) <= p.maximumProgressSkewPercent
  }

  predicate AcceptableRequest(p: Policy, expected: Pair, durationMs: int) {
    && Abs(expected.left) >= p.minimumProgressDegrees
    && Abs(expected.right) >= p.minimumProgressDegrees
    && durationMs >= 1
  }

  function CommandOf(expected: Pair, durationMs: int): Command {
    Command(Pair(Abs(expected.left), Abs(expected.right)), durationMs)
  }

  function CompletionOf(expected: Pair, observed: Pair): Pair
    requires expected.left != 0 && expected.right != 0
  {
    Pair(Completion(Abs(expected.left), observed.left), Completion(Abs(expected.right), observed.right))
  }

  /** `decide`; `None` is the ValueError raised for an unverifiable request. */
  function Decide(p: Policy, expected: Pair, observed: Pair, durationMs: int, b: Budget): Option<Decision>
    requires p.Valid()
  {
    if !AcceptableRequest(p, expected, durationMs) then None
    else
      var c := CommandOf(expected, durationMs);
      var completion := CompletionOf(expected, observed);
      if Mismatch(expected.left, observed.left) || Mismatch(expected.right, observed.right) then
        Some(Decision(Abort, EncoderDirectionMismatch, completion, None, b))
      else if Satisfied(p, completion) then Some(Decision(NoRecovery, CommandSatisfied, completion, None, b))
      else
        var lagging := Lagging(p, observed, completion);
        if lagging.Some? then
          Some(Instruct(p, c, completion, CatchUp, if lagging.value == Left then LeftLagging else RightLagging,
            SingleWheel(lagging.value), CatchUpDuration(c, observed, lagging.value), b))
        else if RetryDuration(p, c, observed) <= 0 then
          Some(Decision(NoRecovery, CommandSatisfied, completion, None, b))
        else
          Some(Instruct(p, c, completion, RetryPair, PairedUndertravel, Paired, RetryDuration(p, c, observed), b))
  }

  // ------------------------------------------------------------- instructions

  /** A duration that respects every limit at once. */
  predicate Fits(p: Policy, c: Command, mode: Mode, desired: nat, b: Budget, d: nat)
    requires p.Valid() && c.Valid()
  {
    && d <= Max(desired, MinimumVerifiable(p, c, mode))
    && d <= p.maximumStepDurationMs
    && b.durationMs + d <= p.maximumTotalDurationMs
    && b.encoderDegrees + EncoderCost(c, mode, d) <= p.maximumTotalEncoderDegrees
  }

  lemma LongestIsMaximal(p: Policy, c: Command, mode: Mode, desired: nat, b: Budget, d: nat)
    requires p.Valid() && c.Valid()
    requires b.durationMs < p.maximumTotalDurationMs && b.encoderDegrees < p.maximumTotalEncoderDegrees
    ensures Fits(p, c, mode, desired, b, Longest(p, c, mode, desired, b))
    ensures Fits(p, c, mode, desired, b, d) ==> d <= Longest(p, c, mode, desired, b)
  {
    LongestIsAffordable(c, mode,
      Min(Max(desired, MinimumVerifiable(p, c, mode)),
          Min(p.maximumStepDurationMs, p.maximumTotalDurationMs - b.durationMs)),
      p.maximumTotalEncoderDegrees - b.encoderDegrees, d);
  }

  lemma VerifiableTravel(p: Policy, c: Command, mode: Mode, side: Side, d: nat)
    requires p.Valid() && c.Valid() && mode.Selects(side) && d >= MinimumVerifiable(p, c, mode)
    ensures ExpectedFor(c, side, d) >= p.minimumProgressDegrees
  {
    TravelReaches(c.expected.At(side), c.durationMs, p.minimumProgressDegrees, d);
  }

  lemma TravelReaches(e: int, durationMs: int, m: int, d: nat)
    requires e >= 1 && durationMs >= 1 && CeilDiv(m * durationMs, e) <= d
    ensures CeilDiv(e * d, durationMs) >= m
  {
    CeilDivIsLeast(m * durationMs, e, d);
    CeilDivIsLeast(e * d, durationMs, m - 1);
    assert (m - 1) * durationMs == m * durationMs - durationMs;
  }

  /** Every instruction runs for the longest duration that fits the requested,
      per-step, total-time and encoder limits at once, commands each selected
      wheel a verifiable amount and leaves the other one alone. */
  lemma InstructionIsLongestFit(p: Policy, c: Command, completion: Pair, choice: Choice, reason: Reason,
                                mode: Mode, desired: nat, b: Budget, other: nat)
    requires p.Valid() && c.Valid() && (choice == CatchUp || choice == RetryPair)
    requires Instruct(p, c, completion, choice, reason, mode, desired, b).instruction.Some?
    ensures var i := Instruct(p, c, completion, choice, reason, mode, desired, b).instruction.value;
      && i.mode == mode
      && Fits(p, c, mode, desired, b, i.durationMs)
      && (Fits(p, c, mode, desired, b, other) ==> other <= i.durationMs)
      && (forall side :: i.target.At(side) ==
            if mode.Selects(side) then ExpectedFor(c, side, i.durationMs) else 0)
      && (forall side :: mode.Selects(side) ==> i.target.At(side) >= p.minimumProgressDegrees)
  {
    var d := Longest(p, c, mode, desired, b);
    LongestIsMaximal(p, c, mode, desired, b, other);
    forall side: Side | mode.Selects(side)
      ensures ExpectedFor(c, side, d) >= p.minimumProgressDegrees
    {
      VerifiableTravel(p, c, mode, side, d);
    }
  }

  /** With attempts, time and travel left, the policy gives up exactly when no
      verifiable duration fits. */
  lemma AbortsOnlyWithoutFit(p: Policy, c: Command, completion: Pair, choice: Choice, reason: Reason,
                             mode: Mode, desired: nat, b: Budget)
    requires p.Valid() && c.Valid() && (choice == CatchUp || choice == RetryPair)
    requires Exhausted(p, choice, b).None?
    ensures Instruct(p, c, completion, choice, reason, mode, desired, b).instruction.None? <==>
      forall d: nat :: Fits(p, c, mode, desired, b, d) ==> d < MinimumVerifiable(p, c, mode)
  {
    var longest := Longest(p, c, mode, desired, b);
    forall d: nat
      ensures Fits(p, c, mode, desired, b, longest)
      ensures Fits(p, c, mode, desired, b, d) ==> d <= longest
    {
      LongestIsMaximal(p, c, mode, desired, b, d);
    }
    LongestIsMaximal(p, c, mode, desired, b, 0);
  }

  /** An instruction that was not cut short commands enough travel to reach what
      it set out for: the leader's relative progress, or the acceptable share. */
  lemma UnboundedInstructionCloses(c: Command, side: Side, degrees: nat)
    requires c.Valid()
    ensures var d := CeilDiv(degrees * c.durationMs, c.expected.At(side));
      d >= 0 && ExpectedFor(c, side, d) >= degrees
  {
    DurationIsNatural(c, side, degrees);
    TravelReaches(c.expected.At(side), c.durationMs, degrees, CeilDiv(degrees * c.durationMs, c.expected.At(side)));
  }

  /** What a duration that was not cut short buys: it is the shortest that turns
      the wheel at least that far at the commanded speed. */
  lemma ShortestFor(c: Command, side: Side, degrees: nat, d: nat)
    requires c.Valid() && degrees >= 1 && d == CeilDiv(degrees * c.durationMs, c.expected.At(side))
    ensures d >= 1 && ExpectedFor(c, side, d) >= degrees
    ensures (d - 1) * c.expected.At(side) < degrees * c.durationMs <= d * c.expected.At(side)
  {
    DurationIsNatural(c, side, degrees);
    UnboundedInstructionCloses(c, side, degrees);
    CeilDivIsLeast(degrees * c.durationMs, c.expected.At(side), d);
    CeilDivIsLeast(degrees * c.durationMs, c.expected.At(side), d - 1);
  }

  /** A catch-up that was not cut short commands enough travel to reach the
      leader's relative progress. */
  lemma UncutCatchUpReachesLeader(p: Policy, expected: Pair, observed: Pair, durationMs: int, b: Budget)
    requires p.Valid() && Decide(p, expected, observed, durationMs, b).Some?
    requires var d := Decide(p, expected, observed, durationMs, b).value;
      d.choice == CatchUp && !d.instruction.value.bounded
    ensures var i := Decide(p, expected, observed, durationMs, b).value.instruction.value;
      var lagging, leader := i.mode.side, Other(i.mode.side);
      (Abs(observed.At(lagging)) + i.target.At(lagging)) * Abs(expected.At(leader))
        >= Abs(observed.At(leader)) * Abs(expected.At(lagging))
  {
    var c := CommandOf(expected, durationMs);
    var i := Decide(p, expected, observed, durationMs, b).value.instruction.value;
    var lagging, leader := i.mode.side, Other(i.mode.side);
    var wanted := CeilDiv(Abs(observed.At(leader)) * c.expected.At(lagging), c.expected.At(leader));
    UnboundedInstructionCloses(c, lagging, Max(1, wanted - Abs(observed.At(lagging))));
    CeilDivIsLeast(Abs(observed.At(leader)) * c.expected.At(lagging), c.expected.At(leader),
      Abs(observed.At(lagging)) + i.target.At(lagging));
  }

  /** And it is the shortest such catch-up: whatever travel of at least a degree
      reaches the leader takes at least as long at the commanded speed. */
  lemma UncutCatchUpIsShortest(p: Policy, expected: Pair, observed: Pair, durationMs: int, b: Budget, degrees: nat)
    requires p.Valid() && Decide(p, expected, observed, durationMs, b).Some?
    requires var d := Decide(p, expected, observed, durationMs, b).value;
      d.choice == CatchUp && !d.instruction.value.bounded
    requires var lagging := Decide(p, expected, observed, durationMs, b).value.instruction.value.mode.side;
      degrees >= 1
      && (Abs(observed.At(lagging)) + degrees) * Abs(expected.At(Other(lagging)))
         >= Abs(observed.At(Other(lagging))) * Abs(expected.At(lagging))
    ensures var i := Decide(p, expected, observed, durationMs, b).value.instruction.value;
      (i.durationMs - 1) * Abs(expected.At(i.mode.side)) < degrees * durationMs
  {
    var c := CommandOf(expected, durationMs);
    var i := Decide(p, expected, observed, durationMs, b).value.instruction.value;
    var lagging, leader := i.mode.side, Other(i.mode.side);
    var wanted := CeilDiv(Abs(observed.At(leader)) * c.expected.At(lagging), c.expected.At(leader));
    var deficit := Max(1, wanted - Abs(observed.At(lagging)));
    CeilDivIsLeast(Abs(observed.At(leader)) * c.expected.At(lagging), c.expected.At(leader),
      Abs(observed.At(lagging)) + degrees);
    ShortestFor(c, lagging, deficit, i.durationMs);
    ScaleOrder(deficit, degrees, durationMs);
  }

  /** A retry of the pair that was not cut short commands enough travel to bring
      both wheels to the acceptable share. */
  lemma UncutRetryReachesShare(p: Policy, expected: Pair, observed: Pair, durationMs: int, b: Budget, side: Side)
    requires p.Valid() && Decide(p, expected, observed, durationMs, b).Some?
    requires var d := Decide(p, expected, observed, durationMs, b).value;
      d.choice == RetryPair && !d.instruction.value.bounded
    ensures var i := Decide(p, expected, observed, durationMs, b).value.instruction.value;
      (Abs(observed.At(side)) + i.target.At(side)) * 100 >= Abs(expected.At(side)) * p.acceptableCompletionPercent
  {
    var c := CommandOf(expected, durationMs);
    var i := Decide(p, expected, observed, durationMs, b).value.instruction.value;
    var share := c.expected.At(side) * p.acceptableCompletionPercent;
    var missing := Remaining(p, c, observed, side);
    UnboundedInstructionCloses(c, side, missing);
    ExpectedGrows(c, side, CeilDiv(missing * c.durationMs, c.expected.At(side)), i.durationMs);
    CeilDivIsLeast(share, 100, Abs(observed.At(side)) + i.target.At(side));
  }

  /** And it is the shortest such retry: some wheel needs all of it. */
  lemma UncutRetryIsShortest(p: Policy, expected: Pair, observed: Pair, durationMs: int, b: Budget, left: nat, right: nat)
    requires p.Valid() && Decide(p, expected, observed, durationMs, b).Some?
    requires var d := Decide(p, expected, observed, durationMs, b).value;
      d.choice == RetryPair && !d.instruction.value.bounded
    requires (Abs(observed.left) + left) * 100 >= Abs(expected.left) * p.acceptableCompletionPercent
    requires (Abs(observed.right) + right) * 100 >= Abs(expected.right) * p.acceptableCompletionPercent
    ensures var ms := Decide(p, expected, observed, durationMs, b).value.instruction.value.durationMs;
      (ms - 1) * Abs(expected.left) < left * durationMs || (ms - 1) * Abs(expected.right) < right * durationMs
  {
    var c := CommandOf(expected, durationMs);
    var ms := Decide(p, expected, observed, durationMs, b).value.instruction.value.durationMs;
    NeededAtMost(p, c, observed, Left, left, ms);
    NeededAtMost(p, c, observed, Right, right, ms);
  }

  lemma NeededAtMost(p: Policy, c: Command, observed: Pair, side: Side, degrees: nat, ms: nat)
    requires p.Valid() && c.Valid() && ms >= 1
    requires (Abs(observed.At(side)) + degrees) * 100 >= c.expected.At(side) * p.acceptableCompletionPercent
    ensures ms == CeilDiv(Remaining(p, c, observed, side) * c.durationMs, c.expected.At(side)) ==>
      (ms - 1) * c.expected.At(side) < degrees * c.durationMs
  {
    var missing := Remaining(p, c, observed, side);
    CeilDivIsLeast(c.expected.At(side) * p.acceptableCompletionPercent, 100, Abs(observed.At(side)) + degrees);
    DurationIsNatural(c, side, missing);
    if missing >= 1 && ms == CeilDiv(missing * c.durationMs, c.expected.At(side)) {
      ShortestFor(c, side, missing, ms);
      ScaleOrder(missing, degrees, c.durationMs);
    }
  }

  // -------------------------------------------------------- which wheel is driven

  /** Both wheels turned the way they were commanded, as far as they turned. */
  ghost predicate DirectionsAgree(expected: Pair, observed: Pair) {
    expected.left * observed.left >= 0 && expected.right * observed.right >= 0
  }

  /** Whole percent of the commanded travel. */
  ghost function Percent(expected: int, observed: int): int
    requires expected != 0
  {
    (100 * Abs(observed)) / Abs(expected)
  }

  ghost predicate Enough(p: Policy, expected: Pair, observed: Pair) {
    && 100 * Abs(observed.left) >= p.acceptableCompletionPercent * Abs(expected.left)
    && 100 * Abs(observed.right) >= p.acceptableCompletionPercent * Abs(expected.right)
  }

  ghost predicate Balanced(p: Policy, expected: Pair, observed: Pair)
    requires expected.left != 0 && expected.right != 0
  {
    -p.maximumProgressSkewPercent
      <= Percent(expected.left, observed.left) - Percent(expected.right, observed.right)
      <= p.maximumProgressSkewPercent
  }

  /** One wheel has not started while the other is far enough ahead to be followed,
      or both have started and this one's share is too much smaller. */
  ghost predicate Behind(p: Policy, expected: Pair, observed: Pair, side: Side)
    requires expected.left != 0 && expected.right != 0
  {
    var other := if side == Left then Right else Left;
    if Abs(observed.At(side)) < p.minimumProgressDegrees then
      Abs(observed.At(other)) >= p.catchUpLeaderMinimumDegrees
    else
      && Abs(observed.At(other)) >= p.minimumProgressDegrees
      && Percent(expected.At(other), observed.At(other)) - Percent(expected.At(side), observed.At(side))
         > p.maximumProgressSkewPercent
  }

  lemma LaggingIsBehind(p: Policy, expected: Pair, observed: Pair, side: Side)
    requires p.Valid() && expected.left != 0 && expected.right != 0
    ensures Lagging(p, observed, CompletionOf(expected, observed)) == Some(side) <==> Behind(p, expected, observed, side)
  {
  }

  lemma JudgedOnNumbers(p: Policy, expected: Pair, observed: Pair)
    requires p.Valid() && expected.left != 0 && expected.right != 0
    ensures DirectionsAgree(expected, observed) <==>
      !Mismatch(expected.left, observed.left) && !Mismatch(expected.right, observed.right)
    ensures Satisfied(p, CompletionOf(expected, observed)) <==>
      Enough(p, expected, observed) && Balanced(p, expected, observed)
  {
    SignsMultiply(expected.left, observed.left);
    SignsMultiply(expected.right, observed.right);
    SignsMultiply(observed.left, if expected.left > 0 then 1 else -1);
    SignsMultiply(observed.right, if expected.right > 0 then 1 else -1);
    FloorReaches(Abs(observed.left) * 100, Abs(expected.left), p.acceptableCompletionPercent);
    FloorReaches(Abs(observed.right) * 100, Abs(expected.right), p.acceptableCompletionPercent);
  }

  /** No attempt is left, or even the shortest run whose travel the encoders can
      verify does not fit the remaining time and travel. */
  ghost predicate Spent(p: Policy, expected: Pair, durationMs: int, mode: Mode, attempts: bool, b: Budget)
    requires p.Valid() && AcceptableRequest(p, expected, durationMs)
  {
    var c := CommandOf(expected, durationMs);
    var shortest := MinimumVerifiable(p, c, mode);
    || b.catchUpAttempts + b.pairRetryAttempts >= p.maximumTotalAttempts
    || !attempts
    || shortest > p.maximumStepDurationMs
    || b.durationMs + shortest > p.maximumTotalDurationMs
    || b.encoderDegrees + EncoderCost(c, mode, shortest) > p.maximumTotalEncoderDegrees
  }

  lemma ShortestCosts(p: Policy, c: Command, mode: Mode)
    requires p.Valid() && c.Valid()
    ensures MinimumVerifiable(p, c, mode) >= 1
    ensures EncoderCost(c, mode, MinimumVerifiable(p, c, mode)) >= 1
  {
    VerifiableIsNatural(p, c);
    var side := if mode == Paired then Left else mode.side;
    VerifiableTravel(p, c, mode, side, MinimumVerifiable(p, c, mode));
    ExpectedGrows(c, Left, 0, MinimumVerifiable(p, c, mode));
    ExpectedGrows(c, Right, 0, MinimumVerifiable(p, c, mode));
  }

  lemma InstructGivesUpExactly(p: Policy, expected: Pair, durationMs: int, completion: Pair, choice: Choice,
                               reason: Reason, mode: Mode, desired: nat, b: Budget)
    requires p.Valid() && AcceptableRequest(p, expected, durationMs) && (choice == CatchUp || choice == RetryPair)
    ensures var attempts := if choice == CatchUp then b.catchUpAttempts < p.maximumCatchUpAttempts
                            else b.pairRetryAttempts < p.maximumPairRetryAttempts;
      Instruct(p, CommandOf(expected, durationMs), completion, choice, reason, mode, desired, b).instruction.None? <==>
        Spent(p, expected, durationMs, mode, attempts, b)
  {
    var c := CommandOf(expected, durationMs);
    var shortest := MinimumVerifiable(p, c, mode);
    ShortestCosts(p, c, mode);
    if Exhausted(p, choice, b).None? {
      LongestIsMaximal(p, c, mode, desired, b, shortest);
      CostGrows(c, mode, shortest, Max(shortest, Longest(p, c, mode, desired, b)));
    }
  }

  /** A catch-up drives exactly the wheel that is behind, and gives up exactly when
      its attempts, time or travel are spent. */
  lemma CatchUpDrivesWheelBehind(p: Policy, expected: Pair, observed: Pair, durationMs: int, b: Budget, side: Side)
    requires p.Valid() && AcceptableRequest(p, expected, durationMs)
    ensures var d := Decide(p, expected, observed, durationMs, b).value;
      var catching := DirectionsAgree(expected, observed) && Behind(p, expected, observed, side)
        && !(Enough(p, expected, observed) && Balanced(p, expected, observed));
      var spent := Spent(p, expected, durationMs, SingleWheel(side), b.catchUpAttempts < p.maximumCatchUpAttempts, b);
      && (d.choice == CatchUp && d.instruction.value.mode == SingleWheel(side) <==> catching && !spent)
      && (d.choice == CatchUp ==> d.instruction.Some? && d.instruction.value.mode.SingleWheel?)
      && (catching && !spent ==> d.reason == if side == Left then LeftLagging else RightLagging)
      && (catching && spent ==> d.choice == Abort && d.instruction.None?)
  {
    var c, completion := CommandOf(expected, durationMs), CompletionOf(expected, observed);
    JudgedOnNumbers(p, expected, observed);
    LaggingIsBehind(p, expected, observed, Left);
    LaggingIsBehind(p, expected, observed, Right);
    if Lagging(p, observed, completion) == Some(side) {
      InstructGivesUpExactly(p, expected, durationMs, completion, CatchUp,
        if side == Left then LeftLagging else RightLagging, SingleWheel(side), CatchUpDuration(c, observed, side), b);
    }
  }

  /** The pair is retried exactly when it fell short and neither wheel is behind. */
  lemma RetryDrivesBoth(p: Policy, expected: Pair, observed: Pair, durationMs: int, b: Budget)
    requires p.Valid() && AcceptableRequest(p, expected, durationMs)
    ensures var d := Decide(p, expected, observed, durationMs, b).value;
      var retrying := DirectionsAgree(expected, observed) && !Enough(p, expected, observed)
        && !Behind(p, expected, observed, Left) && !Behind(p, expected, observed, Right);
      var spent := Spent(p, expected, durationMs, Paired, b.pairRetryAttempts < p.maximumPairRetryAttempts, b);
      && (d.choice == RetryPair <==> retrying && !spent)
      && (d.choice == RetryPair ==> d.reason == PairedUndertravel && d.instruction.value.mode == Paired)
      && (retrying && spent ==> d.choice == Abort && d.instruction.None?)
  {
    var c, completion := CommandOf(expected, durationMs), CompletionOf(expected, observed);
    JudgedOnNumbers(p, expected, observed);
    LaggingIsBehind(p, expected, observed, Left);
    LaggingIsBehind(p, expected, observed, Right);
    RemainingOnNumbers(p, expected, observed, durationMs);
    if Lagging(p, observed, completion).None? && RetryDuration(p, c, observed) > 0 {
      InstructGivesUpExactly(p, expected, durationMs, completion, RetryPair, PairedUndertravel, Paired,
        RetryDuration(p, c, observed), b);
    }
  }

  lemma RemainingOnNumbers(p: Policy, expected: Pair, observed: Pair, durationMs: int)
    requires p.Valid() && AcceptableRequest(p, expected, durationMs)
    ensures RetryDuration(p, CommandOf(expected, durationMs), observed) == 0 <==> Enough(p, expected, observed)
  {
    var c := CommandOf(expected, durationMs);
    RemainingMeansIncomplete(p, c, observed, Left);
    RemainingMeansIncomplete(p, c, observed, Right);
    DurationIsNatural(c, Left, Remaining(p, c, observed, Left));
    DurationIsNatural(c, Right, Remaining(p, c, observed, Right));
    FloorReaches(Abs(observed.left) * 100, Abs(expected.left), p.acceptableCompletionPercent);
    FloorReaches(Abs(observed.right) * 100, Abs(expected.right), p.acceptableCompletionPercent);
  }

  // ------------------------------------------------------------------- budget

  predicate Within(p: Policy, b: Budget) {
    && b.catchUpAttempts <= p.maximumCatchUpAttempts
    && b.pairRetryAttempts <= p.maximumPairRetryAttempts
    && b.TotalAttempts() <= p.maximumTotalAttempts
    && b.durationMs <= p.maximumTotalDurationMs
    && b.encoderDegrees <= p.maximumTotalEncoderDegrees
  }

  /** One executed decision spends exactly one attempt and stays within every
      limit; a decision without an instruction spends nothing. */
  lemma ExecutionStaysWithin(p: Policy, expected: Pair, observed: Pair, durationMs: int, b: Budget)
    requires p.Valid() && Within(p, b) && AcceptableRequest(p, expected, durationMs)
    ensures var d := Decide(p, expected, observed, durationMs, b).value;
      && Within(p, d.budgetAfterIfExecuted)
      && (d.instruction.None? ==> d.budgetAfterIfExecuted == b)
      && (d.instruction.Some? ==> d.budgetAfterIfExecuted.TotalAttempts() == b.TotalAttempts() + 1)
      && (d.instruction.Some? <==> d.choice == CatchUp || d.choice == RetryPair)
      && (d.instruction.Some? ==> d.instruction.value.durationMs <= p.maximumStepDurationMs)
  {
    var c := CommandOf(expected, durationMs);
    var d := Decide(p, expected, observed, durationMs, b).value;
    if d.instruction.Some? {
      var i := d.instruction.value;
      var desired := if d.choice == CatchUp then CatchUpDuration(c, observed, i.mode.side) else RetryDuration(p, c, observed);
      LongestIsMaximal(p, c, i.mode, desired, b, 0);
      CostIsTarget(c, i.mode, i.durationMs);
    }
  }

  /** An executed instruction is charged for exactly its duration. */
  lemma DecisionSpends(p: Policy, expected: Pair, observed: Pair, durationMs: int, b: Budget)
    requires p.Valid() && AcceptableRequest(p, expected, durationMs)
    ensures var d := Decide(p, expected, observed, durationMs, b).value;
      d.instruction.Some? ==> d.budgetAfterIfExecuted.durationMs == b.durationMs + d.instruction.value.durationMs
    ensures var d := Decide(p, expected, observed, durationMs, b).value;
      d.completion == CompletionOf(expected, observed)
  {
  }

  datatype Evidence = Evidence(expected: Pair, observed: Pair, durationMs: int)

  /** The budget after executing every instruction of a run of decisions. */
  function BudgetAfter(p: Policy, run: seq<Evidence>): Budget
    requires p.Valid()
  {
    if run == [] then EMPTY_BUDGET
    else
      var e := run[|run| - 1];
      var b := BudgetAfter(p, run[..|run| - 1]);
      var d := Decide(p, e.expected, e.observed, e.durationMs, b);
      if d.None? then b else d.value.budgetAfterIfExecuted
  }

  /** Over any sequence of executed decisions no total ever exceeds its limit. */
  lemma {:induction false} BudgetNeverExceeded(p: Policy, run: seq<Evidence>)
    requires p.Valid()
    ensures Within(p, BudgetAfter(p, run))
  {
    if run != [] {
      var e := run[|run| - 1];
      var b := BudgetAfter(p, run[..|run| - 1]);
      BudgetNeverExceeded(p, run[..|run| - 1]);
      if Decide(p, e.expected, e.observed, e.durationMs, b).Some? {
        ExecutionStaysWithin(p, e.expected, e.observed, e.durationMs, b);
      }
    }
  }

  // -------------------------------------------------- what NO_RECOVERY means

  lemma RemainingMeansIncomplete(p: Policy, c: Command, observed: Pair, side: Side)
    requires p.Valid() && c.Valid()
    ensures Remaining(p, c, observed, side) == 0 <==>
      Completion(c.expected.At(side), observed.At(side)) >= p.acceptableCompletionPercent
  {
    var e, o, a := c.expected.At(side), Abs(observed.At(side)), p.acceptableCompletionPercent;
    CeilDivIsLeast(e * a, 100, o);
    FloorReaches(o * 100, e, a);
    assert e * a == a * e;
  }

  /** NO_RECOVERY is returned exactly for agreeing directions and enough travel on
      both wheels that is balanced, or out of balance with neither wheel behind. */
  lemma NoRecoveryMeaning(p: Policy, expected: Pair, observed: Pair, durationMs: int, b: Budget)
    requires p.Valid() && AcceptableRequest(p, expected, durationMs)
    ensures Decide(p, expected, observed, durationMs, b).value.choice == NoRecovery <==>
      && DirectionsAgree(expected, observed) && Enough(p, expected, observed)
      && (Balanced(p, expected, observed)
          || (!Behind(p, expected, observed, Left) && !Behind(p, expected, observed, Right)))
    ensures Decide(p, expected, observed, durationMs, b).value.reason == EncoderDirectionMismatch <==>
      !DirectionsAgree(expected, observed)
    ensures !DirectionsAgree(expected, observed) ==> Decide(p, expected, observed, durationMs, b).value.choice == Abort
  {
    JudgedOnNumbers(p, expected, observed);
    LaggingIsBehind(p, expected, observed, Left);
    LaggingIsBehind(p, expected, observed, Right);
    RemainingOnNumbers(p, expected, observed, durationMs);
  }

  /** A wheel that never started cannot have reached the acceptable share when
      the policy demands enough of it. */
  lemma UnstartedIsIncomplete(p: Policy, expected: int, observed: int)
    requires p.Valid() && p.minimumProgressDegrees * (100 - p.acceptableCompletionPercent) < 100
    requires expected >= p.minimumProgressDegrees && !Started(p, observed)
    ensures Completion(expected, observed) < p.acceptableCompletionPercent
  {
    var m, a, o := p.minimumProgressDegrees, p.acceptableCompletionPercent, Abs(observed);
    ScaleOrder(m, expected, a);
    assert m * (100 - a) == m * 100 - m * a;
    assert o * 100 < expected * a;
    FloorReaches(o * 100, expected, a);
  }

  /** For such policies NO_RECOVERY does mean the command was satisfied. */
  lemma NoRecoveryMeansSatisfied(p: Policy, expected: Pair, observed: Pair, durationMs: int, b: Budget)
    requires p.Valid() && AcceptableRequest(p, expected, durationMs)
    requires p.minimumProgressDegrees * (100 - p.acceptableCompletionPercent) < 100
    ensures Decide(p, expected, observed, durationMs, b).value.choice == NoRecovery <==>
      && DirectionsAgree(expected, observed) && Enough(p, expected, observed) && Balanced(p, expected, observed)
    ensures Decide(p, expected, observed, durationMs, b).value.choice == NoRecovery <==>
      DirectionsAgree(expected, observed) && Satisfied(p, CompletionOf(expected, observed))
  {
    NoRecoveryMeaning(p, expected, observed, durationMs, b);
    JudgedOnNumbers(p, expected, observed);
    if !Started(p, observed.left) {
      UnstartedIsIncomplete(p, Abs(expected.left), observed.left);
    }
    if !Started(p, observed.right) {
      UnstartedIsIncomplete(p, Abs(expected.right), observed.right);
    }
    FloorReaches(Abs(observed.left) * 100, Abs(expected.left), p.acceptableCompletionPercent);
    FloorReaches(Abs(observed.right) * 100, Abs(expected.right), p.acceptableCompletionPercent);
  }

  /** Without that condition the guard is reachable: this valid policy reports a
      satisfied command at 60 against 90 percent with a 20 percent skew limit. */
  lemma NoRecoveryCanBeUnbalanced()
    ensures var p := Policy(10, 10, 50, 20, 2, 1, 3, 800, 1600, 400);
      && p.Valid()
      && Decide(p, Pair(10, 10), Pair(6, 9), 250, EMPTY_BUDGET).value.choice == NoRecovery
      && !Satisfied(p, CompletionOf(Pair(10, 10), Pair(6, 9)))
  {
    var p := Policy(10, 10, 50, 20, 2, 1, 3, 800, 1600, 400);
    assert CompletionOf(Pair(10, 10), Pair(6, 9)) == Pair(60, 90);
    assert CommandOf(Pair(10, 10), 250) == Command(Pair(10, 10), 250);
    NoRecoveryMeaning(p, Pair(10, 10), Pair(6, 9), 250, EMPTY_BUDGET);
  }
}
