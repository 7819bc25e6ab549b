/** Exclusive goal ownership as a state machine: what each call on the goal lease
    coordinator may do to what it grants (src/robot_agent/autonomy_authority.py).

    Leases, reservations and guards are identified by their generation, which is
    unique among the objects the coordinator itself has issued. `None` stands for
    an object it never issued. */
module AuthorityState {
  import opened Common

  datatype Owner = Idle | User

  datatype Lease = Lease(owner: Owner, generation: nat, epoch: int, revision: int, cancelled: bool)

  datatype State = State(
    idleEnabled: bool,
    faulted: bool,
    active: Option<Lease>,
    pending: Option<nat>,
    guard: Option<nat>,
    generation: nat,
    nextEpoch: int,
    nextRevision: int,
    cancelledClaims: set<nat>,
    activatedClaims: set<nat>)

  datatype Op =
    | SetIdle(enabled: bool)
    | AcquireIdle
    /** `repeated` says the pending claim carries the same request id. */
    | Reserve(repeated: bool)
    | CancelClaim(claim: Option<nat>)
    | Activate(claim: Option<nat>)
    | BeginRearm
    | FinishRearm(guard: Option<nat>)
    | Release(lease: Option<nat>, safe: bool)
    /** Any holder of a lease may set its cancel event. */
    | CancelLease(lease: Option<nat>)

  function Start(epoch: int, revision: int, idleEnabled: bool): State {
    State(idleEnabled, false, None, None, None, 0, epoch, revision, {}, {})
  }

  function Cancelled(active: Option<Lease>): Option<Lease> {
    if active.Some? then Some(active.value.(cancelled := true)) else None
  }

  function Allocate(s: State, owner: Owner): State {
    s.(active := Some(Lease(owner, s.generation + 1, s.nextEpoch, s.nextRevision, false)),
       generation := s.generation + 1, nextEpoch := s.nextEpoch + 1, nextRevision := s.nextRevision + 1)
  }

  predicate Quiet(s: State) {
    !s.faulted && s.active.None? && s.pending.None? && s.guard.None?
  }

  predicate Holds(s: State, lease: Option<nat>) {
    lease.Some? && s.active.Some? && s.active.value.generation == lease.value
  }

  /** One call, whether it returns or raises. */
  function Step(s: State, op: Op): State {
    match op
    case SetIdle(enabled) =>
      if enabled && s.guard.Some? then s
      else if !enabled && s.active.Some? && s.active.value.owner == Idle
      then s.(idleEnabled := enabled, active := Cancelled(s.active))
      else s.(idleEnabled := enabled)
    case AcquireIdle => if s.idleEnabled && Quiet(s) then Allocate(s, Idle) else s
    case Reserve(_) =>
      if s.guard.Some? || s.faulted || s.pending.Some? || (s.active.Some? && s.active.value.owner == User) then s
      else s.(pending := Some(s.generation + 1), generation := s.generation + 1, active := Cancelled(s.active))
    case CancelClaim(claim) =>
      if claim.Some? && s.pending == claim
      then s.(pending := None, cancelledClaims := s.cancelledClaims + {claim.value}) else s
    case Activate(claim) =>
      if s.guard.Some? || s.faulted || claim.None? || s.pending != claim || s.active.Some? then s
      else Allocate(s.(pending := None, activatedClaims := s.activatedClaims + {claim.value}), User)
    case BeginRearm =>
      if !s.idleEnabled && Quiet(s) then s.(guard := Some(s.generation + 1), generation := s.generation + 1) else s
    case FinishRearm(guard) => if guard.Some? && s.guard == guard then s.(guard := None) else s
    case Release(lease, safe) =>
      if !Holds(s, lease) then s
      else if safe then s.(active := None)
      else s.(active := None, faulted := true, pending := None)
    case CancelLease(lease) => if Holds(s, lease) then s.(active := Cancelled(s.active)) else s
  }

  function Run(s: State, ops: seq<Op>): State {
    if ops == [] then s else Step(Run(s, ops[..|ops| - 1]), ops[|ops| - 1])
  }

  // ------------------------------------------------------------ the invariant

  /** What excludes what, in every reachable state. */
  predicate Consistent(s: State) {
    && (s.pending.Some? && s.active.Some? ==> s.active.value.owner == Idle && s.active.value.cancelled)
    && (s.guard.Some? ==> s.active.None? && s.pending.None? && !s.idleEnabled)
    && (s.faulted ==> s.active.None? && s.pending.None?)
    && (s.active.Some? && s.active.value.owner == Idle && !s.idleEnabled ==> s.active.value.cancelled)
    && (s.active.Some? ==>
          && s.active.value.generation <= s.generation
          && s.active.value.epoch < s.nextEpoch
          && s.active.value.revision < s.nextRevision)
    && (s.pending.Some? ==> s.pending.value <= s.generation)
    && ClaimsSettledOnce(s)
  }

  /** A claim is pending, cancelled or activated, and never two of them. */
  predicate ClaimsSettledOnce(s: State) {
    && s.cancelledClaims !! s.activatedClaims
    && (s.pending.Some? ==> s.pending.value !in s.cancelledClaims && s.pending.value !in s.activatedClaims)
    && (forall g :: g in s.cancelledClaims ==> g <= s.generation)
    && (forall g :: g in s.activatedClaims ==> g <= s.generation)
  }

  lemma StepIsConsistent(s: State, op: Op)
    requires Consistent(s)
    ensures Consistent(Step(s, op))
  {
  }

  /** In every reachable state a pending user claim beside an active lease means a
      cancelled idle lease, a re-arm guard excludes every claim, lease and enabled
      idle, a fault grants nothing, and no claim is settled twice. */
  lemma {:induction false} ReachableIsConsistent(epoch: int, revision: int, idleEnabled: bool, ops: seq<Op>)
    ensures Consistent(Run(Start(epoch, revision, idleEnabled), ops))
  {
    if ops != [] {
      ReachableIsConsistent(epoch, revision, idleEnabled, ops[..|ops| - 1]);
      StepIsConsistent(Run(Start(epoch, revision, idleEnabled), ops[..|ops| - 1]), ops[|ops| - 1]);
    }
  }

  // ------------------------------------------------------------- no way back

  /** Whether the step hands out a new lease. */
  predicate Grants(s: State, op: Op) {
    Step(s, op).active.Some? && !Holds(s, Some(Step(s, op).active.value.generation))
  }

  /** A fault survives every sequence of calls, and nothing is granted after it. */
  lemma {:induction false} FaultIsPermanent(s: State, ops: seq<Op>, next: Op)
    requires Consistent(s) && s.faulted
    ensures Consistent(Run(s, ops)) && Run(s, ops).faulted && Run(s, ops).active.None? && !Grants(Run(s, ops), next)
    decreases |ops|
  {
    if ops != [] {
      FaultIsPermanent(s, ops[..|ops| - 1], ops[|ops| - 1]);
      StepIsConsistent(Run(s, ops[..|ops| - 1]), ops[|ops| - 1]);
    }
  }

  /** The idle lease with this generation may still create goals. */
  predicate CurrentIdle(s: State, g: nat) {
    && s.active.Some? && s.active.value.generation == g && s.active.value.owner == Idle
    && s.idleEnabled && !s.faulted && s.pending.None? && !s.active.value.cancelled
  }

  lemma StepRevivesNothing(s: State, op: Op, g: nat)
    requires Consistent(s) && g <= s.generation && !CurrentIdle(s, g)
    ensures !CurrentIdle(Step(s, op), g) && g <= Step(s, op).generation
  {
  }

  /** Once an idle lease is no longer current it never becomes current again. */
  lemma {:induction false} NeverCurrentAgain(s: State, ops: seq<Op>, g: nat)
    requires Consistent(s) && g <= s.generation && !CurrentIdle(s, g)
    ensures !CurrentIdle(Run(s, ops), g)
    ensures Consistent(Run(s, ops)) && g <= Run(s, ops).generation
  {
    if ops != [] {
      var before := Run(s, ops[..|ops| - 1]);
      NeverCurrentAgain(s, ops[..|ops| - 1], g);
      StepIsConsistent(before, ops[|ops| - 1]);
      StepRevivesNothing(before, ops[|ops| - 1], g);
    }
  }

  lemma StepGrowsCounters(s: State, op: Op)
    requires Consistent(s)
    ensures var t := Step(s, op);
      && s.generation <= t.generation && s.nextEpoch <= t.nextEpoch && s.nextRevision <= t.nextRevision
      && (Grants(s, op) ==>
            var lease := t.active.value;
            lease.generation > s.generation && lease.epoch == s.nextEpoch && lease.revision == s.nextRevision
            && t.nextEpoch == s.nextEpoch + 1 && t.nextRevision == s.nextRevision + 1)
  {
  }

  lemma {:induction false} RunGrowsCounters(s: State, ops: seq<Op>)
    requires Consistent(s)
    ensures var t := Run(s, ops);
      Consistent(t) && s.generation <= t.generation && s.nextEpoch <= t.nextEpoch && s.nextRevision <= t.nextRevision
  {
    if ops != [] {
      RunGrowsCounters(s, ops[..|ops| - 1]);
      StepIsConsistent(Run(s, ops[..|ops| - 1]), ops[|ops| - 1]);
      StepGrowsCounters(Run(s, ops[..|ops| - 1]), ops[|ops| - 1]);
    }
  }

  /** A lease granted later carries a larger generation, epoch and revision. */
  lemma LeasesIncrease(s: State, first: Op, between: seq<Op>, second: Op)
    requires Consistent(s) && Grants(s, first) && Grants(Run(Step(s, first), between), second)
    ensures var a, b := Step(s, first).active.value, Step(Run(Step(s, first), between), second).active.value;
      a.generation < b.generation && a.epoch < b.epoch && a.revision < b.revision
  {
    StepIsConsistent(s, first);
    StepGrowsCounters(s, first);
    RunGrowsCounters(Step(s, first), between);
    StepGrowsCounters(Run(Step(s, first), between), second);
  }

  lemma StepKeepsSettled(s: State, op: Op)
    ensures s.cancelledClaims <= Step(s, op).cancelledClaims && s.activatedClaims <= Step(s, op).activatedClaims
  {
  }

  /** A cancelled claim can never be activated afterwards. */
  lemma {:induction false} CancelledStaysCancelled(s: State, ops: seq<Op>, g: nat)
    requires Consistent(s) && g in s.cancelledClaims
    ensures g in Run(s, ops).cancelledClaims && g !in Run(s, ops).activatedClaims
    ensures Consistent(Run(s, ops))
  {
    if ops != [] {
      var before := Run(s, ops[..|ops| - 1]);
      CancelledStaysCancelled(s, ops[..|ops| - 1], g);
      StepIsConsistent(before, ops[|ops| - 1]);
      StepKeepsSettled(before, ops[|ops| - 1]);
    }
  }

  // -------------------------------------------------------- abandoned leases

  /** No lease can be granted: the authority is faulted, or the lease that is
      active belongs to a holder that will not release it. */
  predicate Blocked(s: State, g: nat) {
    s.faulted || (s.active.Some? && s.active.value.generation == g)
  }

  predicate ReleasedBy(op: Op, g: nat) {
    op.Release? && op.lease == Some(g)
  }

  lemma BlockedStep(s: State, op: Op, g: nat)
    requires Consistent(s) && Blocked(s, g) && !ReleasedBy(op, g)
    ensures Consistent(Step(s, op)) && Blocked(Step(s, op), g) && !Grants(s, op)
  {
    StepIsConsistent(s, op);
  }

  /** Without a release by that holder, nothing is granted ever again: neither by
      any of the calls nor by the one after them. */
  lemma {:induction false} BlockedGrantsNothing(s: State, ops: seq<Op>, next: Op, g: nat)
    requires Consistent(s) && Blocked(s, g) && !ReleasedBy(next, g)
    requires forall i :: 0 <= i < |ops| ==> !ReleasedBy(ops[i], g)
    ensures Consistent(Run(s, ops)) && Blocked(Run(s, ops), g) && !Grants(Run(s, ops), next)
    decreases |ops|
  {
    if ops != [] {
      BlockedGrantsNothing(s, ops[..|ops| - 1], ops[|ops| - 1], g);
      BlockedStep(Run(s, ops[..|ops| - 1]), ops[|ops| - 1], g);
    }
    BlockedStep(Run(s, ops), next, g);
  }
}
