/** The goal lease coordinator and the idle task's release paths
    (src/robot_agent/autonomy_authority.py, src/robot_agent/autonomy_task.py).

    Leases, reservations and guards are compared by object identity, as in the
    source. Every method is atomic: the source holds one lock around each. */
module GoalAuthority {
  import opened Common
  import opened AuthorityState

  class GoalLease {
    const owner: Owner
    const generation: nat
    const goalEpoch: int
    const planRevision: int
    var cancelled: bool

    constructor (owner: Owner, generation: nat, goalEpoch: int, planRevision: int)
      ensures this.owner == owner && this.generation == generation && !cancelled
      ensures this.goalEpoch == goalEpoch && this.planRevision == planRevision
    {
      this.owner, this.generation := owner, generation;
      this.goalEpoch, this.planRevision, cancelled := goalEpoch, planRevision, false;
    }
  }

  class UserGoalReservation {
    const requestId: int
    const generation: nat

    constructor (requestId: int, generation: nat)
      ensures this.requestId == requestId && this.generation == generation
    {
      this.requestId, this.generation := requestId, generation;
    }
  }

  class IdleDutyRearmGuard {
    const generation: nat

    constructor (generation: nat)
      ensures this.generation == generation
    {
      this.generation := generation;
    }
  }

  /** The part of a final navigation snapshot a release looks at. */
  datatype FinalSnapshot = FinalSnapshot(
    ours: bool,
    goalEpoch: int,
    planRevision: int,
    motorsRunning: bool,
    touchPressed: bool,
    faults: bool)

  /** Whether the snapshot proves the lease's motion ended safely. */
  predicate SafeFor(lease: GoalLease, final: FinalSnapshot, stopVerified: bool) {
    && stopVerified && final.ours
    && final.goalEpoch == lease.goalEpoch && final.planRevision == lease.planRevision
    && !final.motorsRunning && !final.touchPressed && !final.faults
  }

  datatype Settled = Now | Already | Refused

  class GoalLeaseCoordinator {
    var idleEnabled: bool
    var faulted: bool
    var active: GoalLease?
    var pendingUser: UserGoalReservation?
    var idleRearmGuard: IdleDutyRearmGuard?
    var generation: nat
    var nextGoalEpoch: int
    var nextPlanRevision: int
    var cancelledUsers: set<UserGoalReservation>
    var activatedUsers: set<UserGoalReservation>
    /** Everything this coordinator has issued. */
    ghost var leases: map<nat, GoalLease>
    ghost var claims: map<nat, UserGoalReservation>
    ghost var guards: map<nat, IdleDutyRearmGuard>

    ghost predicate Valid()
      reads this, active
    {
      && (active != null ==> LeaseToken(active) == Some(active.generation))
      && (pendingUser != null ==> ClaimToken(pendingUser) == Some(pendingUser.generation))
      && (idleRearmGuard != null ==> GuardToken(idleRearmGuard) == Some(idleRearmGuard.generation))
      && (forall c :: c in cancelledUsers + activatedUsers ==> ClaimToken(c) == Some(c.generation))
      && (forall g :: g in leases || g in claims || g in guards ==> g <= generation)
      && Consistent(Abstract())
    }

    ghost function Abstract(): State
      reads this, active
    {
      State(idleEnabled, faulted,
            if active == null then None
            else Some(Lease(active.owner, active.generation, active.goalEpoch, active.planRevision, active.cancelled)),
            if pendingUser == null then None else Some(pendingUser.generation),
            if idleRearmGuard == null then None else Some(idleRearmGuard.generation),
            generation, nextGoalEpoch, nextPlanRevision,
            Generations(cancelledUsers), Generations(activatedUsers))
    }

    static ghost function Generations(claims: set<UserGoalReservation>): set<nat> {
      set c | c in claims :: c.generation
    }

    ghost function ClaimToken(c: UserGoalReservation): Option<nat>
      reads this
    {
      if c.generation in claims && claims[c.generation] == c then Some(c.generation) else None
    }

    ghost function LeaseToken(l: GoalLease): Option<nat>
      reads this
    {
      if l.generation in leases && leases[l.generation] == l then Some(l.generation) else None
    }

    ghost function GuardToken(g: IdleDutyRearmGuard): Option<nat>
      reads this
    {
      if g.generation in guards && guards[g.generation] == g then Some(g.generation) else None
    }

    constructor (startingGoalEpoch: int, startingPlanRevision: int, idleEnabled: bool)
      ensures Valid() && Abstract() == Start(startingGoalEpoch, startingPlanRevision, idleEnabled)
    {
      this.idleEnabled, faulted := idleEnabled, false;
      active, pendingUser, idleRearmGuard := null, null, null;
      generation, nextGoalEpoch, nextPlanRevision := 0, startingGoalEpoch, startingPlanRevision;
      cancelledUsers, activatedUsers := {}, {};
      leases, claims, guards := map[], map[], map[];
    }

    method Allocate(owner: Owner) returns (lease: GoalLease)
      modifies `generation, `nextGoalEpoch, `nextPlanRevision, `active, `leases
      ensures fresh(lease) && active == lease && !lease.cancelled && lease.owner == owner
      ensures lease.generation == old(generation) + 1 == generation
      ensures lease.goalEpoch == old(nextGoalEpoch) && nextGoalEpoch == old(nextGoalEpoch) + 1
      ensures lease.planRevision == old(nextPlanRevision) && nextPlanRevision == old(nextPlanRevision) + 1
      ensures leases == old(leases)[lease.generation := lease]
    {
      generation := generation + 1;
      lease := new GoalLease(owner, generation, nextGoalEpoch, nextPlanRevision);
      nextGoalEpoch, nextPlanRevision := nextGoalEpoch + 1, nextPlanRevision + 1;
      active := lease;
      leases := leases[generation := lease];
    }

    method SetIdleEnabled(enabled: bool) returns (raised: bool)
      requires Valid()
      modifies this, active
      ensures Valid() && Abstract() == Step(old(Abstract()), SetIdle(enabled))
      ensures raised <==> enabled && old(idleRearmGuard) != null
      ensures active == old(active)
    {
      StepIsConsistent(Abstract(), SetIdle(enabled));
      if enabled && idleRearmGuard != null {
        return true;
      }
      idleEnabled := enabled;
      if !enabled && active != null && active.owner == Idle {
        active.cancelled := true;
      }
      return false;
    }

    method TryAcquireIdle() returns (lease: GoalLease?)
      requires Valid()
      modifies this
      ensures Valid() && Abstract() == Step(old(Abstract()), AcquireIdle)
      ensures lease != null <==> old(idleEnabled) && Quiet(old(Abstract()))
      ensures lease == null ==> unchanged(this)
      ensures lease != null ==> fresh(lease) && lease == active && lease.owner == Idle && !lease.cancelled
      ensures lease != null ==>
        && lease.generation == old(generation) + 1
        && lease.goalEpoch == old(nextGoalEpoch) && lease.planRevision == old(nextPlanRevision)
    {
      StepIsConsistent(Abstract(), AcquireIdle);
      if !idleEnabled || faulted || active != null || pendingUser != null || idleRearmGuard != null {
        return null;
      }
      lease := Allocate(Idle);
    }

    /** A repeated request id returns the same reservation. */
    method ReserveUser(requestId: int) returns (r: UserGoalReservation?)
      requires Valid()
      modifies this, active
      ensures Valid()
      ensures Abstract() == Step(old(Abstract()), Reserve(old(pendingUser) != null && old(pendingUser).requestId == requestId))
      ensures r != null ==> r == pendingUser && r.requestId == requestId && r !in cancelledUsers && r !in activatedUsers
      ensures r != null && active != null ==> active.cancelled
      ensures active == old(active)
      ensures r == null <==>
        || old(idleRearmGuard) != null || old(faulted)
        || (if old(pendingUser) != null then old(pendingUser).requestId != requestId
            else old(active) != null && old(active).owner == User)
    {
      ghost var op := Reserve(pendingUser != null && pendingUser.requestId == requestId);
      StepIsConsistent(Abstract(), op);
      SettledAreGenerations();
      if idleRearmGuard != null || faulted {
        return null;
      }
      if pendingUser != null {
        return if pendingUser.requestId == requestId then pendingUser else null;
      }
      if active != null && active.owner == User {
        return null;
      }
      generation := generation + 1;
      r := new UserGoalReservation(requestId, generation);
      pendingUser := r;
      claims := claims[generation := r];
      if active != null {
        active.cancelled := true;
      }
    }

    lemma SettledAreGenerations()
      requires Valid()
      ensures pendingUser != null ==> pendingUser !in cancelledUsers && pendingUser !in activatedUsers
      ensures cancelledUsers !! activatedUsers
    {
      assert forall c :: c in cancelledUsers ==> c.generation in Generations(cancelledUsers);
      assert forall c :: c in activatedUsers ==> c.generation in Generations(activatedUsers);
    }

    lemma GenerationsGrow(claims: set<UserGoalReservation>, c: UserGoalReservation)
      ensures Generations(claims + {c}) == Generations(claims) + {c.generation}
    {
      assert c in claims + {c};
      forall g | g in Generations(claims) + {c.generation}
        ensures g in Generations(claims + {c})
      {
        if g != c.generation {
          var d :| d in claims && d.generation == g;
          assert d in claims + {c};
        }
      }
    }

    /** The pending claim is cancelled once; a retry is told so. */
    method CancelUserReservation(reservation: UserGoalReservation) returns (r: Settled)
      requires Valid()
      modifies this
      ensures Valid() && Abstract() == Step(old(Abstract()), CancelClaim(old(ClaimToken(reservation))))
      ensures r == Now <==> reservation == old(pendingUser)
      ensures r == Already <==> reservation in old(cancelledUsers)
      ensures r == Now ==> reservation in cancelledUsers
      ensures active == old(active)
    {
      StepIsConsistent(Abstract(), CancelClaim(ClaimToken(reservation)));
      SettledAreGenerations();
      if pendingUser == reservation {
        GenerationsGrow(cancelledUsers, reservation);
        pendingUser := null;
        cancelledUsers := cancelledUsers + {reservation};
        return Now;
      }
      return if reservation in cancelledUsers then Already else Refused;
    }

    method MarkActivated(reservation: UserGoalReservation)
      requires Valid() && pendingUser == reservation
      modifies `pendingUser, `activatedUsers
      ensures Valid()
      ensures Abstract() == old(Abstract()).(
        pending := None, activatedClaims := old(Abstract()).activatedClaims + {reservation.generation})
    {
      GenerationsGrow(activatedUsers, reservation);
      pendingUser := null;
      activatedUsers := activatedUsers + {reservation};
    }

    /** A pending claim becomes a lease once the previous owner has safely stopped. */
    method ActivateUser(reservation: UserGoalReservation) returns (lease: GoalLease?)
      requires Valid()
      modifies this
      ensures Valid() && Abstract() == Step(old(Abstract()), Activate(old(ClaimToken(reservation))))
      ensures lease != null ==> fresh(lease) && lease == active && lease.owner == User && reservation == old(pendingUser)
      ensures lease == null ==> unchanged(this)
      ensures lease != null ==> !old(faulted) && old(active) == null && old(idleRearmGuard) == null
    {
      StepIsConsistent(Abstract(), Activate(ClaimToken(reservation)));
      if idleRearmGuard != null || faulted || pendingUser != reservation || active != null {
        return null;
      }
      MarkActivated(reservation);
      lease := Allocate(User);
    }

    method BeginIdleDutyRearm() returns (guard: IdleDutyRearmGuard?)
      requires Valid()
      modifies this
      ensures Valid() && Abstract() == Step(old(Abstract()), BeginRearm)
      ensures guard != null <==> !old(idleEnabled) && Quiet(old(Abstract()))
      ensures active == old(active)
    {
      StepIsConsistent(Abstract(), BeginRearm);
      if idleEnabled || faulted || active != null || pendingUser != null || idleRearmGuard != null {
        return null;
      }
      generation := generation + 1;
      guard := new IdleDutyRearmGuard(generation);
      idleRearmGuard := guard;
      guards := guards[generation := guard];
    }

    method FinishIdleDutyRearm(guard: IdleDutyRearmGuard) returns (raised: bool)
      requires Valid()
      modifies this
      ensures Valid() && Abstract() == Step(old(Abstract()), FinishRearm(old(GuardToken(guard))))
      ensures raised <==> old(idleRearmGuard) != guard
      ensures active == old(active)
    {
      StepIsConsistent(Abstract(), FinishRearm(GuardToken(guard)));
      if idleRearmGuard != guard {
        return true;
      }
      idleRearmGuard := null;
      return false;
    }

    predicate IsCurrentIdle(lease: GoalLease)
      reads this, lease
    {
      active == lease && lease.owner == Idle && idleEnabled && !faulted && pendingUser == null && !lease.cancelled
    }

    /** The object test agrees with the abstract one for every issued lease. */
    lemma CurrentIdleAgrees(lease: GoalLease)
      requires Valid() && LeaseToken(lease).Some?
      ensures IsCurrentIdle(lease) <==> CurrentIdle(Abstract(), lease.generation)
    {
    }

    /** Only a verified safe stop releases; anything else faults for good.
        `None` is a lease that is not active. */
    method Release(lease: GoalLease, final: FinalSnapshot, stopVerified: bool) returns (safe: Option<bool>)
      requires Valid()
      modifies this
      ensures Valid()
      ensures Abstract() == Step(old(Abstract()), Op.Release(old(LeaseToken(lease)), SafeFor(lease, final, stopVerified)))
      ensures safe.None? <==> old(active) != lease
      ensures safe.None? ==> unchanged(this)
      ensures safe.Some? ==> (faulted <==> !safe.value)
      ensures safe.Some? ==>
        (safe.value <==>
           && stopVerified && final.ours && !final.motorsRunning && !final.touchPressed && !final.faults
           && final.goalEpoch == lease.goalEpoch && final.planRevision == lease.planRevision)
    {
      StepIsConsistent(Abstract(), Op.Release(LeaseToken(lease), SafeFor(lease, final, stopVerified)));
      if active != lease {
        return None;
      }
      var ok := SafeFor(lease, final, stopVerified);
      active := null;
      if !ok {
        faulted := true;
        pendingUser := null;
      }
      return Some(ok);
    }
  }

  /** How one idle task ended; `Escaped` is an exception out of the task, before its
      lease was handed back or after. */
  datatype TaskResult =
    | Unavailable
    | Finished(generation: nat, terminalStopVerified: bool)
    | Escaped(generation: nat, released: bool)

  /** What a task has in hand at its end: a mission's final snapshot and stop verdict,
      or those of its own last stop, if it could take them. */
  datatype End = Mission(final: FinalSnapshot, stopVerified: bool) | NoMission(last: Option<FinalSnapshot>, stopped: bool)

  /** How a task fares: whether an exception escapes before its end or after it. */
  datatype Course = Course(escapes: bool, end: End, failsAfter: bool)

  /** The end proves that the motion of that epoch and revision ended safely. */
  ghost predicate EndsSafely(end: End, goalEpoch: int, planRevision: int) {
    var final := if end.Mission? then Some(end.final) else end.last;
    && (if end.Mission? then end.stopVerified else end.stopped)
    && final.Some? && final.value.ours
    && final.value.goalEpoch == goalEpoch && final.value.planRevision == planRevision
    && !final.value.motorsRunning && !final.value.touchPressed && !final.value.faults
  }

  /** The lease life cycle of `_run_task`. Selecting, planning and driving only
      decide which of its exits is taken. */
  class IdleTaskExecutor {
    const authority: GoalLeaseCoordinator

    constructor (authority: GoalLeaseCoordinator)
      ensures this.authority == authority
    {
      this.authority := authority;
    }

    /** Any call another caller may make while the task holds its lease, with any
        object of the right type, forged or outdated; only the lease itself is the
        task's to release. */
    method OthersAct(lease: GoalLease)
      requires authority.Valid() && authority.active == lease && lease.owner == Idle
      modifies authority, lease
      ensures authority.Valid() && authority.active == lease
    {
      var steps: nat :| true;
      while steps > 0
        invariant authority.Valid() && authority.active == lease
      {
        var kind: int := *;
        if kind <= 1 {
          OthersHold(lease);
        } else if kind == 2 {
          OthersRearm();
        } else {
          OthersClaim(lease);
        }
        steps := steps - 1;
      }
    }

    /** Cancel the lease, try to take another, or release one that is not active. */
    method OthersHold(lease: GoalLease)
      requires authority.Valid() && authority.active == lease && lease.owner == Idle
      modifies authority, lease
      ensures authority.Valid() && authority.active == lease
    {
      var kind: int, final: FinalSnapshot, stopVerified: bool := *, *, *;
      if kind == 0 {
        CancelLease(lease);
      } else if kind == 1 {
        var refused := authority.TryAcquireIdle();
      } else {
        var other := AnyLease();
        if other != null && other != lease {
          var refused := authority.Release(other, final, stopVerified);
        }
      }
    }

    /** The cancel event of a lease is open to everyone who holds the lease. */
    method CancelLease(lease: GoalLease)
      requires authority.Valid() && authority.active == lease
      modifies lease
      ensures authority.Valid() && lease.cancelled
      ensures authority.Abstract() == Step(old(authority.Abstract()), Op.CancelLease(Some(lease.generation)))
    {
      lease.cancelled := true;
    }

    method AnyLease() returns (lease: GoalLease?)
    {
      var forged: bool := *;
      if forged {
        var generation: nat :| true;
        var owner: Owner, epoch: int, revision: int := *, *, *;
        lease := new GoalLease(owner, generation, epoch, revision);
      } else {
        lease := *;
      }
    }

    method AnyGuard() returns (guard: IdleDutyRearmGuard?)
    {
      var forged: bool := *;
      if forged {
        var generation: nat :| true;
        guard := new IdleDutyRearmGuard(generation);
      } else {
        guard := *;
      }
    }

    method AnyReservation() returns (reservation: UserGoalReservation?)
    {
      var forged: bool := *;
      if forged {
        var requestId: int, generation: nat :| true;
        reservation := new UserGoalReservation(requestId, generation);
      } else {
        reservation := *;
      }
    }

    method OthersRearm()
      requires authority.Valid() && authority.active != null
      modifies authority
      ensures authority.Valid() && authority.active == old(authority.active)
    {
      var begin: bool := *;
      if begin {
        var refused := authority.BeginIdleDutyRearm();
        return;
      }
      var guard := AnyGuard();
      if guard != null {
        var raised := authority.FinishIdleDutyRearm(guard);
      }
    }

    method OthersClaim(lease: GoalLease)
      requires authority.Valid() && authority.active == lease && lease.owner == Idle
      modifies authority, lease
      ensures authority.Valid() && authority.active == lease
    {
      var kind: int, enabled: bool, requestId: int := *, *, *;
      if kind == 0 {
        var raised := authority.SetIdleEnabled(enabled);
      } else if kind == 1 {
        var claim := authority.ReserveUser(requestId);
      } else {
        var reservation := AnyReservation();
        if reservation != null {
          SettleClaim(reservation);
        }
      }
    }

    method SettleClaim(reservation: UserGoalReservation)
      requires authority.Valid() && authority.active != null
      modifies authority
      ensures authority.Valid() && authority.active == old(authority.active)
    {
      var cancel: bool := *;
      if cancel {
        var settled := authority.CancelUserReservation(reservation);
      } else {
        var refused := authority.ActivateUser(reservation);
      }
    }

    /** Stop, then hand the lease back; without any snapshot nothing is handed back. */
    method FinishWithoutMission(lease: GoalLease, final: Option<FinalSnapshot>, stopped: bool) returns (verified: bool)
      requires authority.Valid() && authority.active == lease
      modifies authority
      ensures authority.Valid()
      ensures verified <==> authority.active == null && !authority.faulted
      ensures verified <==> EndsSafely(NoMission(final, stopped), lease.goalEpoch, lease.planRevision)
      ensures !verified ==> Blocked(authority.Abstract(), lease.generation)
    {
      if final.None? {
        return false;
      }
      var released := authority.Release(lease, final.value, stopped);
      return released == Some(true);
    }

    /** A finished mission hands back its own final snapshot and stop verdict. */
    method ClassifyMission(lease: GoalLease, final: FinalSnapshot, stopVerified: bool) returns (verified: bool)
      requires authority.Valid() && authority.active == lease
      modifies authority
      ensures authority.Valid()
      ensures verified <==> authority.active == null && !authority.faulted
      ensures verified <==>
        && stopVerified && final.ours && !final.motorsRunning && !final.touchPressed && !final.faults
        && final.goalEpoch == lease.goalEpoch && final.planRevision == lease.planRevision
      ensures !verified ==> Blocked(authority.Abstract(), lease.generation)
    {
      var released := authority.Release(lease, final, stopVerified);
      return released == Some(true);
    }

    /** The reported verdict is true exactly when the authority was handed back. An
        exception after that leaves it handed back; on every other way out no
        further lease can be granted. */
    method RunTask(course: Course) returns (r: TaskResult)
      requires authority.Valid()
      modifies authority
      ensures authority.Valid()
      ensures r.Unavailable? ==> unchanged(authority)
      ensures r ==
        if !(old(authority.idleEnabled) && Quiet(old(authority.Abstract()))) then Unavailable
        else
          var generation := old(authority.generation) + 1;
          var safe := EndsSafely(course.end, old(authority.nextGoalEpoch), old(authority.nextPlanRevision));
          if course.escapes then Escaped(generation, false)
          else if course.failsAfter then Escaped(generation, safe) else Finished(generation, safe)
      ensures r.Finished? ==> (r.terminalStopVerified <==> authority.active == null && !authority.faulted)
      ensures r.Escaped? && r.released ==> authority.active == null && !authority.faulted
      ensures (r.Finished? && !r.terminalStopVerified) || (r.Escaped? && !r.released) ==>
        Blocked(authority.Abstract(), r.generation)
    {
      var lease := authority.TryAcquireIdle();
      if lease == null {
        return Unavailable;
      }
      OthersAct(lease);
      if course.escapes {
        return Escaped(lease.generation, false);
      }
      var verified: bool;
      match course.end {
        case Mission(final, stopVerified) =>
          verified := ClassifyMission(lease, final, stopVerified);
        case NoMission(last, stopped) =>
          verified := FinishWithoutMission(lease, last, stopped);
      }
      return if course.failsAfter then Escaped(lease.generation, verified) else Finished(lease.generation, verified);
    }
  }
}
