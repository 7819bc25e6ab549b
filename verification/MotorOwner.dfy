/** Stopping and starting motors under one owner (ev3/supervisor.py, `SupervisorMotorOwner`).

    A `Sweep` is everything one stop attempt meets: whether every brake and stop
    write succeeded, what the read-back showed, and whether the pause after it
    worked. The hardware chooses the sweeps. */
module MotorOwner {
  import opened Common

  datatype Sweep = Sweep(
    written: bool,
    readable: bool,
    inactive: bool,
    faultFree: bool,
    positions: seq<int>,
    slept: bool)
  {
    predicate Clean() {
      readable && inactive && faultFree
    }

    /** With no motors there is nothing that could fail to write or read. */
    predicate Of(motors: nat) {
      && (readable ==> |positions| == motors)
      && (motors == 0 ==> written && Clean())
    }
  }

  datatype StopResult = StopResult(confirmed: bool, errors: bool, faultTokens: bool) {
    predicate Verified() {
      confirmed && !errors
    }
  }

  /** Positions of the last readable sweep before attempt `k`. */
  function PreviousPositions(sweeps: seq<Sweep>, k: nat): Option<seq<int>>
    requires k <= |sweeps|
  {
    if k == 0 then None
    else if sweeps[k - 1].readable then Some(sweeps[k - 1].positions)
    else PreviousPositions(sweeps, k - 1)
  }

  predicate ConfirmsAt(sweeps: seq<Sweep>, k: nat)
    requires k < |sweeps|
  {
    && sweeps[k].readable && sweeps[k].inactive && sweeps[k].faultFree
    && PreviousPositions(sweeps, k) == Some(sweeps[k].positions)
  }

  predicate WritesFailed(sweeps: seq<Sweep>) {
    exists k :: 0 <= k < |sweeps| && !sweeps[k].written
  }

  /** A pause follows every attempt but the last one made. */
  predicate PausesFailed(sweeps: seq<Sweep>) {
    exists k :: 0 <= k < |sweeps| && !sweeps[k].slept
  }

  /** The attempts that are made: up to the first confirming one, or all. */
  predicate Attempted(sweeps: seq<Sweep>, used: nat, confirmed: bool) {
    && 1 <= used <= |sweeps|
    && (forall k :: 0 <= k < used - 1 ==> !ConfirmsAt(sweeps, k))
    && (confirmed <==> ConfirmsAt(sweeps, used - 1))
    && (!confirmed ==> used == |sweeps|)
  }

  lemma AnyOfLonger(sweeps: seq<Sweep>, last: Sweep)
    ensures WritesFailed(sweeps + [last]) <==> WritesFailed(sweeps) || !last.written
    ensures PausesFailed(sweeps + [last]) <==> PausesFailed(sweeps) || !last.slept
  {
    var longer := sweeps + [last];
    assert longer[|sweeps|] == last;
    if k :| 0 <= k < |sweeps| && !sweeps[k].written {
      assert !longer[k].written;
    }
    if k :| 0 <= k < |sweeps| && !sweeps[k].slept {
      assert !longer[k].slept;
    }
  }

  /** `stop_all_verified`. `listed` says that both the discovered and the
      configured motor paths could be listed. */
  method StopSweeps(motors: nat, listed: bool, sweeps: seq<Sweep>) returns (r: StopResult, used: nat)
    requires |sweeps| >= 2 && forall s :: s in sweeps ==> s.Of(motors)
    ensures Attempted(sweeps, used, r.confirmed)
    ensures r.errors <==>
      !listed || motors == 0 || !r.confirmed || WritesFailed(sweeps[..used]) || PausesFailed(sweeps[..used - 1])
    ensures r.faultTokens <==> !sweeps[used - 1].faultFree
  {
    var errors := !listed;
    var confirmed, faultTokens := false, false;
    var previous: Option<seq<int>> := None;
    used := 0;
    while used < |sweeps| && !confirmed
      invariant used <= |sweeps|
      invariant !confirmed ==> previous == PreviousPositions(sweeps, used)
      invariant forall k :: 0 <= k < (if confirmed then used - 1 else used) ==> !ConfirmsAt(sweeps, k)
      invariant confirmed ==> used > 0 && ConfirmsAt(sweeps, used - 1)
      invariant used > 0 ==> (faultTokens <==> !sweeps[used - 1].faultFree)
      invariant !confirmed && used < |sweeps| ==>
        (errors <==> !listed || WritesFailed(sweeps[..used]) || PausesFailed(sweeps[..used]))
      invariant confirmed ==>
        (errors <==> !listed || WritesFailed(sweeps[..used]) || PausesFailed(sweeps[..used - 1]))
    {
      var sweep := sweeps[used];
      assert sweeps[..used + 1] == sweeps[..used] + [sweep];
      AnyOfLonger(sweeps[..used], sweep);
      if !sweep.written {
        errors := true;
      }
      faultTokens := !sweep.faultFree;
      used := used + 1;
      if sweep.Clean() && previous == Some(sweep.positions) {
        confirmed := true;
      } else {
        if sweep.readable {
          previous := Some(sweep.positions);
        }
        if used < |sweeps| {
          errors := errors || !sweep.slept;
        } else if !sweep.readable {
          errors := true;
        }
      }
    }
    if !confirmed && motors > 0 {
      errors := true;
    }
    if motors == 0 {
      errors := true;
    }
    r := StopResult(confirmed, errors, faultTokens);
  }

  // ------------------------------------------------- what a verified stop means

  lemma {:induction false} PreviousIsReadable(sweeps: seq<Sweep>, k: nat)
    requires k <= |sweeps| && PreviousPositions(sweeps, k).Some?
    ensures exists j :: 0 <= j < k && sweeps[j].readable && sweeps[j].positions == PreviousPositions(sweeps, k).value
  {
    if !sweeps[k - 1].readable {
      PreviousIsReadable(sweeps, k - 1);
    }
  }

  /** Two readable sweeps saw the same positions, the later one clean. */
  ghost predicate SeenAtRest(sweeps: seq<Sweep>, motors: nat) {
    exists j, k :: 0 <= j < k < |sweeps| && AtRestBetween(sweeps[j], sweeps[k], motors)
  }

  predicate AtRestBetween(before: Sweep, after: Sweep, motors: nat) {
    && before.readable && after.readable && after.inactive && after.faultFree
    && before.positions == after.positions && |after.positions| == motors
  }

  /** A verified stop saw at least one motor at rest after writing every brake
      and stop command without a failure. */
  lemma VerifiedMeansAtRest(motors: nat, listed: bool, sweeps: seq<Sweep>, r: StopResult, used: nat)
    requires |sweeps| >= 2 && forall s :: s in sweeps ==> s.Of(motors)
    requires Attempted(sweeps, used, r.confirmed)
    requires r.errors <==>
      !listed || motors == 0 || !r.confirmed || WritesFailed(sweeps[..used]) || PausesFailed(sweeps[..used - 1])
    requires r.faultTokens <==> !sweeps[used - 1].faultFree
    ensures r.Verified() ==>
      && motors > 0 && listed && !r.faultTokens
      && SeenAtRest(sweeps[..used], motors)
      && (forall k :: 0 <= k < used ==> sweeps[k].written)
  {
    if r.Verified() {
      PreviousIsReadable(sweeps, used - 1);
      var j :| 0 <= j < used - 1 && sweeps[j].readable && sweeps[j].positions == sweeps[used - 1].positions;
      assert sweeps[used - 1] in sweeps;
      assert AtRestBetween(sweeps[..used][j], sweeps[..used][used - 1], motors);
      forall k | 0 <= k < used
        ensures sweeps[k].written
      {
        assert sweeps[..used][k] == sweeps[k];
      }
    }
  }

  /** With no motors at all the second attempt confirms the stop; only the error
      list keeps it from counting as verified. */
  lemma NoMotorsStillConfirm(sweeps: seq<Sweep>, used: nat, confirmed: bool)
    requires |sweeps| >= 2 && forall s :: s in sweeps ==> s.Of(0)
    requires Attempted(sweeps, used, confirmed)
    ensures confirmed && used == 2
  {
    assert sweeps[0] in sweeps && sweeps[1] in sweeps;
    assert sweeps[0].positions == sweeps[1].positions == [];
    assert PreviousPositions(sweeps, 1) == Some([]);
    assert ConfirmsAt(sweeps, 1) && !ConfirmsAt(sweeps, 0);
  }

  /** A robot at rest whose motors answer is confirmed in two attempts. */
  lemma RestIsConfirmed(motors: nat, rest: Sweep, sweeps: seq<Sweep>, used: nat, confirmed: bool)
    requires |sweeps| >= 2 && rest.Of(motors) && rest.readable && rest.inactive && rest.faultFree
    requires forall s :: s in sweeps ==> s == rest
    requires Attempted(sweeps, used, confirmed)
    ensures confirmed && used == 2
    ensures rest.written ==> !WritesFailed(sweeps[..used])
    ensures rest.slept ==> !PausesFailed(sweeps[..used - 1])
  {
    assert sweeps[0] in sweeps && sweeps[1] in sweeps;
    assert PreviousPositions(sweeps, 1) == Some(rest.positions);
    assert ConfirmsAt(sweeps, 1) && !ConfirmsAt(sweeps, 0);
    assert forall k :: 0 <= k < used ==> sweeps[..used][k] == rest;
  }

  // ---------------------------------------------------------------- the owner

  /** The result of the last of two stops, carrying the errors of both. */
  function Combine(first: Option<StopResult>, last: StopResult): (r: StopResult)
    ensures r.Verified() <==> last.Verified() && (first.Some? ==> !first.value.errors)
  {
    StopResult(last.confirmed, last.errors || (first.Some? && first.value.errors), last.faultTokens)
  }

  /** `windowMs` is the time from the first start write to the end of the last. */
  datatype Motion = Motion(forward: bool, startedMs: int, windowMs: int, deadlineMs: int)

  /** What finishing yields: the stop, with the errors of reading the final
      positions, and whether the encoder checks asked for passed. It may also be
      interrupted by an exception. */
  datatype Finish = Finished(stop: StopResult, travelVerified: bool) | Interrupted

  /** Stops begun, each to observe the motors or be interrupted, and motions whose
      travel was asked about at their end. */
  datatype Tally = Tally(stops: nat, travels: nat)

  class SupervisorMotorOwner {
    var active: Option<Motion>
    var closed: bool
    /** A start command was written and no verified stop has completed since. */
    ghost var moving: bool
    ghost var tally: Tally

    constructor ()
      ensures active.None? && !closed && moving
    {
      active, closed, moving, tally := None, false, true, Tally(0, 0);
    }

    /** Whatever the hardware shows during one stop. */
    method ObserveSweeps(motors: nat) returns (sweeps: seq<Sweep>)
      modifies `tally
      ensures tally == old(tally).(stops := old(tally).stops + 1)
      ensures |sweeps| >= 2 && forall s :: s in sweeps ==> s.Of(motors)
    {
      tally := tally.(stops := tally.stops + 1);
      var attempts: nat :| attempts >= 2;
      sweeps := [];
      while |sweeps| < attempts
        invariant |sweeps| <= attempts
        invariant forall s :: s in sweeps ==> s.Of(motors)
      {
        var sweep: Sweep := *;
        if !sweep.Of(motors) {
          sweep := Sweep(true, true, true, true, seq(motors, i => 0), true);
        }
        sweeps := sweeps + [sweep];
      }
    }

    /** Whether the motion travelled as it should, where that is asked. */
    method TravelSeen(asked: bool) returns (travelled: bool)
      modifies `tally
      ensures tally == old(tally).(travels := old(tally).travels + if asked then 1 else 0)
    {
      travelled := *;
      tally := tally.(travels := tally.travels + if asked then 1 else 0);
    }

    method Interrupt() returns (interrupted: bool)
      modifies `tally
      ensures tally == old(tally).(stops := old(tally).stops + if interrupted then 1 else 0)
    {
      interrupted := *;
      tally := tally.(stops := tally.stops + if interrupted then 1 else 0);
    }

    method StopAllVerified() returns (r: StopResult)
      requires !closed
      modifies `moving, `tally
      ensures tally == old(tally).(stops := old(tally).stops + 1)
      ensures moving <==> old(moving) && !r.Verified()
      ensures r.Verified() ==> !r.faultTokens
    {
      var motors: nat, listed: bool := *, *;
      var sweeps := ObserveSweeps(motors);
      var used: nat;
      r, used := StopSweeps(motors, listed, sweeps);
      VerifiedMeansAtRest(motors, listed, sweeps, r, used);
      if r.Verified() {
        moving := false;
      }
    }

    /** Forget the active motion first, then stop, then read where its motors ended
        and, when asked, check their travel. A closed owner refuses. */
    method FinishActive(verifyMotion: bool) returns (r: Finish)
      requires closed ==> active.None?
      modifies `active, `moving, `tally
      ensures old(closed) ==> r.Interrupted?
      ensures tally.stops == old(tally).stops + if old(closed) then 0 else 1
      ensures tally.travels == old(tally).travels
        + if verifyMotion && old(active).Some? && r.Finished? then 1 else 0
      ensures active.None? && (moving ==> old(moving))
      ensures r.Finished? && r.stop.Verified() ==> !r.stop.faultTokens && !moving
      ensures r.Finished? && old(active).None? ==> (moving <==> old(moving) && !r.stop.Verified())
      ensures r.Finished? && !r.travelVerified ==> verifyMotion && old(active).Some?
    {
      if closed {
        return Interrupted;
      }
      var finished := active;
      active := None;
      var interrupted := Interrupt();
      if interrupted {
        return Interrupted;
      }
      var stop := StopAllVerified();
      if finished.None? {
        return Finished(stop, true);
      }
      var readErrors: bool := *;
      var travelled := TravelSeen(verifyMotion);
      return Finished(stop.(errors := stop.errors || readErrors), !verifyMotion || readErrors || travelled);
    }

    /** A `run-timed` write may have reached the motor even when it fails. */
    method WriteStart() returns (written: bool)
      modifies `moving
      ensures moving
    {
      moving := true;
      written := *;
    }

    /** Stop and give up the ownership lock; `None` is an exception. The lock is
        only released behind a verified stop. */
    method Close() returns (r: Finish)
      modifies `active, `closed, `moving, `tally
      ensures tally.stops == old(tally).stops + if old(closed) then 0 else 1
      ensures old(closed) ==> closed && r.Finished? && r.stop.Verified() && !r.stop.faultTokens && active == old(active)
      ensures old(closed) ==> moving == old(moving)
      ensures !old(closed) ==> active.None? && (closed ==> !moving) && (moving ==> old(moving))
      ensures r.Finished? ==> (closed <==> r.stop.Verified() && !r.stop.faultTokens)
      ensures r.Finished? && r.stop.Verified() && !old(closed) ==> !moving
    {
      if closed {
        return Finished(StopResult(true, false, false), true);
      }
      r := FinishActive(false);
      if r.Interrupted? || !r.stop.Verified() || r.stop.faultTokens {
        return;
      }
      var unlocked: bool := *;
      var released: bool := *;
      closed := released;
      if !unlocked || !released {
        return Interrupted;
      }
    }
  }
}
