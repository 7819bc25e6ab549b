/** The standalone emergency stop (ev3/emergency_stop.py) and the configuration
    bound that leaves it enough attempts (ev3/robot_config.py:400-424). */
module EmergencyStop {
  import opened Common
  import opened MotorOwner

  const MIN_STOP_STABLE_WINDOW_MS: nat := 50
  const MIN_STOP_STABLE_INTERVALS: nat := 3

  /** The poll settings an attempt derives from its configuration. */
  datatype Settings = Settings(accepted: bool, maximumAttempts: nat, requiredIntervals: nat)

  function RequiredIntervals(pollMs: int): nat
    requires pollMs > 0
  {
    Max(MIN_STOP_STABLE_INTERVALS, CeilDiv(MIN_STOP_STABLE_WINDOW_MS, pollMs))
  }

  function SettingsOf(timeoutMs: int, pollMs: int): Settings {
    if timeoutMs <= 0 || pollMs <= 0 || pollMs > timeoutMs then Settings(false, 2, MIN_STOP_STABLE_INTERVALS)
    else Settings(true, Max(2, timeoutMs / pollMs + 1), RequiredIntervals(pollMs))
  }

  /** The loader's check of the same two settings. */
  predicate ConfigurationAccepts(timeoutMs: int, pollMs: int) {
    0 < pollMs <= timeoutMs && RequiredIntervals(pollMs) * pollMs <= timeoutMs
  }

  /** The attempts of accepted settings fill the timeout and no more; the required
      intervals are the least of at least three that span 50 milliseconds. */
  lemma SettingsFillTimeout(timeoutMs: int, pollMs: int)
    ensures var s := SettingsOf(timeoutMs, pollMs);
      && (s.accepted <==> 0 < pollMs <= timeoutMs)
      && (s.accepted ==> (s.maximumAttempts - 1) * pollMs <= timeoutMs < s.maximumAttempts * pollMs)
      && (s.accepted ==> s.requiredIntervals >= 3 && s.requiredIntervals * pollMs >= 50)
      && (s.accepted && s.requiredIntervals > 3 ==> (s.requiredIntervals - 1) * pollMs < 50)
      && (!s.accepted ==> s.maximumAttempts == 2 && s.requiredIntervals == 3)
  {
    if 0 < pollMs <= timeoutMs {
      FloorReaches(timeoutMs, pollMs, timeoutMs / pollMs);
      FloorReaches(timeoutMs, pollMs, timeoutMs / pollMs + 1);
      FloorReaches(timeoutMs, pollMs, 1);
      CeilDivIsLeast(MIN_STOP_STABLE_WINDOW_MS, pollMs, RequiredIntervals(pollMs));
      CeilDivIsLeast(MIN_STOP_STABLE_WINDOW_MS, pollMs, RequiredIntervals(pollMs) - 1);
    }
  }

  /** The required unchanged intervals always span the minimum window. */
  lemma RequiredSpansWindow(pollMs: int)
    requires pollMs > 0
    ensures RequiredIntervals(pollMs) * pollMs >= MIN_STOP_STABLE_WINDOW_MS
  {
    CeilDivIsLeast(MIN_STOP_STABLE_WINDOW_MS, pollMs, RequiredIntervals(pollMs));
  }

  /** The loader accepts exactly the settings that leave an attempt to spare for
      every required interval. */
  lemma AcceptedMeansEnoughAttempts(timeoutMs: int, pollMs: int)
    ensures ConfigurationAccepts(timeoutMs, pollMs) <==>
      var s := SettingsOf(timeoutMs, pollMs);
      s.accepted && s.maximumAttempts >= s.requiredIntervals + 1
  {
    if 0 < pollMs <= timeoutMs {
      FloorReaches(timeoutMs, pollMs, RequiredIntervals(pollMs));
    }
  }

  /** Unchanged inactive intervals in a row up to attempt `k`. */
  function Intervals(sweeps: seq<Sweep>, k: nat): nat
    requires k < |sweeps|
  {
    if k > 0 && sweeps[k].Clean() && sweeps[k - 1].Clean() && sweeps[k].positions == sweeps[k - 1].positions
    then Intervals(sweeps, k - 1) + 1
    else 0
  }

  predicate StableAt(sweeps: seq<Sweep>, k: nat, required: nat)
    requires k < |sweeps|
  {
    sweeps[k].Clean() && Intervals(sweeps, k) >= required
  }

  /** Nothing went wrong in the attempts made: every write, every read-back and
      every pause between them succeeded. */
  predicate Flawless(sweeps: seq<Sweep>, used: nat)
    requires used <= |sweeps|
  {
    && (forall k :: 0 <= k < used ==> sweeps[k].written && sweeps[k].readable)
    && (forall k :: 0 <= k < used - 1 ==> sweeps[k].slept)
  }

  /** The attempts made: up to the first stable one, a failed pause, or all. */
  predicate Polled(sweeps: seq<Sweep>, s: Settings, used: nat, stable: bool)
    requires |sweeps| >= s.maximumAttempts >= 2
  {
    && 1 <= used <= s.maximumAttempts
    && (forall k :: 0 <= k < used - 1 ==> !StableAt(sweeps, k, s.requiredIntervals) && sweeps[k].slept)
    && (stable <==> StableAt(sweeps, used - 1, s.requiredIntervals))
    && (!stable ==> used == s.maximumAttempts || !sweeps[used - 1].slept)
  }

  datatype Report = Report(hardwareVerified: bool, confirmed: bool, used: nat)

  /** `configured` and `topology` are the configuration's own verdicts, `listed`
      says the motors could be discovered. */
  method Run(timeoutMs: int, pollMs: int, configured: bool, topology: bool, listed: bool, motors: nat, sweeps: seq<Sweep>)
    returns (r: Report)
    requires |sweeps| >= SettingsOf(timeoutMs, pollMs).maximumAttempts && forall x :: x in sweeps ==> x.Of(motors)
    ensures var s := SettingsOf(timeoutMs, pollMs);
      && (exists stable :: Polled(sweeps, s, r.used, stable))
      && (r.hardwareVerified <==>
            && s.accepted && listed && motors > 0
            && Polled(sweeps, s, r.used, true)
            && Flawless(sweeps, r.used))
      && (r.confirmed <==> r.hardwareVerified && configured && topology)
  {
    var s := SettingsOf(timeoutMs, pollMs);
    var stable, clean, used := PollUntilStable(sweeps, s);
    var verified := stable && clean && s.accepted && listed && motors > 0;
    r := Report(verified, verified && configured && topology, used);
  }

  method PollUntilStable(sweeps: seq<Sweep>, s: Settings) returns (stable: bool, clean: bool, used: nat)
    requires |sweeps| >= s.maximumAttempts >= 2 && s.requiredIntervals >= 1
    ensures Polled(sweeps, s, used, stable)
    ensures stable ==> (clean <==> Flawless(sweeps, used))
  {
    var intervals := 0;
    var previous: Option<seq<int>> := None;
    var previousInactive := false;
    stable, clean, used := false, true, 0;
    while used < s.maximumAttempts
      invariant used <= s.maximumAttempts && !stable
      invariant used > 0 ==> intervals == Intervals(sweeps, used - 1)
      invariant used > 0 ==> (previousInactive <==> sweeps[used - 1].Clean())
      invariant used == 0 ==> !previousInactive && intervals == 0
      invariant previousInactive ==> previous == Some(sweeps[used - 1].positions)
      invariant forall k :: 0 <= k < used ==> !StableAt(sweeps, k, s.requiredIntervals)
      invariant forall k :: 0 <= k < used && k < s.maximumAttempts - 1 ==> sweeps[k].slept
      invariant clean <==> forall k :: 0 <= k < used ==> sweeps[k].written && sweeps[k].readable
    {
      var sweep := sweeps[used];
      clean := clean && sweep.written && sweep.readable;
      var inactive := sweep.Clean();
      intervals := if inactive && previousInactive && previous == Some(sweep.positions) then intervals + 1 else 0;
      used := used + 1;
      if inactive && intervals >= s.requiredIntervals {
        return true, clean, used;
      }
      if sweep.readable {
        previous := Some(sweep.positions);
      }
      previousInactive := inactive;
      if used < s.maximumAttempts && !sweep.slept {
        return false, false, used;
      }
    }
  }

  lemma {:induction false} IntervalsMeaning(sweeps: seq<Sweep>, k: nat, j: nat)
    requires k < |sweeps| && k - Intervals(sweeps, k) <= j <= k && sweeps[k].Clean()
    ensures Intervals(sweeps, k) <= k
    ensures sweeps[j].Clean() && sweeps[j].positions == sweeps[k].positions
    decreases k
  {
    if Intervals(sweeps, k) > 0 {
      IntervalsMeaning(sweeps, k - 1, if j == k then k - 1 else j);
    }
  }

  /** A confirmed stop saw one more than the required number of consecutive clean
      sweeps with equal positions, spanning the minimum window, and no write, read
      or pause failed in any attempt. */
  lemma ConfirmedMeansSettled(timeoutMs: int, pollMs: int, sweeps: seq<Sweep>, used: nat)
    requires var s := SettingsOf(timeoutMs, pollMs);
      s.accepted && |sweeps| >= s.maximumAttempts && Polled(sweeps, s, used, true) && Flawless(sweeps, used)
    ensures var required := SettingsOf(timeoutMs, pollMs).requiredIntervals;
      && used >= required + 1 && required >= MIN_STOP_STABLE_INTERVALS
      && required * pollMs >= MIN_STOP_STABLE_WINDOW_MS
      && (forall k :: used - 1 - required <= k < used ==>
            sweeps[k].readable && sweeps[k].inactive && sweeps[k].faultFree
            && sweeps[k].positions == sweeps[used - 1].positions)
      && (forall k :: 0 <= k < used ==> sweeps[k].written)
  {
    var required := SettingsOf(timeoutMs, pollMs).requiredIntervals;
    RequiredSpansWindow(pollMs);
    IntervalsMeaning(sweeps, used - 1, used - 1);
    forall k | used - 1 - required <= k < used
      ensures sweeps[k].readable && sweeps[k].inactive && sweeps[k].faultFree
      ensures sweeps[k].positions == sweeps[used - 1].positions
    {
      IntervalsMeaning(sweeps, used - 1, k);
    }
  }

  lemma {:induction false} RestAccumulates(sweeps: seq<Sweep>, rest: Sweep, k: nat)
    requires k < |sweeps| && rest.Clean() && forall i :: 0 <= i < |sweeps| ==> sweeps[i] == rest
    ensures Intervals(sweeps, k) == k
  {
    if k > 0 {
      RestAccumulates(sweeps, rest, k - 1);
    }
  }

  /** Whatever configuration the loader accepts, a robot at rest whose motors
      answer is confirmed with exactly the required number of intervals. */
  lemma RestIsConfirmed(timeoutMs: int, pollMs: int, rest: Sweep, sweeps: seq<Sweep>, used: nat, stable: bool)
    requires ConfigurationAccepts(timeoutMs, pollMs)
    requires rest.readable && rest.inactive && rest.faultFree && rest.written && rest.slept
    requires forall i :: 0 <= i < |sweeps| ==> sweeps[i] == rest
    requires |sweeps| >= SettingsOf(timeoutMs, pollMs).maximumAttempts
    requires Polled(sweeps, SettingsOf(timeoutMs, pollMs), used, stable)
    ensures stable && used == RequiredIntervals(pollMs) + 1 && Flawless(sweeps, used)
  {
    AcceptedMeansEnoughAttempts(timeoutMs, pollMs);
    var s := SettingsOf(timeoutMs, pollMs);
    RestAccumulates(sweeps, rest, used - 1);
    RestAccumulates(sweeps, rest, s.requiredIntervals);
    assert StableAt(sweeps, s.requiredIntervals, s.requiredIntervals);
  }
}
