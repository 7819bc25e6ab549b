/** The fixed EV3 motion profile (ev3/navigation_profile.py). */
module NavigationProfile {
  import opened Common
  import opened EncoderRecovery

  const MAX_PULSES := 40
  const MAX_PULSE_DURATION_MS := 32000
  const SCAN_TURN_LATTICE_MDEG := 15000
  const SCAN_TURN_MAX_MDEG := 120000
  const SCAN_TURN_REFERENCE_BODY_MDEG := 90000
  const SCAN_TURN_REFERENCE_DURATION_MS := 2560
  const SCAN_TURN_MAX_SLICE_DURATION_MS := 800
  const SCAN_TURN_MAX_SIDE_DIVERGENCE_DEGREES := 80

  const RECOVERY_POLICY := Policy(3, 12, 75, 15, 2, 1, 3, 800, 1600, 400)

  /** For the shipped policy a wheel at the acceptable share has always moved the
      verifiable minimum, so NO_RECOVERY means satisfied. */
  lemma ShippedPolicyQualifies()
    ensures RECOVERY_POLICY.Valid()
    ensures RECOVERY_POLICY.minimumProgressDegrees * (100 - RECOVERY_POLICY.acceptableCompletionPercent) < 100
    ensures RECOVERY_POLICY.maximumTotalAttempts + 1 <= 4
  {
  }

  function RoundedRatio(numerator: nat, denominator: nat): nat
    requires denominator > 0
  {
    (numerator + denominator / 2) / denominator
  }

  function SliceCount(total: nat): nat {
    Max(1, (total + SCAN_TURN_MAX_SLICE_DURATION_MS - 1) / SCAN_TURN_MAX_SLICE_DURATION_MS)
  }

  function SliceDurations(total: nat): seq<nat> {
    var count := SliceCount(total);
    seq(count, i requires 0 <= i < count => total / count + (if i < total % count then 1 else 0))
  }

  function Sum(s: seq<nat>): nat {
    if s == [] then 0 else Sum(s[..|s| - 1]) + s[|s| - 1]
  }

  lemma {:induction false} SumOfBalanced(s: seq<nat>, base: nat, extra: nat)
    requires forall i :: 0 <= i < |s| ==> s[i] == base + (if i < extra then 1 else 0)
    ensures Sum(s) == |s| * base + Min(|s|, extra)
  {
    if s != [] {
      SumOfBalanced(s[..|s| - 1], base, extra);
      assert |s| * base == (|s| - 1) * base + base;
    }
  }

  /** Balanced slices lose nothing: they add up to the requested duration, each
      fits the per-slice limit and no two differ by more than one millisecond. */
  lemma SlicesAreBalanced(total: nat)
    ensures Sum(SliceDurations(total)) == total
    ensures |SliceDurations(total)| == SliceCount(total) >= 1
    ensures forall i :: 0 <= i < SliceCount(total) ==> SliceDurations(total)[i] <= SCAN_TURN_MAX_SLICE_DURATION_MS
    ensures forall i, j :: 0 <= i < j < SliceCount(total) ==>
      0 <= SliceDurations(total)[i] - SliceDurations(total)[j] <= 1
  {
    var count := SliceCount(total);
    SumOfBalanced(SliceDurations(total), total / count, total % count);
    assert total == count * (total / count) + total % count;
    CountCovers(total, count);
    BalancedShape(SliceDurations(total), total / count, total % count, SCAN_TURN_MAX_SLICE_DURATION_MS);
  }

  /** No fewer slices would fit the limit. */
  lemma SliceCountIsLeast(total: nat, count: nat)
    requires count >= 1 && total <= 800 * count
    ensures SliceCount(total) <= count
    ensures total <= 800 * SliceCount(total)
  {
  }

  /** The profile's duration of a scan turn: 2560 ms for 90 degrees, in proportion,
      rounded to the nearest millisecond with halves up. */
  lemma ScanTurnIsProportional(deltaMdeg: int)
    ensures var ms := ScanTurnDurationMs(deltaMdeg);
      -45000 < 2560 * Abs(deltaMdeg) - 90000 * ms + 1 <= 45000
  {
  }

  /** The scan turns there are: a lattice of 15 degrees up to 120. */
  lemma ScanTurnsAllowed(deltaMdeg: int)
    ensures ScanTurnAllowed(deltaMdeg) <==>
      deltaMdeg != 0 && -120000 <= deltaMdeg <= 120000 && exists k: int :: deltaMdeg == 15000 * k
  {
    assert deltaMdeg == 15000 * (deltaMdeg / 15000) + deltaMdeg % 15000;
  }

  lemma BalancedShape(s: seq<nat>, base: nat, extra: nat, limit: nat)
    requires forall i :: 0 <= i < |s| ==> s[i] == base + (if i < extra then 1 else 0)
    requires base <= limit && (base == limit ==> extra == 0)
    ensures forall i :: 0 <= i < |s| ==> s[i] <= limit
    ensures forall i, j :: 0 <= i < j < |s| ==> 0 <= s[i] - s[j] <= 1
  {
  }

  lemma CountCovers(total: nat, count: nat)
    requires count == SliceCount(total)
    ensures total / count <= SCAN_TURN_MAX_SLICE_DURATION_MS
    ensures total / count == SCAN_TURN_MAX_SLICE_DURATION_MS ==> total % count == 0
  {
    assert total <= count * SCAN_TURN_MAX_SLICE_DURATION_MS;
    FloorReaches(total, count, SCAN_TURN_MAX_SLICE_DURATION_MS + 1);
    assert total == count * (total / count) + total % count;
  }

  predicate ScanTurnAllowed(deltaMdeg: int) {
    deltaMdeg != 0 && deltaMdeg % SCAN_TURN_LATTICE_MDEG == 0 && Abs(deltaMdeg) <= SCAN_TURN_MAX_MDEG
  }

  function ScanTurnDurationMs(deltaMdeg: int): nat {
    RoundedRatio(SCAN_TURN_REFERENCE_DURATION_MS * Abs(deltaMdeg), SCAN_TURN_REFERENCE_BODY_MDEG)
  }

  datatype Action = Advance | Reverse | TurnLeft90 | TurnRight90

  predicate Recoverable(action: Action) {
    action == Advance || action == Reverse
  }

  function ActionSlices(action: Action): seq<nat> {
    if Recoverable(action) then [250] else [800, 800, 800, 160]
  }

  /** The profile's own total, against which the budget is checked up front. */
  function TotalDurationMs(action: Action): nat {
    if Recoverable(action) then 250 else 2560
  }

  lemma SlicesSumToTotal(action: Action)
    ensures Sum(ActionSlices(action)) == TotalDurationMs(action)
    ensures forall i :: 0 <= i < |ActionSlices(action)| ==> 0 < ActionSlices(action)[i] <= 800
    ensures action == Advance || action == Reverse ==> ActionSlices(action) == [250]
    ensures Recoverable(action) ==> |ActionSlices(action)| == 1
  {
    var s := ActionSlices(action);
    if Recoverable(action) {
      assert s[..0] == [];
    } else {
      assert s[..3] == [800, 800, 800] && s[..3][..2] == [800, 800] && s[..3][..2][..1] == [800];
      assert Sum(s[..3]) == 2400 by {
        assert Sum([800]) == 800 by {
          assert [800][..0] == [];
        }
      }
    }
  }

  lemma {:induction false} SumOfPrefix(s: seq<nat>, i: nat)
    requires i <= |s|
    ensures Sum(s[..i]) <= Sum(s)
    ensures i < |s| ==> Sum(s[..i]) + s[i] <= Sum(s)
  {
    if i == |s| {
      assert s[..i] == s;
    } else {
      SumOfPrefix(s[..|s| - 1], i);
      assert s[..|s| - 1][..i] == s[..i];
    }
  }
}
