/** When the budgeted turning time of the worst-case scan bounds every scan, and
    when it does not (src/robot_agent/active_ir_scan_contract.py:79-157).

    On the profile's lattice of 15 degrees a turn of `k` steps takes 1280k/3
    milliseconds, rounded up a third when k is 1 modulo 3 and down a third when it
    is 2. The budget can therefore only be exceeded by a scan of the same travel
    whose turns round up more often. */
module ScanTurnTime {
  import opened Common
  import opened NavigationProfile
  import opened ScanRoute

  const STEP: nat := SCAN_TURN_LATTICE_MDEG

  ghost predicate OnSteps(stops: seq<int>) {
    forall i :: 0 <= i < |stops| ==> stops[i] % STEP == 0
  }

  /** Thirds of a millisecond by which rounding lengthens one turn. */
  function Surplus(delta: int): int {
    var k := Abs(delta) / STEP % 3;
    if k == 1 then 1 else if k == 2 then -1 else 0
  }

  function Balance(from: int, stops: seq<int>): int
    decreases |stops|
  {
    if stops == [] then Surplus(from) else Surplus(stops[0] - from) + Balance(stops[0], stops[1..])
  }

  lemma StepTurn(delta: int)
    requires delta % STEP == 0
    ensures 3 * STEP * ScanTurnDurationMs(delta) == 1280 * Abs(delta) + STEP * Surplus(delta)
  {
    StepCount(delta);
    var k := Abs(delta) / STEP;
    CountTurn(k, k / 3, k % 3);
  }

  lemma StepCount(delta: int)
    requires delta % STEP == 0
    ensures Abs(delta) == STEP * (Abs(delta) / STEP)
  {
    if delta < 0 {
      assert (-delta) % STEP == 0;
    }
  }

  lemma CountTurn(k: nat, q: nat, r: nat)
    requires k == 3 * q + r && r < 3
    ensures 3 * RoundedRatio(SCAN_TURN_REFERENCE_DURATION_MS * (STEP * k), SCAN_TURN_REFERENCE_BODY_MDEG)
         == 1280 * k + (if r == 1 then 1 else if r == 2 then -1 else 0)
  {
    var n := SCAN_TURN_REFERENCE_DURATION_MS * (STEP * k) + SCAN_TURN_REFERENCE_BODY_MDEG / 2;
    assert n == SCAN_TURN_REFERENCE_BODY_MDEG * (1280 * q) + (38400000 * r + 45000);
    QuotientOfSum(1280 * q, 38400000 * r + 45000);
  }

  lemma QuotientOfSum(a: nat, rest: nat)
    ensures (SCAN_TURN_REFERENCE_BODY_MDEG * a + rest) / SCAN_TURN_REFERENCE_BODY_MDEG
         == a + rest / SCAN_TURN_REFERENCE_BODY_MDEG
  {
  }

  /** Exact turning time of a trip on the lattice: its travel and its surplus. */
  lemma {:induction false} TimeOnSteps(from: int, stops: seq<int>)
    requires from % STEP == 0 && OnSteps(stops)
    ensures 3 * STEP * TurnTime(from, stops) == 1280 * Travel(from, stops) + STEP * Balance(from, stops)
    ensures Abs(Balance(from, stops)) <= |stops| + 1
    decreases |stops|
  {
    if stops == [] {
      StepTurn(from);
    } else {
      StepTurn(stops[0] - from);
      TimeOnSteps(stops[0], stops[1..]);
    }
  }

  lemma {:induction false} TravelOnSteps(from: int, stops: seq<int>)
    requires from % STEP == 0 && OnSteps(stops)
    ensures Travel(from, stops) % STEP == 0
    decreases |stops|
  {
    if stops == [] {
      StepCount(from);
    } else {
      StepCount(stops[0] - from);
      TravelOnSteps(stops[0], stops[1..]);
      SumOfSteps(Abs(stops[0] - from), Travel(stops[0], stops[1..]));
    }
  }

  lemma SumOfSteps(a: int, b: int)
    requires a % STEP == 0 && b % STEP == 0
    ensures (a + b) % STEP == 0
  {
  }

  lemma StepsApart(a: int, b: int)
    requires a % STEP == 0 && b % STEP == 0 && a < b
    ensures a + STEP <= b
  {
  }

  lemma TravelOutweighs(t: int, u: int, travel: int, longer: int, surplus: int, budget: int)
    requires 3 * STEP * t == 1280 * travel + STEP * surplus && 3 * STEP * u == 1280 * longer + STEP * budget
    requires travel + STEP <= longer && surplus - budget <= 1280
    ensures t <= u
  {
  }

  /** A shorter trip is never slower, as long as it has few stops. */
  lemma ShorterIsFaster(a: seq<int>, b: seq<int>)
    requires OnSteps(a) && OnSteps(b) && |a| + |b| <= 100
    requires Travel(0, a) < Travel(0, b)
    ensures TurnTime(0, a) <= TurnTime(0, b)
  {
    TimeOnSteps(0, a);
    TimeOnSteps(0, b);
    TravelOnSteps(0, a);
    TravelOnSteps(0, b);
    StepsApart(Travel(0, a), Travel(0, b));
    TravelOutweighs(TurnTime(0, a), TurnTime(0, b), Travel(0, a), Travel(0, b), Balance(0, a), Balance(0, b));
  }

  // ------------------------------------------------------- lattice geometry

  lemma {:induction false} LatticeStops(from: int, stops: seq<int>)
    requires OnLattice(from, stops) && from % STEP == 0
    ensures OnSteps(stops)
    ensures forall i :: 0 <= i < |stops| ==>
      Abs(stops[i] - (if i == 0 then from else stops[i - 1])) <= SCAN_TURN_MAX_MDEG
    decreases |stops|
  {
    if stops != [] {
      LatticeStops(stops[0], stops[1..]);
      assert stops == [stops[0]] + stops[1..];
    }
  }

  /** A calibration whose worst case gets a budget lies on the lattice. */
  lemma LatticeCalibration(c: Calibration)
    requires c.Valid() && OnLattice(0, WorstPlan(c.coarse, c.fineStep))
    ensures OnSteps(c.coarse) && OnSteps(AllMidpoints(c.coarse, c.fineStep))
    ensures OnSteps(WorstPlan(c.coarse, c.fineStep))
    ensures AllMidpoints(c.coarse, c.fineStep) != [] ==>
      c.coarse[|c.coarse| - 1] - AllMidpoints(c.coarse, c.fineStep)[0] <= SCAN_TURN_MAX_MDEG
  {
    var coarse, mids := CoarseSchedule(c.coarse), AllMidpoints(c.coarse, c.fineStep);
    var plan := coarse + mids;
    LatticeStops(0, plan);
    CoarseScheduleShape(c.coarse);
    forall i | 0 <= i < |c.coarse|
      ensures c.coarse[i] % STEP == 0
    {
      ScheduleAt(c.coarse, 0);
      var n := Negatives(c.coarse);
      var k := if i <= n then n - i else i;
      ScheduleAt(c.coarse, k);
      assert plan[k] == coarse[k];
    }
    forall i | 0 <= i < |mids|
      ensures mids[i] % STEP == 0
    {
      assert plan[|coarse| + i] == mids[i];
    }
    if mids != [] {
      assert plan[|coarse|] == mids[0] && plan[|coarse| - 1] == coarse[|coarse| - 1];
    }
  }

  lemma {:induction false} SpreadOnSteps(order: seq<int>, i: nat)
    requires StrictlyAscending(order) && OnSteps(order) && i < |order|
    ensures order[i] >= order[0] + STEP * i
  {
    if i > 0 {
      SpreadOnSteps(order, i - 1);
      assert order[i - 1] < order[i];
    }
  }

  lemma {:induction false} MidpointsAreFewer(order: seq<int>, fineStep: int)
    ensures |AllMidpoints(order, fineStep)| <= |order|
  {
    if |order| >= 2 {
      MidpointsAreFewer(order[1..], fineStep);
    }
  }

  /** At most thirteen bearings fit the arc, so a plan has few stops. */
  lemma FewStops(c: Calibration)
    requires c.Valid() && OnSteps(c.coarse)
    ensures |WorstPlan(c.coarse, c.fineStep)| <= 26
  {
    SpreadOnSteps(c.coarse, |c.coarse| - 1);
    MidpointsAreFewer(c.coarse, c.fineStep);
    CoarseScheduleShape(c.coarse);
  }

  ghost predicate Spaced(s: seq<int>) {
    forall i :: 0 <= i < |s| - 1 ==> s[i] + 2 * STEP <= s[i + 1]
  }

  lemma PrependSpaced(x: int, tail: seq<int>)
    requires Spaced(tail) && (tail != [] ==> x + 2 * STEP <= tail[0])
    ensures Spaced([x] + tail)
  {
  }

  /** Midpoints keep a step from the bearings around them, two from each other. */
  lemma {:induction false} MidpointsAreSpaced(order: seq<int>, fineStep: int)
    requires StrictlyAscending(order) && OnSteps(order) && order != [] && fineStep >= 1
    requires OnSteps(AllMidpoints(order, fineStep))
    ensures Spaced(AllMidpoints(order, fineStep))
    ensures var m := AllMidpoints(order, fineStep);
      m != [] ==> order[0] + STEP <= m[0] && m[|m| - 1] + STEP <= order[|order| - 1]
  {
    if |order| >= 2 {
      var tail := AllMidpoints(order[1..], fineStep);
      if order[1] - order[0] > fineStep {
        var x := Midpoint(order[0], order[1]);
        FirstMidpoint(order, fineStep);
        MidpointsAreSpaced(order[1..], fineStep);
        PrependSpaced(x, tail);
      } else {
        assert [] + tail == tail;
        MidpointsAreSpaced(order[1..], fineStep);
      }
    }
  }

  lemma FirstMidpoint(order: seq<int>, fineStep: int)
    requires StrictlyAscending(order) && OnSteps(order) && fineStep >= 1
    requires |order| >= 2 && order[1] - order[0] > fineStep && OnSteps(AllMidpoints(order, fineStep))
    ensures var x, tail := Midpoint(order[0], order[1]), AllMidpoints(order[1..], fineStep);
      && AllMidpoints(order, fineStep) == [x] + tail
      && OnSteps(tail) && order[0] + STEP <= x && x + STEP <= order[1]
  {
    var x, tail := Midpoint(order[0], order[1]), AllMidpoints(order[1..], fineStep);
    var m := AllMidpoints(order, fineStep);
    assert m == [x] + tail && m[0] == x;
    assert forall i :: 0 <= i < |tail| ==> tail[i] == m[i + 1];
    MidpointInside(order[0], order[1]);
    StepsApart(order[0], x);
    StepsApart(x, order[1]);
  }

  // ------------------------------------------------ trips of the same travel

  /** The calibrations whose budget can be exceeded: by their midpoints and their
      outermost positive bearing. */
  predicate Overruns(last: int, mids: seq<int>) {
    || (mids == [30000] && last == 60000)
    || mids == [-60000, -30000]
    || (mids == [-75000, -45000, -15000] && last == 45000)
  }

  /** Ways home from the last coarse bearing over some midpoints, downwards. */
  ghost predicate DescendsWithin(t: seq<int>, mids: seq<int>) {
    StrictlyDescending(t) && forall i :: 0 <= i < |t| ==> t[i] in mids
  }

  lemma RouteDown(from: int, few: seq<int>)
    requires few != []
    requires Travel(from, ScanRoute.Reverse(few)) <= Travel(from, few)
    requires Abs(ScanRoute.Reverse(few)[0] - from) < Abs(few[0] - from)
    ensures Route(from, few) == ScanRoute.Reverse(few)
  {
  }

  lemma SweepsCompare(from: int, few: seq<int>)
    requires StrictlyAscending(few) && |few| >= 2 && few[|few| - 1] < from
    ensures Travel(from, ScanRoute.Reverse(few)) <= Travel(from, few)
    ensures Abs(ScanRoute.Reverse(few)[0] - from) < Abs(few[0] - from)
  {
    ReverseDescends(few);
    UpwardTravel(from, few);
    DownwardTravel(from, ScanRoute.Reverse(few));
    DownIsShorter(from, few[0], few[|few| - 1]);
  }

  /** Coming from beyond, the chosen sweep is always the downward one. */
  lemma RouteDescends(from: int, few: seq<int>)
    requires StrictlyAscending(few) && few != [] && few[|few| - 1] < from
    ensures Route(from, few) == ScanRoute.Reverse(few)
  {
    if |few| == 1 {
      assert few[1..] == [] && ScanRoute.Reverse(few) == few;
    } else {
      SweepsCompare(from, few);
      RouteDown(from, few);
    }
  }

  lemma DownIsShorter(from: int, low: int, high: int)
    requires low < high < from
    ensures Abs(high - from) + (high - low) + Abs(low) <= Abs(low - from) + (high - low) + Abs(high)
    ensures Abs(high - from) < Abs(low - from)
  {
  }

  /** A downward way home costs twice the distance to its deeper end. */
  lemma DescentCosts(last: int, mids: seq<int>, t: seq<int>)
    requires StrictlyAscending(mids) && mids != [] && mids[|mids| - 1] < last
    requires DescendsWithin(t, mids) && t != []
    ensures mids[0] <= t[|t| - 1] <= mids[|mids| - 1]
    ensures Travel(last, t) == last - t[|t| - 1] + Abs(t[|t| - 1])
  {
    DownwardTravel(last, t);
    assert t[|t| - 1] in mids && t[0] in mids;
  }

  /** Which way home is as long as the full upward sweep: none at all past a single
      positive midpoint, the same single stop, or one that ends on the outermost of
      only negative midpoints. */
  lemma EqualTravel(last: int, mids: seq<int>, t: seq<int>)
    requires StrictlyAscending(mids) && mids != [] && mids[|mids| - 1] < last && 0 !in mids && last > 0
    requires DescendsWithin(t, mids) && Travel(last, t) == Travel(last, mids)
    ensures t == [] ==> |mids| == 1 && mids[0] > 0
    ensures t != [] ==> t[|t| - 1] == mids[0] && (t == mids || mids[|mids| - 1] < 0)
  {
    UpwardTravel(last, mids);
    assert mids[0] in mids && mids[|mids| - 1] in mids;
    if t != [] {
      DescentCosts(last, mids, t);
      if t[|t| - 1] > 0 {
        Alone(mids, t);
      }
    }
  }

  lemma {:induction false} NoMoreThan(t: seq<int>, mids: seq<int>)
    requires StrictlyAscending(mids) && DescendsWithin(t, mids)
    ensures |t| <= |mids|
    decreases |t|
  {
    if t != [] {
      assert t[0] in mids;
      var k :| 0 <= k < |mids| && mids[k] == t[0];
      forall i | 0 <= i < |t| - 1
        ensures t[1..][i] in mids[..k]
      {
        assert t[1..][i] == t[i + 1] && t[i + 1] in mids;
        var j :| 0 <= j < |mids| && mids[j] == t[i + 1];
        assert j < k;
        assert mids[..k][j] == t[i + 1];
      }
      NoMoreThan(t[1..], mids[..k]);
    }
  }

  lemma Alone(mids: seq<int>, t: seq<int>)
    requires StrictlyAscending(mids) && mids != [] && mids[0] == mids[|mids| - 1]
    requires DescendsWithin(t, mids) && t != []
    ensures t == mids
  {
    assert |mids| == 1;
    NoMoreThan(t, mids);
    assert t[0] in mids;
  }

  /** The profile's durations of 0 to 8 steps. */
  function StepsMs(k: nat): nat {
    if k == 0 then 0
    else if k == 1 then 427
    else if k == 2 then 853
    else if k == 3 then 1280
    else if k == 4 then 1707
    else if k == 5 then 2133
    else if k == 6 then 2560
    else if k == 7 then 2987
    else 3413
  }

  lemma StepsTake(delta: int, k: nat)
    requires k <= 8 && Abs(delta) == STEP * k
    ensures ScanTurnDurationMs(delta) == StepsMs(k)
  {
    CountTurn(k, k / 3, k % 3);
  }

  /** One positive midpoint `x` steps out, left out on the way home from `m`. */
  lemma SkippedStop(m: nat, x: nat)
    requires 1 <= x < m <= 6
    ensures StepsMs(m) <= StepsMs(m - x) + StepsMs(x) + 1
    ensures StepsMs(m) > StepsMs(m - x) + StepsMs(x) <==> m == 4 && x == 2
  {
  }

  /** Two negative midpoints `x` and `y` steps out, taken downwards or in part. */
  lemma TwoStops(m: nat, x: nat, y: nat)
    requires 1 <= m && m + x <= 8 && 1 <= y && y + 2 <= x <= 5
    ensures var worst := StepsMs(m + x) + StepsMs(x - y) + StepsMs(y);
      && StepsMs(m + x) + StepsMs(x) <= worst + 1
      && (StepsMs(m + x) + StepsMs(x) > worst <==> x == 4 && y == 2)
      && StepsMs(m + y) + StepsMs(x - y) + StepsMs(x) <= worst + 1
      && (StepsMs(m + y) + StepsMs(x - y) + StepsMs(x) > worst ==> x == 4 && y == 2)
  {
  }

  /** All three negative midpoints there can be. */
  lemma ThreeStops(m: nat)
    requires 1 <= m <= 3
    ensures var worst := StepsMs(m + 5) + StepsMs(2) + StepsMs(2) + StepsMs(1);
      && StepsMs(m + 5) + StepsMs(5) <= worst
      && StepsMs(m + 3) + StepsMs(2) + StepsMs(5) <= worst
      && StepsMs(m + 1) + StepsMs(4) + StepsMs(5) <= worst + 1
      && (StepsMs(m + 1) + StepsMs(4) + StepsMs(5) > worst <==> m == 3)
      && StepsMs(m + 1) + StepsMs(2) + StepsMs(2) + StepsMs(5) <= worst
  {
  }

  /** What is known of the last coarse bearing and the midpoints passed going home. */
  ghost predicate WayHome(last: int, mids: seq<int>) {
    && 0 < last <= 90000 && last % STEP == 0
    && mids != [] && StrictlyAscending(mids) && Spaced(mids) && OnSteps(mids) && 0 !in mids
    && -75000 <= mids[0] && mids[|mids| - 1] < last && last - mids[0] <= SCAN_TURN_MAX_MDEG
  }

  /** The time a way home takes over the full upward sweep. */
  function Excess(last: int, t: seq<int>, mids: seq<int>): int {
    TurnTime(last, t) - TurnTime(last, mids)
  }

  lemma OneTime(last: int, a: int)
    ensures TurnTime(last, [a]) == ScanTurnDurationMs(a - last) + ScanTurnDurationMs(a)
  {
    assert [a][1..] == [];
  }

  lemma TwoTimes(last: int, a: int, b: int)
    ensures TurnTime(last, [a, b]) == ScanTurnDurationMs(a - last) + ScanTurnDurationMs(b - a) + ScanTurnDurationMs(b)
  {
    assert [a, b][1..] == [b];
    OneTime(a, b);
  }

  lemma ThreeTimes(last: int, a: int, b: int, c: int)
    ensures TurnTime(last, [a, b, c])
         == ScanTurnDurationMs(a - last) + ScanTurnDurationMs(b - a) + ScanTurnDurationMs(c - b) + ScanTurnDurationMs(c)
  {
    assert [a, b, c][1..] == [b, c];
    TwoTimes(a, b, c);
  }

  lemma InSteps(bearing: int)
    requires bearing % STEP == 0
    ensures bearing == STEP * (bearing / STEP)
  {
  }

  lemma StraightHome(last: int, x: int, m: int, k: int)
    requires last == STEP * m && x == STEP * k && 1 <= k < m <= 6
    ensures Excess(last, [], [x]) <= 1
    ensures Excess(last, [], [x]) > 0 <==> last == 60000 && x == 30000
  {
    OneTime(last, x);
    StepsTake(last, m);
    StepsTake(x - last, m - k);
    StepsTake(x, k);
    SkippedStop(m, k);
  }

  lemma PairTimes(last: int, a: int, b: int, m: int, x: int, y: int)
    requires last == STEP * m && a + STEP * x == 0 && b + STEP * y == 0
    requires 1 <= m && m + x <= 8 && 1 <= y && y + 2 <= x <= 5
    ensures Excess(last, [a], [a, b]) <= 1 && Excess(last, [b, a], [a, b]) <= 1
    ensures Excess(last, [a], [a, b]) > 0 <==> a == -60000 && b == -30000
    ensures Excess(last, [b, a], [a, b]) > 0 ==> a == -60000 && b == -30000
  {
    OneTime(last, a);
    TwoTimes(last, a, b);
    TwoTimes(last, b, a);
    StepsTake(a - last, m + x);
    StepsTake(b - last, m + y);
    StepsTake(a - b, x - y);
    StepsTake(b - a, x - y);
    StepsTake(a, x);
    StepsTake(b, y);
    TwoStops(m, x, y);
  }

  const THREE: seq<int> := [-75000, -45000, -15000]

  lemma TripleTimes(last: int)
    requires last % STEP == 0 && 0 < last <= 45000
    ensures Excess(last, [-75000], THREE) <= 0 && Excess(last, [-45000, -75000], THREE) <= 0
    ensures Excess(last, [-15000, -75000], THREE) <= 1
    ensures Excess(last, [-15000, -75000], THREE) > 0 <==> last == 45000
    ensures Excess(last, [-15000, -45000, -75000], THREE) <= 0
  {
    var m := last / STEP;
    InSteps(last);
    TripleTurns(last, m);
    OneTime(last, -75000);
    TwoTimes(last, -45000, -75000);
    TwoTimes(last, -15000, -75000);
    ThreeTimes(last, -15000, -45000, -75000);
    ThreeTimes(last, -75000, -45000, -15000);
    ThreeStops(m);
  }

  lemma TripleTurns(last: int, m: nat)
    requires last == STEP * m && 1 <= m <= 3
    ensures ScanTurnDurationMs(-75000 - last) == StepsMs(m + 5)
    ensures ScanTurnDurationMs(-45000 - last) == StepsMs(m + 3)
    ensures ScanTurnDurationMs(-15000 - last) == StepsMs(m + 1)
    ensures ScanTurnDurationMs(30000) == StepsMs(2) == ScanTurnDurationMs(-30000)
    ensures ScanTurnDurationMs(-60000) == StepsMs(4)
    ensures ScanTurnDurationMs(-75000) == StepsMs(5) && ScanTurnDurationMs(-15000) == StepsMs(1)
  {
    StepsTake(-75000 - last, m + 5);
    StepsTake(-45000 - last, m + 3);
    StepsTake(-15000 - last, m + 1);
    StepsTake(30000, 2);
    StepsTake(-30000, 2);
    StepsTake(-60000, 4);
    StepsTake(-75000, 5);
    StepsTake(-15000, 1);
  }

  lemma {:induction false} SpacedSpan(mids: seq<int>, i: nat)
    requires Spaced(mids) && i < |mids|
    ensures mids[i] >= mids[0] + 2 * STEP * i
  {
    if i > 0 {
      SpacedSpan(mids, i - 1);
      assert mids[i - 1] + 2 * STEP <= mids[i - 1 + 1];
    }
  }

  /** Only negative midpoints leave room for three at most. */
  lemma NegativeMidpoints(last: int, mids: seq<int>)
    requires WayHome(last, mids) && mids[|mids| - 1] < 0
    ensures |mids| <= 3
    ensures |mids| == 3 ==> mids == THREE && last <= 45000
  {
    StepsApart(mids[|mids| - 1], 0);
    SpacedSpan(mids, |mids| - 1);
    if |mids| == 3 {
      assert mids[0] + 2 * STEP <= mids[1] && mids[1] + 2 * STEP <= mids[2];
      assert mids == [mids[0], mids[1], mids[2]];
    }
  }

  lemma PartOfTwo(a: int, b: int, t: seq<int>)
    requires a < b && DescendsWithin(t, [a, b]) && t != [] && t[|t| - 1] == a
    ensures t == [a] || t == [b, a]
  {
    assert forall i :: 0 <= i < |t| ==> t[i] == a || t[i] == b;
    NoMoreThan(t, [a, b]);
  }

  lemma PartOfThree(t: seq<int>)
    requires DescendsWithin(t, THREE) && t != [] && t[|t| - 1] == -75000
    ensures t == [-75000] || t == [-45000, -75000] || t == [-15000, -75000] || t == [-15000, -45000, -75000]
  {
    assert forall i :: 0 <= i < |t| ==> t[i] == -75000 || t[i] == -45000 || t[i] == -15000;
    NoMoreThan(t, THREE);
    assert |t| == 1 ==> t == [t[0]];
    assert |t| == 2 ==> t == [t[0], t[1]];
    assert |t| == 3 ==> t == [t[0], t[1], t[2]];
  }

  /** Over the way home: no excess but a single millisecond, and that only for the
      three shapes. */
  lemma ExcessHome(last: int, mids: seq<int>, t: seq<int>)
    requires WayHome(last, mids) && DescendsWithin(t, mids) && Travel(last, t) == Travel(last, mids)
    ensures Excess(last, t, mids) <= 1
    ensures Excess(last, t, mids) > 0 ==> Overruns(last, mids)
  {
    EqualTravel(last, mids, t);
    if t == [] {
      assert mids == [mids[0]];
      InSteps(last);
      InSteps(mids[0]);
      StraightHome(last, mids[0], last / STEP, mids[0] / STEP);
    } else if t != mids {
      NegativeMidpoints(last, mids);
      if |mids| == 1 {
        Alone(mids, t);
      } else if |mids| == 2 {
        var a, b := mids[0], mids[1];
        assert mids == [a, b];
        PartOfTwo(a, b, t);
        InSteps(last);
        InSteps(a);
        InSteps(b);
        PairTimes(last, a, b, last / STEP, -(a / STEP), -(b / STEP));
      } else {
        PartOfThree(t);
        TripleTimes(last);
      }
    }
  }

  // ------------------------------------------------------------- whole scans

  /** After the same beginning, totals differ as the ends do. */
  lemma {:induction false} EndsDecide(from: int, begin: seq<int>, a: seq<int>, b: seq<int>)
    requires begin != []
    ensures var l := begin[|begin| - 1];
      && Travel(from, begin + a) - Travel(from, begin + b) == Travel(l, a) - Travel(l, b)
      && TurnTime(from, begin + a) - TurnTime(from, begin + b) == TurnTime(l, a) - TurnTime(l, b)
    decreases |begin|
  {
    assert (begin + a)[1..] == begin[1..] + a && (begin + b)[1..] == begin[1..] + b;
    if |begin| == 1 {
      assert begin[1..] + a == a && begin[1..] + b == b;
    } else {
      EndsDecide(begin[0], begin[1..], a, b);
    }
  }

  lemma LastStopCosts(begin: seq<int>, last: int)
    requires begin != [] && begin[|begin| - 1] < last && last > 0
    ensures Travel(0, begin) < Travel(0, begin + [last])
  {
    var before := begin[|begin| - 1];
    EndsDecide(0, begin, [], [last]);
    assert begin + [] == begin && [last][1..] == [];
    assert Travel(before, [last]) == last - before + last;
  }

  /** A scan cut before the last coarse bearing travels strictly less. */
  lemma CutIsShorter(c: Calibration, n: nat)
    requires c.Valid() && n < |c.coarse|
    ensures |CoarseSchedule(c.coarse)| == |c.coarse|
    ensures Travel(0, CoarseSchedule(c.coarse)[..n]) < Travel(0, WorstPlan(c.coarse, c.fineStep))
  {
    var coarse := CoarseSchedule(c.coarse);
    CoarseScheduleShape(c.coarse);
    var k := |coarse| - 1;
    var last, begin := coarse[k], coarse[..k];
    ScheduleAt(c.coarse, k - 1);
    var before := coarse[k - 1];
    assert before in c.coarse && before != last;
    assert before < last;
    LastStopCosts(begin, last);
    assert begin + [last] == coarse;
    assert coarse[..k][..n] == coarse[..n];
    TravelOfPrefix(0, begin, n);
    TravelOfPrefix(0, WorstPlan(c.coarse, c.fineStep), |coarse|);
    assert WorstPlan(c.coarse, c.fineStep)[..|coarse|] == coarse;
  }

  ghost predicate Admits(c: Calibration, blocked: map<int, bool>, n: nat)
    requires c.Valid()
  {
    && (forall i :: 0 <= i < |c.coarse| ==> c.coarse[i] in blocked)
    && n <= |Plan(c.coarse, blocked, c.fineStep)|
  }

  /** How much longer than budgeted one scan turns, by its pattern and its cut. */
  ghost function Overrun(c: Calibration, blocked: map<int, bool>, n: nat): int
    requires c.Valid() && Admits(c, blocked, n)
  {
    TurnTime(0, Plan(c.coarse, blocked, c.fineStep)[..n]) - TurnTime(0, WorstPlan(c.coarse, c.fineStep))
  }

  function Last(c: Calibration): int
    requires c.coarse != []
  {
    c.coarse[|c.coarse| - 1]
  }

  /** The chosen refinement is swept downwards. */
  lemma RouteOfSome(last: int, few: seq<int>, mids: seq<int>)
    requires StrictlyAscending(mids) && Among(few, mids) && (mids != [] ==> mids[|mids| - 1] < last)
    ensures DescendsWithin(Route(last, few), mids)
  {
    AmongKeepsOrder(few, mids);
    RouteVisitsAll(last, few);
    if few != [] {
      AmongIsSubset(few, mids, few[|few| - 1]);
      RouteDescends(last, few);
      ReverseDescends(few);
    }
    forall i | 0 <= i < |Route(last, few)|
      ensures Route(last, few)[i] in mids
    {
      AmongIsSubset(few, mids, Route(last, few)[i]);
    }
  }

  lemma PrefixDescends(t: seq<int>, k: nat, mids: seq<int>)
    requires DescendsWithin(t, mids) && k <= |t|
    ensures DescendsWithin(t[..k], mids)
  {
    assert forall i :: 0 <= i < k ==> t[..k][i] == t[i];
  }

  lemma CutAfter(begin: seq<int>, t: seq<int>, n: nat)
    requires |begin| <= n <= |begin| + |t|
    ensures (begin + t)[..n] == begin + t[..n - |begin|] && (begin + t)[|begin|..n] == t[..n - |begin|]
  {
  }

  /** Everything visited after the coarse bearings is a way home downwards. */
  lemma VisitedDescends(c: Calibration, blocked: map<int, bool>, n: nat)
    requires c.Valid() && Admits(c, blocked, n) && n >= |c.coarse|
    ensures var coarse, plan := CoarseSchedule(c.coarse), Plan(c.coarse, blocked, c.fineStep);
      && |coarse| == |c.coarse| && coarse[|coarse| - 1] == Last(c)
      && plan[..n] == coarse + plan[|coarse|..n]
      && DescendsWithin(plan[|coarse|..n], AllMidpoints(c.coarse, c.fineStep))
  {
    var few, mids := TransitionMidpoints(c.coarse, blocked, c.fineStep), AllMidpoints(c.coarse, c.fineStep);
    CoarseScheduleShape(c.coarse);
    MidpointsAscend(c.coarse, c.fineStep);
    TransitionsAmongAll(c.coarse, blocked, c.fineStep);
    RouteOfSome(Last(c), few, mids);
    var route := Route(Last(c), few);
    PrefixDescends(route, n - |c.coarse|, mids);
    CutAfter(CoarseSchedule(c.coarse), route, n);
  }

  lemma HomeOfCalibration(c: Calibration)
    requires c.Valid() && OnLattice(0, WorstPlan(c.coarse, c.fineStep)) && AllMidpoints(c.coarse, c.fineStep) != []
    ensures WayHome(Last(c), AllMidpoints(c.coarse, c.fineStep))
  {
    var mids := AllMidpoints(c.coarse, c.fineStep);
    LatticeCalibration(c);
    MidpointsAscend(c.coarse, c.fineStep);
    MidpointsAreSpaced(c.coarse, c.fineStep);
    if 0 in mids {
      MidpointsAreNew(c.coarse, c.fineStep, 0);
    }
  }

  lemma ScanOnSteps(c: Calibration, blocked: map<int, bool>, n: nat)
    requires c.Valid() && Admits(c, blocked, n) && OnLattice(0, WorstPlan(c.coarse, c.fineStep))
    ensures OnSteps(Plan(c.coarse, blocked, c.fineStep)[..n])
  {
    var plan, mids := Plan(c.coarse, blocked, c.fineStep), AllMidpoints(c.coarse, c.fineStep);
    var coarse := CoarseSchedule(c.coarse);
    LatticeCalibration(c);
    RouteVisitsAll(Last(c), TransitionMidpoints(c.coarse, blocked, c.fineStep));
    CoarseScheduleShape(c.coarse);
    VisitedDescends(c, blocked, |plan|);
    forall i | 0 <= i < |plan|
      ensures plan[i] % STEP == 0
    {
      if i < |coarse| {
        assert WorstPlan(c.coarse, c.fineStep)[i] == plan[i];
      } else {
        assert plan[|coarse|..|plan|][i - |coarse|] == plan[i];
        assert plan[i] in mids;
      }
    }
  }

  /** Turning longer than budgeted takes a scan of the very travel of the worst
      case. */
  lemma OverrunHasFullTravel(c: Calibration, blocked: map<int, bool>, n: nat)
    requires c.Valid() && Admits(c, blocked, n) && OnLattice(0, WorstPlan(c.coarse, c.fineStep))
    ensures Overrun(c, blocked, n) > 0 ==>
      Travel(0, Plan(c.coarse, blocked, c.fineStep)[..n]) == Travel(0, WorstPlan(c.coarse, c.fineStep))
  {
    var visited, worst := Plan(c.coarse, blocked, c.fineStep)[..n], WorstPlan(c.coarse, c.fineStep);
    WorstCaseCovers(c, blocked, n);
    LatticeCalibration(c);
    FewStops(c);
    ScanOnSteps(c, blocked, n);
    if Travel(0, visited) < Travel(0, worst) {
      ShorterIsFaster(visited, worst);
    }
  }

  /** It then takes exactly one millisecond more, and the calibration has one of the
      three shapes. */
  lemma OverrunIsOneMillisecond(c: Calibration, blocked: map<int, bool>, n: nat)
    requires c.Valid() && Admits(c, blocked, n) && OnLattice(0, WorstPlan(c.coarse, c.fineStep))
    ensures Overrun(c, blocked, n) <= 1
    ensures Overrun(c, blocked, n) > 0 ==> Overruns(Last(c), AllMidpoints(c.coarse, c.fineStep))
  {
    OverrunHasFullTravel(c, blocked, n);
    var plan, worst := Plan(c.coarse, blocked, c.fineStep), WorstPlan(c.coarse, c.fineStep);
    var coarse, mids := CoarseSchedule(c.coarse), AllMidpoints(c.coarse, c.fineStep);
    CoarseScheduleShape(c.coarse);
    if n < |c.coarse| {
      CutIsShorter(c, n);
      assert plan[..n] == coarse[..n];
    } else {
      VisitedDescends(c, blocked, n);
      var t := plan[|coarse|..n];
      EndsDecide(0, coarse, t, mids);
      if mids == [] {
        assert t == [] || t[0] in mids;
      } else if Travel(Last(c), t) == Travel(Last(c), mids) {
        HomeOfCalibration(c);
        ExcessHome(Last(c), mids, t);
      }
    }
  }

  // ------------------------------------------------------------ the converse

  /** Keep two bearings of a list. */
  function Chosen(mids: seq<int>, x: int, y: int): seq<int> {
    if mids == [] then []
    else (if mids[0] == x || mids[0] == y then [mids[0]] else []) + Chosen(mids[1..], x, y)
  }

  /** A midpoint, or no bearing of the arc at all. */
  ghost predicate Pickable(order: seq<int>, fineStep: int, x: int) {
    x in AllMidpoints(order, fineStep) || (order != [] && (x < order[0] || order[|order| - 1] < x))
  }

  /** The rays that are blocked exactly between two bearings. */
  function BlockedBetween(order: seq<int>, x: int, y: int): map<int, bool> {
    map o | o in order :: (x < o) != (y < o)
  }

  /** A pickable bearing lies in the first gap only as that gap's midpoint. */
  lemma PickedFirst(order: seq<int>, fineStep: int, x: int)
    requires StrictlyAscending(order) && fineStep >= 1 && |order| >= 2 && Pickable(order, fineStep, x)
    ensures order[0] < x < order[1] <==> order[1] - order[0] > fineStep && x == Midpoint(order[0], order[1])
    ensures x != order[0] && x != order[1] && Pickable(order[1..], fineStep, x)
  {
    var tail := AllMidpoints(order[1..], fineStep);
    if x in AllMidpoints(order, fineStep) {
      MidpointsAreNew(order, fineStep, x);
      assert order[0] in order && order[1] in order;
      if x in tail {
        MidpointsBeyond(order[1..], fineStep, x);
      }
    }
    if order[1] - order[0] > fineStep {
      MidpointInside(order[0], order[1]);
    }
  }

  /** A pattern blocked between two midpoints refines exactly those two gaps. */
  lemma {:induction false} PatternPicks(order: seq<int>, blocked: map<int, bool>, fineStep: int, x: int, y: int)
    requires StrictlyAscending(order) && fineStep >= 1 && order != [] && x != y
    requires forall i :: 0 <= i < |order| ==> order[i] in blocked && blocked[order[i]] == ((x < order[i]) != (y < order[i]))
    requires Pickable(order, fineStep, x) && Pickable(order, fineStep, y)
    ensures TransitionMidpoints(order, blocked, fineStep) == Chosen(AllMidpoints(order, fineStep), x, y)
    decreases |order|
  {
    if |order| >= 2 {
      PickedFirst(order, fineStep, x);
      PickedFirst(order, fineStep, y);
      PatternPicks(order[1..], blocked, fineStep, x, y);
      var tail := AllMidpoints(order[1..], fineStep);
      var head := [Midpoint(order[0], order[1])];
      assert (head + tail)[1..] == tail && [] + tail == tail;
    }
  }

  lemma ScanToEnd(c: Calibration, blocked: map<int, bool>)
    requires c.Valid() && forall i :: 0 <= i < |c.coarse| ==> c.coarse[i] in blocked
    ensures var n, mids := |Plan(c.coarse, blocked, c.fineStep)|, AllMidpoints(c.coarse, c.fineStep);
      && Admits(c, blocked, n)
      && Overrun(c, blocked, n)
         == Excess(Last(c), Route(Last(c), TransitionMidpoints(c.coarse, blocked, c.fineStep)), mids)
  {
    var coarse := CoarseSchedule(c.coarse);
    var route := Route(Last(c), TransitionMidpoints(c.coarse, blocked, c.fineStep));
    PlanOnLast(c, blocked);
    EndsDecide(0, coarse, route, AllMidpoints(c.coarse, c.fineStep));
    assert (coarse + route)[..|coarse + route|] == coarse + route;
  }

  lemma PlanOnLast(c: Calibration, blocked: map<int, bool>)
    requires c.Valid() && forall i :: 0 <= i < |c.coarse| ==> c.coarse[i] in blocked
    ensures var coarse := CoarseSchedule(c.coarse);
      && coarse != [] && coarse[|coarse| - 1] == Last(c)
      && Plan(c.coarse, blocked, c.fineStep) == coarse + Route(Last(c), TransitionMidpoints(c.coarse, blocked, c.fineStep))
  {
    CoarseScheduleShape(c.coarse);
  }

  /** The scan whose pattern picks `x` and `y`, run to its end. */
  lemma PickedScan(c: Calibration, x: int, y: int) returns (blocked: map<int, bool>, n: nat)
    requires c.Valid() && x != y && Pickable(c.coarse, c.fineStep, x) && Pickable(c.coarse, c.fineStep, y)
    ensures Admits(c, blocked, n)
    ensures var mids := AllMidpoints(c.coarse, c.fineStep);
      Overrun(c, blocked, n) == Excess(Last(c), Route(Last(c), Chosen(mids, x, y)), mids)
  {
    blocked := BlockedBetween(c.coarse, x, y);
    n := |Plan(c.coarse, blocked, c.fineStep)|;
    PatternPicks(c.coarse, blocked, c.fineStep, x, y);
    ScanToEnd(c, blocked);
  }

  const BEYOND: int := 200000

  lemma SinglePositive(c: Calibration) returns (blocked: map<int, bool>, n: nat)
    requires c.Valid() && AllMidpoints(c.coarse, c.fineStep) == [30000] && Last(c) == 60000
    ensures Admits(c, blocked, n) && Overrun(c, blocked, n) > 0
  {
    blocked, n := PickedScan(c, BEYOND, BEYOND + 1);
    StraightHome(60000, 30000, 4, 2);
    assert Chosen([30000], BEYOND, BEYOND + 1) == [];
  }

  lemma PairNegative(c: Calibration) returns (blocked: map<int, bool>, n: nat)
    requires c.Valid() && WayHome(Last(c), AllMidpoints(c.coarse, c.fineStep))
    requires AllMidpoints(c.coarse, c.fineStep) == [-60000, -30000]
    ensures Admits(c, blocked, n) && Overrun(c, blocked, n) > 0
  {
    var mids := [-60000, -30000];
    assert mids[0] in mids && mids[1..] == [-30000];
    blocked, n := PickedScan(c, -60000, BEYOND);
    InSteps(Last(c));
    PairTimes(Last(c), -60000, -30000, Last(c) / STEP, 4, 2);
    assert Chosen([-30000], -60000, BEYOND) == [];
    assert Chosen(mids, -60000, BEYOND) == [-60000];
    assert ScanRoute.Reverse([-60000]) == [-60000];
  }

  lemma OuterTwo()
    ensures Chosen(THREE, -75000, -15000) == [-75000, -15000]
    ensures Route(45000, [-75000, -15000]) == [-15000, -75000]
  {
    assert THREE[1..] == [-45000, -15000] && [-45000, -15000][1..] == [-15000];
    assert Chosen([-45000, -15000], -75000, -15000) == [-15000];
    RouteDescends(45000, [-75000, -15000]);
    assert [-75000, -15000][1..] == [-15000] && ScanRoute.Reverse([-15000]) == [-15000];
  }

  lemma TripleNegative(c: Calibration) returns (blocked: map<int, bool>, n: nat)
    requires c.Valid() && AllMidpoints(c.coarse, c.fineStep) == THREE && Last(c) == 45000
    ensures Admits(c, blocked, n) && Overrun(c, blocked, n) > 0
  {
    assert THREE[0] in THREE && THREE[2] in THREE;
    blocked, n := PickedScan(c, -75000, -15000);
    TripleTimes(45000);
    OuterTwo();
  }

  /** Each of the three shapes has a scan that takes the extra millisecond. */
  lemma OverrunHappens(c: Calibration) returns (blocked: map<int, bool>, n: nat)
    requires c.Valid() && OnLattice(0, WorstPlan(c.coarse, c.fineStep))
    requires Overruns(Last(c), AllMidpoints(c.coarse, c.fineStep))
    ensures Admits(c, blocked, n) && Overrun(c, blocked, n) > 0
  {
    var mids := AllMidpoints(c.coarse, c.fineStep);
    if mids == [30000] {
      blocked, n := SinglePositive(c);
    } else if mids == [-60000, -30000] {
      HomeOfCalibration(c);
      blocked, n := PairNegative(c);
    } else {
      blocked, n := TripleNegative(c);
    }
  }

  /** So a calibration's budgeted turning time bounds all its scans, or fails to,
      by a test of its midpoints and its outermost positive bearing. */
  lemma BudgetFailsExactly(c: Calibration)
    requires c.Valid() && OnLattice(0, WorstPlan(c.coarse, c.fineStep))
    ensures (exists blocked, n :: Admits(c, blocked, n) && Overrun(c, blocked, n) > 0)
       <==> Overruns(Last(c), AllMidpoints(c.coarse, c.fineStep))
  {
    forall blocked, n | Admits(c, blocked, n)
      ensures Overrun(c, blocked, n) > 0 ==> Overruns(Last(c), AllMidpoints(c.coarse, c.fineStep))
    {
      OverrunIsOneMillisecond(c, blocked, n);
    }
    if Overruns(Last(c), AllMidpoints(c.coarse, c.fineStep)) {
      var blocked, n := OverrunHappens(c);
    }
  }

  // --------------------------------------------------- the shipped calibration

  function ShippedCalibration(): Calibration {
    Calibration([-60000, -30000, 0, 30000, 60000], 15000, 2500, 30, 120)
  }

  lemma ShippedMidpoints()
    ensures AllMidpoints([-60000, -30000, 0, 30000, 60000], 15000) == [-45000, -15000, 15000, 45000]
  {
    var a, b, c := [-30000, 0, 30000, 60000], [0, 30000, 60000], [30000, 60000];
    assert [-60000, -30000, 0, 30000, 60000][1..] == a && a[1..] == b && b[1..] == c;
    assert AllMidpoints(c, 15000) == [45000];
    assert AllMidpoints(b, 15000) == [15000, 45000];
    assert AllMidpoints(a, 15000) == [-15000, 15000, 45000];
  }

  lemma ShippedSchedule()
    ensures ShippedCalibration().Valid()
    ensures CoarseSchedule([-60000, -30000, 0, 30000, 60000]) == [0, -30000, -60000, 30000, 60000]
  {
    var order := [-60000, -30000, 0, 30000, 60000];
    assert order[2] == 0;
    NegativesSplit(order);
    CoarseScheduleShape(order);
    forall i | 0 <= i < 5
      ensures CoarseSchedule(order)[i] == [0, -30000, -60000, 30000, 60000][i]
    {
      ScheduleAt(order, i);
      assert Negatives(order) == 2;
    }
  }

  /** The default calibration gets a budget, and no scan of it turns for longer. */
  lemma ShippedBudgetHolds(blocked: map<int, bool>, n: nat)
    ensures var c := ShippedCalibration();
      && c.Valid() && OnLattice(0, WorstPlan(c.coarse, c.fineStep))
      && (Admits(c, blocked, n) ==> Overrun(c, blocked, n) <= 0)
  {
    var c := ShippedCalibration();
    ShippedMidpoints();
    ShippedSchedule();
    assert WorstPlan(c.coarse, c.fineStep) == [0, -30000, -60000, 30000, 60000, -45000, -15000, 15000, 45000];
    ShippedLattice();
    if Admits(c, blocked, n) {
      OverrunIsOneMillisecond(c, blocked, n);
    }
  }

  lemma ShippedLattice()
    ensures OnLattice(0, [0, -30000, -60000, 30000, 60000, -45000, -15000, 15000, 45000])
  {
    assert OnLattice(45000, []);
    LatticeStep(15000, 45000, []);
    LatticeStep(-15000, 15000, [45000]);
    LatticeStep(-45000, -15000, [15000, 45000]);
    LatticeStep(60000, -45000, [-15000, 15000, 45000]);
    LatticeStep(30000, 60000, [-45000, -15000, 15000, 45000]);
    LatticeStep(-60000, 30000, [60000, -45000, -15000, 15000, 45000]);
    LatticeStep(-30000, -60000, [30000, 60000, -45000, -15000, 15000, 45000]);
    LatticeStep(0, -30000, [-60000, 30000, 60000, -45000, -15000, 15000, 45000]);
    assert [0, -30000, -60000, 30000, 60000, -45000, -15000, 15000, 45000][1..]
        == [-30000, -60000, 30000, 60000, -45000, -15000, 15000, 45000];
  }
}
