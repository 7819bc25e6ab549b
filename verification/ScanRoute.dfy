/** The bearings an active infrared scan visits, the travel they cost and the
    fixed worst-case budget (src/robot_agent/active_ir_scan.py:52-110,
    src/robot_agent/active_ir_scan_contract.py:79-157). */
module ScanRoute {
  import opened Common
  import opened NavigationProfile

  const SCAN_SAMPLE_SETTLED_DURATION_MS: nat := 120
  const SCAN_FIXED_DEADLINE_HEADROOM_MS: nat := 1000

  ghost predicate StrictlyAscending(s: seq<int>) {
    forall i, j :: 0 <= i < j < |s| ==> s[i] < s[j]
  }

  /** The accepted scan calibrations. */
  datatype Calibration = Calibration(
    coarse: seq<int>,
    fineStep: int,
    tolerance: int,
    turnMsPerDegree: int,
    settleMs: int)
  {
    ghost predicate Valid() {
      && StrictlyAscending(coarse) && 0 in coarse
      && coarse[0] < 0 < coarse[|coarse| - 1]
      && (forall i :: 0 <= i < |coarse| ==> -90000 <= coarse[i] <= 90000)
      && 1000 <= fineStep <= 30000
      && 0 <= tolerance <= 10000
      && 1 <= turnMsPerDegree <= 1000
      && 0 <= settleMs <= 5000
    }
  }

  // ------------------------------------------------------------------ travel

  /** Travel through the stops in order and back to the start heading. */
  function Travel(from: int, stops: seq<int>): nat
    decreases |stops|
  {
    if stops == [] then Abs(from) else Abs(stops[0] - from) + Travel(stops[0], stops[1..])
  }

  /** Turns that actually move, the return included. */
  function Turns(from: int, stops: seq<int>): nat
    decreases |stops|
  {
    if stops == [] then (if from == 0 then 0 else 1)
    else (if stops[0] == from then 0 else 1) + Turns(stops[0], stops[1..])
  }

  /** The profile's duration of those turns. */
  function TurnTime(from: int, stops: seq<int>): nat
    decreases |stops|
  {
    if stops == [] then ScanTurnDurationMs(from)
    else ScanTurnDurationMs(stops[0] - from) + TurnTime(stops[0], stops[1..])
  }

  lemma {:induction false} TravelShift(from: int, via: int, stops: seq<int>)
    ensures Travel(from, stops) <= Abs(via - from) + Travel(via, stops)
    decreases |stops|
  {
  }

  /** Skipping ahead to a later stop never costs more. */
  lemma {:induction false} TravelSkips(from: int, stops: seq<int>, i: nat)
    requires i < |stops|
    ensures Travel(from, stops) >= Abs(stops[i] - from) + Travel(stops[i], stops[i + 1..])
    decreases |stops|
  {
    if i > 0 {
      TravelSkips(stops[0], stops[1..], i - 1);
      assert stops[1..][i..] == stops[i + 1..];
    }
  }

  lemma {:induction false} TravelOfPrefix(from: int, stops: seq<int>, n: nat)
    requires n <= |stops|
    ensures Travel(from, stops[..n]) <= Travel(from, stops)
    decreases |stops|
  {
    if n == 0 {
      TravelHome(from, stops);
    } else {
      TravelOfPrefix(stops[0], stops[1..], n - 1);
      assert stops[..n][1..] == stops[1..][..n - 1];
    }
  }

  lemma {:induction false} TravelHome(from: int, stops: seq<int>)
    ensures Travel(from, stops) >= Abs(from)
    decreases |stops|
  {
    if stops != [] {
      TravelHome(stops[0], stops[1..]);
    }
  }

  /** A cheaper tail after the same beginning makes a cheaper trip. */
  lemma {:induction false} TravelOfTail(from: int, begin: seq<int>, a: seq<int>, b: seq<int>)
    requires begin != [] && Travel(begin[|begin| - 1], a) <= Travel(begin[|begin| - 1], b)
    ensures Travel(from, begin + a) <= Travel(from, begin + b)
    decreases |begin|
  {
    assert (begin + a)[1..] == begin[1..] + a && (begin + b)[1..] == begin[1..] + b;
    if |begin| == 1 {
      assert begin[1..] + a == a && begin[1..] + b == b;
    } else {
      TravelOfTail(begin[0], begin[1..], a, b);
    }
  }

  /** One list is obtained from the other by leaving stops out. */
  ghost predicate Among(a: seq<int>, b: seq<int>) {
    a == [] || (b != [] && ((a[0] == b[0] && Among(a[1..], b[1..])) || Among(a, b[1..])))
  }

  lemma {:induction false} TravelAmong(from: int, a: seq<int>, b: seq<int>)
    requires Among(a, b)
    ensures Travel(from, a) <= Travel(from, b) && |a| <= |b|
    decreases |b|
  {
    if a == [] {
      TravelHome(from, b);
    } else if a[0] == b[0] && Among(a[1..], b[1..]) {
      TravelAmong(b[0], a[1..], b[1..]);
    } else {
      TravelAmong(b[0], a, b[1..]);
      TravelShift(from, b[0], a);
    }
  }

  // ------------------------------------------------------------------- route

  function Reverse(s: seq<int>): (r: seq<int>)
    ensures |r| == |s|
  {
    if s == [] then [] else Reverse(s[1..]) + [s[0]]
  }

  lemma {:induction false} ReversedAt(s: seq<int>, i: nat)
    requires i < |s|
    ensures Reverse(s)[i] == s[|s| - 1 - i]
  {
    if i < |s| - 1 {
      ReversedAt(s[1..], i);
    }
  }

  /** The source's key: total travel, then the nearer first ray, then the
      lexicographically smaller schedule. */
  function Route(from: int, ascending: seq<int>): seq<int> {
    if ascending == [] then []
    else
      var descending := Reverse(ascending);
      var a, d := Travel(from, ascending), Travel(from, descending);
      if d < a || (d == a && Abs(descending[0] - from) < Abs(ascending[0] - from)) then descending else ascending
  }

  /** A sweep over ascending stops costs its two ends. */
  lemma {:induction false} UpwardTravel(from: int, s: seq<int>)
    requires s != [] && StrictlyAscending(s)
    ensures Travel(from, s) == Abs(s[0] - from) + (s[|s| - 1] - s[0]) + Abs(s[|s| - 1])
    decreases |s|
  {
    if |s| > 1 {
      UpwardTravel(s[0], s[1..]);
    }
  }

  ghost predicate StrictlyDescending(s: seq<int>) {
    forall i, j :: 0 <= i < j < |s| ==> s[i] > s[j]
  }

  lemma {:induction false} DownwardTravel(from: int, s: seq<int>)
    requires s != [] && StrictlyDescending(s)
    ensures Travel(from, s) == Abs(s[0] - from) + (s[0] - s[|s| - 1]) + Abs(s[|s| - 1])
    decreases |s|
  {
    if |s| > 1 {
      DownwardTravel(s[0], s[1..]);
    }
  }

  lemma ReverseDescends(s: seq<int>)
    requires StrictlyAscending(s)
    ensures StrictlyDescending(Reverse(s))
    ensures s != [] ==> Reverse(s)[0] == s[|s| - 1] && Reverse(s)[|s| - 1] == s[0]
  {
    forall i | 0 <= i < |s|
      ensures Reverse(s)[i] == s[|s| - 1 - i]
    {
      ReversedAt(s, i);
    }
  }

  /** A trip that passes `u` before `v` costs at least the way over both. */
  lemma TravelThrough(from: int, stops: seq<int>, i: nat, j: nat)
    requires i <= j < |stops|
    ensures Travel(from, stops) >= Abs(stops[i] - from) + Abs(stops[j] - stops[i]) + Abs(stops[j])
  {
    TravelSkips(from, stops, i);
    var rest := stops[i + 1..];
    if i < j {
      TravelSkips(stops[i], rest, j - i - 1);
      assert rest[j - i - 1] == stops[j];
      TravelHome(stops[j], rest[j - i..]);
    } else {
      TravelHome(stops[i], rest);
    }
  }

  /** The chosen sweep is no longer than any order of visiting all the bearings,
      the mandatory return to the start heading included. */
  lemma RouteIsOptimal(from: int, ascending: seq<int>, order: seq<int>)
    requires StrictlyAscending(ascending)
    requires forall x :: x in ascending ==> x in order
    ensures Travel(from, Route(from, ascending)) <= Travel(from, order)
  {
    if ascending == [] {
      TravelHome(from, order);
    } else {
      var low, high := ascending[0], ascending[|ascending| - 1];
      UpwardTravel(from, ascending);
      ReverseDescends(ascending);
      DownwardTravel(from, Reverse(ascending));
      assert low in order && high in order;
      var i :| 0 <= i < |order| && order[i] == low;
      var j :| 0 <= j < |order| && order[j] == high;
      if i <= j {
        TravelThrough(from, order, i, j);
      } else {
        TravelThrough(from, order, j, i);
      }
    }
  }

  /** Of the two sweeps the shorter is chosen; of two equally long ones the one whose
      first bearing is nearer, and else the ascending one. */
  lemma RoutePrefersNearer(from: int, ascending: seq<int>)
    requires StrictlyAscending(ascending) && ascending != []
    ensures var route, low, high := Route(from, ascending), ascending[0], ascending[|ascending| - 1];
      var up, down := Abs(low - from) + Abs(high), Abs(high - from) + Abs(low);
      && (route[0] == low || route[0] == high)
      && (up < down ==> route[0] == low) && (down < up ==> route[0] == high)
      && (up == down && Abs(high - from) < Abs(low - from) ==> route[0] == high)
      && (up == down && Abs(low - from) <= Abs(high - from) ==> route[0] == low)
  {
    UpwardTravel(from, ascending);
    ReverseDescends(ascending);
    DownwardTravel(from, Reverse(ascending));
  }

  lemma RouteVisitsAll(from: int, ascending: seq<int>)
    ensures |Route(from, ascending)| == |ascending|
    ensures Travel(from, Route(from, ascending)) <= Travel(from, ascending)
    ensures forall x :: x in Route(from, ascending) <==> x in ascending
  {
    forall i | 0 <= i < |ascending|
      ensures Reverse(ascending)[i] == ascending[|ascending| - 1 - i]
    {
      ReversedAt(ascending, i);
    }
    forall x | x in ascending
      ensures x in Reverse(ascending)
    {
      var i :| 0 <= i < |ascending| && ascending[i] == x;
      assert Reverse(ascending)[|ascending| - 1 - i] == x;
    }
  }

  // --------------------------------------------------------------- midpoints

  function Midpoint(left: int, right: int): int {
    RoundHalf(left + right)
  }

  /** Midpoints of the wide gaps whose ends differ, in ascending order. */
  function TransitionMidpoints(order: seq<int>, blocked: map<int, bool>, fineStep: int): seq<int>
    requires forall i :: 0 <= i < |order| ==> order[i] in blocked
  {
    if |order| < 2 then []
    else
      (if blocked[order[0]] != blocked[order[1]] && order[1] - order[0] > fineStep
       then [Midpoint(order[0], order[1])] else [])
      + TransitionMidpoints(order[1..], blocked, fineStep)
  }

  /** The `i`th gap is wide, its ends differ, and `x` lies halfway. */
  ghost predicate TransitionAt(order: seq<int>, blocked: map<int, bool>, fineStep: int, i: nat, x: int)
    requires forall i :: 0 <= i < |order| ==> order[i] in blocked
    requires i + 1 < |order|
  {
    && blocked[order[i]] != blocked[order[i + 1]]
    && order[i + 1] - order[i] > fineStep
    && x == RoundHalf(order[i] + order[i + 1])
  }

  /** The midpoints taken are exactly those of the wide gaps whose ends differ. */
  lemma {:induction false} TransitionMidpointsMeaning(order: seq<int>, blocked: map<int, bool>, fineStep: int, x: int)
    requires forall i :: 0 <= i < |order| ==> order[i] in blocked
    ensures x in TransitionMidpoints(order, blocked, fineStep) <==>
      exists i: nat :: i + 1 < |order| && TransitionAt(order, blocked, fineStep, i, x)
  {
    if |order| >= 2 {
      var rest := order[1..];
      TransitionMidpointsMeaning(rest, blocked, fineStep, x);
      TransitionsShift(order, blocked, fineStep, x);
    }
  }

  lemma TransitionsShift(order: seq<int>, blocked: map<int, bool>, fineStep: int, x: int)
    requires forall i :: 0 <= i < |order| ==> order[i] in blocked
    requires |order| >= 2
    ensures (exists i: nat :: i + 1 < |order| && TransitionAt(order, blocked, fineStep, i, x)) <==>
      || TransitionAt(order, blocked, fineStep, 0, x)
      || exists i: nat :: i + 1 < |order[1..]| && TransitionAt(order[1..], blocked, fineStep, i, x)
  {
    var rest := order[1..];
    if i: nat :| i + 1 < |rest| && TransitionAt(rest, blocked, fineStep, i, x) {
      assert TransitionAt(order, blocked, fineStep, i + 1, x);
    }
    if i: nat :| 0 < i && i + 1 < |order| && TransitionAt(order, blocked, fineStep, i, x) {
      assert TransitionAt(rest, blocked, fineStep, i - 1, x);
    }
  }

  /** Midpoints of all wide gaps: the most refinement there can be. */
  function AllMidpoints(order: seq<int>, fineStep: int): seq<int> {
    if |order| < 2 then []
    else
      (if order[1] - order[0] > fineStep then [Midpoint(order[0], order[1])] else [])
      + AllMidpoints(order[1..], fineStep)
  }

  /** A midpoint for every wide gap, and for no other. */
  lemma {:induction false} AllMidpointsMeaning(order: seq<int>, fineStep: int, x: int)
    ensures x in AllMidpoints(order, fineStep) <==>
      exists i: nat :: i + 1 < |order| && WideAt(order, fineStep, i, x)
  {
    if |order| >= 2 {
      var rest := order[1..];
      AllMidpointsMeaning(rest, fineStep, x);
      WideShift(order, fineStep, x);
    }
  }

  lemma WideShift(order: seq<int>, fineStep: int, x: int)
    requires |order| >= 2
    ensures (exists i: nat :: i + 1 < |order| && WideAt(order, fineStep, i, x)) <==>
      || WideAt(order, fineStep, 0, x)
      || exists i: nat :: i + 1 < |order[1..]| && WideAt(order[1..], fineStep, i, x)
  {
    var rest := order[1..];
    if i: nat :| i + 1 < |rest| && WideAt(rest, fineStep, i, x) {
      assert WideAt(order, fineStep, i + 1, x);
    }
    if i: nat :| 0 < i && i + 1 < |order| && WideAt(order, fineStep, i, x) {
      assert WideAt(rest, fineStep, i - 1, x);
    }
  }

  ghost predicate WideAt(order: seq<int>, fineStep: int, i: nat, x: int)
    requires i + 1 < |order|
  {
    order[i + 1] - order[i] > fineStep && x == RoundHalf(order[i] + order[i + 1])
  }

  lemma MidpointInside(left: int, right: int)
    requires right - left >= 2
    ensures left < Midpoint(left, right) < right
  {
  }

  lemma PrependAscends(x: int, tail: seq<int>)
    requires StrictlyAscending(tail) && (tail != [] ==> x < tail[0])
    ensures StrictlyAscending([x] + tail)
  {
  }

  /** Midpoints come out sorted and without repetition, strictly inside the arc:
      collecting them in a set and sorting it would change nothing. */
  lemma {:induction false} MidpointsAscend(order: seq<int>, fineStep: int)
    requires StrictlyAscending(order) && order != [] && fineStep >= 1
    ensures var m := AllMidpoints(order, fineStep);
      && StrictlyAscending(m)
      && (m != [] ==> order[0] < m[0] && m[|m| - 1] < order[|order| - 1])
  {
    if |order| >= 2 {
      MidpointsAscend(order[1..], fineStep);
      var tail := AllMidpoints(order[1..], fineStep);
      if order[1] - order[0] > fineStep {
        MidpointInside(order[0], order[1]);
        PrependAscends(Midpoint(order[0], order[1]), tail);
      } else {
        assert [] + tail == tail;
      }
    }
  }

  lemma {:induction false} MidpointsBeyond(order: seq<int>, fineStep: int, x: int)
    requires StrictlyAscending(order) && fineStep >= 1 && x in AllMidpoints(order, fineStep)
    ensures order[0] < x
  {
    MidpointsAscend(order, fineStep);
  }

  /** No midpoint repeats a bearing that was already sampled. */
  lemma {:induction false} MidpointsAreNew(order: seq<int>, fineStep: int, x: int)
    requires StrictlyAscending(order) && fineStep >= 1 && x in AllMidpoints(order, fineStep)
    ensures x !in order
  {
    var tail := AllMidpoints(order[1..], fineStep);
    assert order == [order[0]] + order[1..];
    if x in tail {
      MidpointsAreNew(order[1..], fineStep, x);
      MidpointsBeyond(order[1..], fineStep, x);
    } else {
      MidpointInside(order[0], order[1]);
    }
  }

  lemma {:induction false} TransitionsAmongAll(order: seq<int>, blocked: map<int, bool>, fineStep: int)
    requires forall i :: 0 <= i < |order| ==> order[i] in blocked
    ensures Among(TransitionMidpoints(order, blocked, fineStep), AllMidpoints(order, fineStep))
  {
    if |order| >= 2 {
      TransitionsAmongAll(order[1..], blocked, fineStep);
      var t, m := TransitionMidpoints(order[1..], blocked, fineStep), AllMidpoints(order[1..], fineStep);
      var head := [Midpoint(order[0], order[1])];
      assert (head + t)[1..] == t && (head + m)[1..] == m && [] + t == t && [] + m == m;
      assert Among(t, head + m) && Among(head + t, head + m);
    }
  }

  lemma {:induction false} AmongKeepsOrder(a: seq<int>, b: seq<int>)
    requires Among(a, b) && StrictlyAscending(b)
    ensures StrictlyAscending(a) && (a != [] ==> b != [] && b[0] <= a[0])
  {
    if a != [] {
      if a[0] == b[0] && Among(a[1..], b[1..]) {
        AmongKeepsOrder(a[1..], b[1..]);
        PrependAscends(a[0], a[1..]);
        assert a == [a[0]] + a[1..];
      } else {
        AmongKeepsOrder(a, b[1..]);
      }
    }
  }

  lemma {:induction false} AmongIsSubset(a: seq<int>, b: seq<int>, x: int)
    requires Among(a, b) && x in a
    ensures x in b
  {
    if a[0] == b[0] && Among(a[1..], b[1..]) {
      assert a == [a[0]] + a[1..];
      if x != a[0] {
        AmongIsSubset(a[1..], b[1..], x);
      }
    } else {
      AmongIsSubset(a, b[1..], x);
    }
  }

  // ------------------------------------------------------ the whole schedule

  function Negatives(order: seq<int>): (n: nat)
    ensures n <= |order|
  {
    if order == [] || order[0] >= 0 then 0 else 1 + Negatives(order[1..])
  }

  /** Start heading first, then outwards to the right, then outwards to the left. */
  function CoarseSchedule(order: seq<int>): seq<int>
    requires 0 in order
  {
    var n := Negatives(order);
    NegativesBeforeZero(order);
    [0] + Reverse(order[..n]) + order[n + 1..]
  }

  lemma {:induction false} NegativesBeforeZero(order: seq<int>)
    requires 0 in order
    ensures Negatives(order) < |order|
  {
    if order[0] < 0 {
      assert order == [order[0]] + order[1..];
      NegativesBeforeZero(order[1..]);
    }
  }

  lemma {:induction false} NegativesSplit(order: seq<int>)
    requires StrictlyAscending(order) && 0 in order
    ensures var n := Negatives(order);
      n < |order| && order[n] == 0 && forall i :: 0 <= i < n ==> order[i] < 0
  {
    if order[0] < 0 {
      assert order == [order[0]] + order[1..];
      NegativesSplit(order[1..]);
    }
  }

  /** Everything the executor visits when nothing goes wrong. */
  function Plan(order: seq<int>, blocked: map<int, bool>, fineStep: int): seq<int>
    requires 0 in order && forall i :: 0 <= i < |order| ==> order[i] in blocked
  {
    CoarseSchedule(order)
    + Route(CoarseSchedule(order)[|CoarseSchedule(order)| - 1], TransitionMidpoints(order, blocked, fineStep))
  }

  function WorstPlan(order: seq<int>, fineStep: int): seq<int>
    requires 0 in order
  {
    CoarseSchedule(order) + AllMidpoints(order, fineStep)
  }

  lemma ScheduleAt(order: seq<int>, i: nat)
    requires StrictlyAscending(order) && 0 in order && i < |order|
    ensures |CoarseSchedule(order)| == |order| && Negatives(order) < |order| && order[Negatives(order)] == 0
    ensures var n := Negatives(order); CoarseSchedule(order)[i] == if i <= n then order[n - i] else order[i]
  {
    NegativesSplit(order);
    var n := Negatives(order);
    if 1 <= i <= n {
      ReversedAt(order[..n], i - 1);
    }
  }

  lemma CoarseScheduleShape(order: seq<int>)
    requires StrictlyAscending(order) && 0 in order && order[|order| - 1] > 0
    ensures var c := CoarseSchedule(order);
      && |c| == |order| && c[0] == 0 && c[|c| - 1] == order[|order| - 1]
      && (forall i :: 0 <= i < |c| - 1 ==> c[i] != c[i + 1])
  {
    ScheduleAt(order, 0);
    ScheduleAt(order, |order| - 1);
    var c := CoarseSchedule(order);
    forall i | 0 <= i < |c| - 1
      ensures c[i] != c[i + 1]
    {
      ScheduleAt(order, i);
      ScheduleAt(order, i + 1);
    }
  }

  lemma {:induction false} TurnsAtMost(from: int, stops: seq<int>)
    ensures Turns(from, stops) <= |stops| + 1
    decreases |stops|
  {
    if stops != [] {
      TurnsAtMost(stops[0], stops[1..]);
    }
  }

  lemma {:induction false} TurnsExactly(from: int, stops: seq<int>)
    requires stops != [] && stops[0] != from && stops[|stops| - 1] != 0
    requires forall i :: 0 <= i < |stops| - 1 ==> stops[i] != stops[i + 1]
    ensures Turns(from, stops) == |stops| + 1
    decreases |stops|
  {
    if |stops| > 1 {
      TurnsExactly(stops[0], stops[1..]);
    }
  }

  lemma WorstPlanTurns(c: Calibration)
    requires c.Valid()
    ensures Turns(0, WorstPlan(c.coarse, c.fineStep)) == |WorstPlan(c.coarse, c.fineStep)|
  {
    var coarse, mids := CoarseSchedule(c.coarse), AllMidpoints(c.coarse, c.fineStep);
    CoarseScheduleShape(c.coarse);
    MidpointsAscend(c.coarse, c.fineStep);
    var plan := coarse + mids;
    if mids != [] && mids[|mids| - 1] == 0 {
      MidpointsAreNew(c.coarse, c.fineStep, 0);
    }
    assert forall i :: |coarse| <= i < |plan| ==> plan[i] == mids[i - |coarse|];
    TurnsExactly(0, plan[1..]);
  }

  /** However the rays are blocked and wherever the scan is cut short, the travel
      home included, the turns and the rays stay within the worst case. */
  lemma WorstCaseCovers(c: Calibration, blocked: map<int, bool>, n: nat)
    requires c.Valid() && forall i :: 0 <= i < |c.coarse| ==> c.coarse[i] in blocked
    requires n <= |Plan(c.coarse, blocked, c.fineStep)|
    ensures var visited := Plan(c.coarse, blocked, c.fineStep)[..n];
      && Travel(0, visited) <= Travel(0, WorstPlan(c.coarse, c.fineStep))
      && Turns(0, visited) <= Turns(0, WorstPlan(c.coarse, c.fineStep))
      && |visited| <= |WorstPlan(c.coarse, c.fineStep)|
  {
    var coarse := CoarseSchedule(c.coarse);
    var few, all := TransitionMidpoints(c.coarse, blocked, c.fineStep), AllMidpoints(c.coarse, c.fineStep);
    var last := coarse[|coarse| - 1];
    CoarseScheduleShape(c.coarse);
    TransitionsAmongAll(c.coarse, blocked, c.fineStep);
    TravelAmong(last, few, all);
    RouteVisitsAll(last, few);
    TravelOfTail(0, coarse, Route(last, few), all);
    TravelOfPrefix(0, coarse + Route(last, few), n);
    WorstPlanTurns(c);
    TurnsOfPrefix(coarse + Route(last, few), n);
  }

  lemma TurnsOfPrefix(plan: seq<int>, n: nat)
    requires n <= |plan| && plan != [] && plan[0] == 0
    ensures Turns(0, plan[..n]) <= n
  {
    if n > 0 {
      TurnsAtMost(0, plan[..n][1..]);
    }
  }

  // ----------------------------------------------------------------- duration

  /** How far one turn's profile duration is from the exact proportion, scaled. */
  function RoundingError(magnitude: nat): int {
    2 * SCAN_TURN_REFERENCE_BODY_MDEG
      * RoundedRatio(SCAN_TURN_REFERENCE_DURATION_MS * magnitude, SCAN_TURN_REFERENCE_BODY_MDEG)
    - 2 * SCAN_TURN_REFERENCE_DURATION_MS * magnitude
  }

  lemma TurnRounds(magnitude: nat)
    ensures Abs(RoundingError(magnitude)) <= if magnitude == 0 then 0 else SCAN_TURN_REFERENCE_BODY_MDEG
  {
    var n, d := SCAN_TURN_REFERENCE_DURATION_MS * magnitude, SCAN_TURN_REFERENCE_BODY_MDEG;
    var q := (n + d / 2) / d;
    assert n + d / 2 - (d - 1) <= q * d <= n + d / 2;
  }

  function TotalError(from: int, stops: seq<int>): int {
    2 * SCAN_TURN_REFERENCE_BODY_MDEG * TurnTime(from, stops) - 2 * SCAN_TURN_REFERENCE_DURATION_MS * Travel(from, stops)
  }

  lemma ErrorsAdd(from: int, stops: seq<int>)
    requires stops != []
    ensures TotalError(from, stops) == RoundingError(Abs(stops[0] - from)) + TotalError(stops[0], stops[1..])
  {
    var t, rest := ScanTurnDurationMs(stops[0] - from), TurnTime(stops[0], stops[1..]);
    assert TurnTime(from, stops) == t + rest;
    assert Travel(from, stops) == Abs(stops[0] - from) + Travel(stops[0], stops[1..]);
  }

  /** Rounding each turn to a millisecond keeps the total within half a
      millisecond a turn of the exact proportion of the travel. */
  lemma {:induction false} TimeFollowsTravel(from: int, stops: seq<int>)
    ensures Abs(TotalError(from, stops)) <= SCAN_TURN_REFERENCE_BODY_MDEG * Turns(from, stops)
    decreases |stops|
  {
    if stops == [] {
      TurnRounds(Abs(from));
    } else {
      TurnRounds(Abs(stops[0] - from));
      ErrorsAdd(from, stops);
      TimeFollowsTravel(stops[0], stops[1..]);
    }
  }

  /** Every turn of the worst case must be on the profile's lattice. */
  ghost predicate OnLattice(from: int, stops: seq<int>)
    decreases |stops|
  {
    if stops == [] then from == 0 || ScanTurnAllowed(-from)
    else (stops[0] == from || ScanTurnAllowed(stops[0] - from)) && OnLattice(stops[0], stops[1..])
  }

  lemma LatticeStep(from: int, a: int, rest: seq<int>)
    requires ScanTurnAllowed(a - from) && OnLattice(a, rest)
    ensures OnLattice(from, [a] + rest)
  {
    assert ([a] + rest)[1..] == rest;
  }

  /** So the turning time of any scan exceeds the budgeted worst case by at most
      a millisecond for every budgeted turn. */
  lemma TurnTimeNearBudget(c: Calibration, blocked: map<int, bool>, n: nat)
    requires c.Valid() && forall i :: 0 <= i < |c.coarse| ==> c.coarse[i] in blocked
    requires n <= |Plan(c.coarse, blocked, c.fineStep)|
    ensures TurnTime(0, Plan(c.coarse, blocked, c.fineStep)[..n])
         <= TurnTime(0, WorstPlan(c.coarse, c.fineStep)) + Turns(0, WorstPlan(c.coarse, c.fineStep))
  {
    WorstCaseCovers(c, blocked, n);
    var visited, worst := Plan(c.coarse, blocked, c.fineStep)[..n], WorstPlan(c.coarse, c.fineStep);
    TimeFollowsTravel(0, visited);
    TimeFollowsTravel(0, worst);
    RoundingApart(TurnTime(0, visited), TurnTime(0, worst), Travel(0, visited), Travel(0, worst),
                  Turns(0, visited), Turns(0, worst));
  }

  lemma RoundingApart(t: nat, u: nat, travel: nat, longer: nat, turns: nat, more: nat)
    requires travel <= longer && turns <= more
    requires Abs(2 * SCAN_TURN_REFERENCE_BODY_MDEG * t - 2 * SCAN_TURN_REFERENCE_DURATION_MS * travel)
          <= SCAN_TURN_REFERENCE_BODY_MDEG * turns
    requires Abs(2 * SCAN_TURN_REFERENCE_BODY_MDEG * u - 2 * SCAN_TURN_REFERENCE_DURATION_MS * longer)
          <= SCAN_TURN_REFERENCE_BODY_MDEG * more
    ensures t <= u + more
  {
  }

  /** The excess is real: with one wide gap that needs no refinement, the direct
      return takes a millisecond longer than the budgeted stop on the way, for a
      calibration that does get a budget. */
  lemma TurnTimeCanExceedBudget()
    ensures var c, blocked := EXAMPLE, map[-30000 := false, 0 := false, 60000 := false];
      && c.Valid() && OnLattice(0, WorstPlan(c.coarse, c.fineStep))
      && TurnTime(0, Plan(c.coarse, blocked, c.fineStep)) == TurnTime(0, WorstPlan(c.coarse, c.fineStep)) + 1
  {
    var blocked := map[-30000 := false, 0 := false, 60000 := false];
    ExamplePlans(blocked);
    ExampleTimes();
    ExampleLattice();
  }

  lemma ExampleLattice()
    ensures OnLattice(0, [0, -30000, 60000, 30000])
  {
    LatticeStep(60000, 30000, []);
    LatticeStep(-30000, 60000, [30000]);
    LatticeStep(0, -30000, [60000, 30000]);
    assert [0, -30000, 60000, 30000][1..] == [-30000, 60000, 30000];
  }

  lemma ExampleTimes()
    ensures TurnTime(0, [0, -30000, 60000]) == 853 + 2560 + 1707
    ensures TurnTime(0, [0, -30000, 60000, 30000]) == 853 + 2560 + 853 + 853
  {
    ExampleTurns();
    TimeOfThree(0, -30000, 60000, []);
    TimeOfThree(0, -30000, 60000, [30000]);
    assert [0, -30000, 60000] + [] == [0, -30000, 60000];
    assert [0, -30000, 60000] + [30000] == [0, -30000, 60000, 30000];
    ExampleReturn();
  }

  lemma ExampleTurns()
    ensures ScanTurnDurationMs(0) == 0 && ScanTurnDurationMs(-30000) == 853
    ensures ScanTurnDurationMs(60000) == 1707 && ScanTurnDurationMs(90000) == 2560
  {
  }

  lemma ExampleReturn()
    ensures TurnTime(60000, [30000]) == 853 + 853
  {
    TimeOfOne(60000, 30000, []);
    assert [30000] + [] == [30000];
    assert ScanTurnDurationMs(30000) == 853 == ScanTurnDurationMs(-30000);
  }

  const EXAMPLE := Calibration([-30000, 0, 60000], 30000, 2500, 30, 120)

  lemma ExamplePlans(blocked: map<int, bool>)
    requires blocked == map[-30000 := false, 0 := false, 60000 := false]
    ensures EXAMPLE.Valid()
    ensures Plan(EXAMPLE.coarse, blocked, EXAMPLE.fineStep) == [0, -30000, 60000]
    ensures WorstPlan(EXAMPLE.coarse, EXAMPLE.fineStep) == [0, -30000, 60000, 30000]
  {
    var order := EXAMPLE.coarse;
    assert order[1] == 0;
    NegativesSplit(order);
    assert order[1..] == [0, 60000] && order[1..][1..] == [60000];
    assert order[..1] == [-30000] && order[1 + 1..] == [60000];
    assert Reverse([-30000]) == [-30000];
    assert CoarseSchedule(order) == [0, -30000, 60000];
    assert TransitionMidpoints(order[1..], blocked, 30000) == [];
    assert AllMidpoints(order[1..], 30000) == [30000];
  }

  lemma TimeOfThree(a: int, b: int, c: int, rest: seq<int>)
    ensures TurnTime(0, [a, b, c] + rest)
         == ScanTurnDurationMs(a) + ScanTurnDurationMs(b - a) + ScanTurnDurationMs(c - b) + TurnTime(c, rest)
  {
    TimeOfOne(0, a, [b, c] + rest);
    TimeOfOne(a, b, [c] + rest);
    TimeOfOne(b, c, rest);
    assert [a] + ([b, c] + rest) == [a, b, c] + rest && [b] + ([c] + rest) == [b, c] + rest;
  }

  lemma TimeOfOne(from: int, a: int, rest: seq<int>)
    ensures TurnTime(from, [a] + rest) == ScanTurnDurationMs(a - from) + TurnTime(a, rest)
  {
    assert ([a] + rest)[1..] == rest;
  }

  // ------------------------------------------------------------------ methods

  lemma TransitionStep(order: seq<int>, blocked: map<int, bool>, fineStep: int, i: nat, found: seq<int>)
    requires forall j :: 0 <= j < |order| ==> order[j] in blocked
    requires i + 1 < |order|
    ensures var left, right := order[i], order[i + 1];
      found + TransitionMidpoints(order[i..], blocked, fineStep)
      == (if blocked[left] != blocked[right] && right - left > fineStep
          then found + [Midpoint(left, right)] else found) + TransitionMidpoints(order[i + 1..], blocked, fineStep)
  {
    assert order[i..][1..] == order[i + 1..];
  }

  /** The source's refinement loop and route choice. */
  method ChooseRoute(order: seq<int>, blocked: map<int, bool>, fineStep: int, current: int) returns (route: seq<int>)
    requires StrictlyAscending(order) && fineStep >= 1
    requires forall i :: 0 <= i < |order| ==> order[i] in blocked
    ensures route == Route(current, TransitionMidpoints(order, blocked, fineStep))
  {
    var candidates := FindCandidates(order, blocked, fineStep);
    route := Route(current, candidates);
  }

  method FindCandidates(order: seq<int>, blocked: map<int, bool>, fineStep: int) returns (candidates: seq<int>)
    requires forall i :: 0 <= i < |order| ==> order[i] in blocked
    ensures candidates == TransitionMidpoints(order, blocked, fineStep)
  {
    candidates := [];
    ghost var wanted := TransitionMidpoints(order, blocked, fineStep);
    assert order[0..] == order;
    var i := 0;
    while i + 1 < |order|
      invariant 0 <= i <= |order| && (order != [] ==> i < |order|)
      invariant candidates + TransitionMidpoints(order[i..], blocked, fineStep) == wanted
    {
      TransitionStep(order, blocked, fineStep, i, candidates);
      if blocked[order[i]] != blocked[order[i + 1]] && order[i + 1] - order[i] > fineStep {
        candidates := candidates + [Midpoint(order[i], order[i + 1])];
      }
      i := i + 1;
    }
  }

  datatype Budget = Budget(
    turnCount: nat,
    turnSliceCount: nat,
    turnDurationMs: nat,
    rayCount: nat,
    workerRequestCount: nat,
    minimumDeadlineMs: nat)

  datatype BudgetOutcome = Granted(budget: Budget) | InvalidCalibration | UnsupportedLattice

  /** Motor slices of those turns. */
  function TurnSlices(from: int, stops: seq<int>): nat
    decreases |stops|
  {
    if stops == [] then OneTurnSlices(-from)
    else OneTurnSlices(stops[0] - from) + TurnSlices(stops[0], stops[1..])
  }

  function OneTurnSlices(delta: int): nat {
    if delta == 0 then 0 else SliceCount(ScanTurnDurationMs(delta))
  }

  /** Turning, stationary sampling, one round trip a request and fixed headroom; a
      scan makes as many turns as rays, one last sample and one stop. */
  function MinimumDeadline(turnDurationMs: nat, rayCount: nat, headroomMs: nat): nat {
    turnDurationMs + (rayCount + 1) * SCAN_SAMPLE_SETTLED_DURATION_MS
    + (2 * rayCount + 2) * headroomMs + SCAN_FIXED_DEADLINE_HEADROOM_MS
  }

  lemma NextStop(from: int, targets: seq<int>, i: nat)
    requires i < |targets|
    ensures Turns(from, targets[i..]) == (if targets[i] == from then 0 else 1) + Turns(targets[i], targets[i + 1..])
    ensures TurnSlices(from, targets[i..]) == OneTurnSlices(targets[i] - from) + TurnSlices(targets[i], targets[i + 1..])
    ensures TurnTime(from, targets[i..]) == ScanTurnDurationMs(targets[i] - from) + TurnTime(targets[i], targets[i + 1..])
    ensures OnLattice(from, targets[i..]) <==>
      (targets[i] == from || ScanTurnAllowed(targets[i] - from)) && OnLattice(targets[i], targets[i + 1..])
  {
    assert targets[i..][1..] == targets[i + 1..];
  }

  /** Add up the turns of a list of stops; `None` when one is off the lattice. */
  method CountTurns(targets: seq<int>) returns (r: Option<(nat, nat, nat)>)
    ensures r.Some? <==> OnLattice(0, targets)
    ensures r.Some? ==> r.value == (Turns(0, targets), TurnSlices(0, targets), TurnTime(0, targets))
  {
    var current, count, slices, durationMs := 0, 0, 0, 0;
    var i := 0;
    assert targets[0..] == targets;
    while i < |targets|
      invariant 0 <= i <= |targets|
      invariant count + Turns(current, targets[i..]) == Turns(0, targets)
      invariant slices + TurnSlices(current, targets[i..]) == TurnSlices(0, targets)
      invariant durationMs + TurnTime(current, targets[i..]) == TurnTime(0, targets)
      invariant OnLattice(0, targets) <==> OnLattice(current, targets[i..])
    {
      NextStop(current, targets, i);
      var delta := targets[i] - current;
      if delta != 0 {
        if !ScanTurnAllowed(delta) {
          return None;
        }
        var turnMs := ScanTurnDurationMs(delta);
        count, slices, durationMs := count + 1, slices + SliceCount(turnMs), durationMs + turnMs;
      }
      current := targets[i];
      i := i + 1;
    }
    if current != 0 {
      if !ScanTurnAllowed(-current) {
        return None;
      }
      var turnMs := ScanTurnDurationMs(-current);
      count, slices, durationMs := count + 1, slices + SliceCount(turnMs), durationMs + turnMs;
    }
    return Some((count, slices, durationMs));
  }

  /** A budget exactly for a sensible headroom and a calibration on the lattice. */
  method WorstCaseScanBudget(c: Calibration, headroomMs: int) returns (r: BudgetOutcome)
    requires c.Valid()
    ensures r.InvalidCalibration? <==> !(1 <= headroomMs <= 10000)
    ensures r.Granted? <==> 1 <= headroomMs <= 10000 && OnLattice(0, WorstPlan(c.coarse, c.fineStep))
    ensures r.Granted? ==>
      var plan, b := WorstPlan(c.coarse, c.fineStep), r.budget;
      && b.turnCount == Turns(0, plan) == |plan| == b.rayCount
      && b.turnSliceCount == TurnSlices(0, plan)
      && b.turnDurationMs == TurnTime(0, plan)
      && b.workerRequestCount == b.turnCount + b.rayCount + 2
      && b.minimumDeadlineMs
         == b.turnDurationMs + 120 * (b.rayCount + 1) + b.workerRequestCount * headroomMs + 1000
  {
    if !(1 <= headroomMs <= 10000) {
      return InvalidCalibration;
    }
    var targets := WorstPlan(c.coarse, c.fineStep);
    var counted := CountTurns(targets);
    if counted.None? {
      return UnsupportedLattice;
    }
    WorstPlanTurns(c);
    var (count, slices, durationMs) := counted.value;
    return Granted(Budget(count, slices, durationMs, |targets|, count + |targets| + 2,
                          MinimumDeadline(durationMs, |targets|, headroomMs)));
  }
}
