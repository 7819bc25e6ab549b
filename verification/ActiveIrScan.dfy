/** The active infrared scan: a stateful executor and an independent validator
    (src/robot_agent/active_ir_scan.py, src/robot_agent/active_ir_scan_contract.py).

    The rig, its clock and the cancellation probe are free outcomes; the clock is
    monotone. Any contract error cancels the scan, any other exception leaves
    `Execute` without a result. */
module ActiveIrScan {
  import opened Common
  import opened ScanRoute

  datatype Basis = Basis(scan: int, target: int, frame: int, generation: int, mapVersion: int)

  datatype Request = Request(
    basis: Basis,
    startHeading: int,
    startStateVersion: int,
    createdAtMs: int,
    deadlineMs: int,
    createdMonotonicMs: int,
    deadlineMonotonicMs: int,
    maxSnapshotAgeMs: int,
    calibration: Calibration)
  {
    ghost predicate Valid() {
      && startStateVersion > 0
      && 0 <= createdAtMs < deadlineMs
      && 0 <= createdMonotonicMs < deadlineMonotonicMs
      && deadlineMs - createdAtMs == deadlineMonotonicMs - createdMonotonicMs
      && 1 <= maxSnapshotAgeMs <= 2000
      && calibration.Valid()
    }

    /** Evidence time is anchored to the request, whatever the wall clock does. */
    function EvidenceTime(monotonicMs: int): (r: int)
      ensures monotonicMs <= createdMonotonicMs ==> r == createdAtMs
      ensures monotonicMs >= createdMonotonicMs ==> r - createdAtMs == monotonicMs - createdMonotonicMs
    {
      createdAtMs + Max(0, monotonicMs - createdMonotonicMs)
    }
  }

  datatype Ray = Ray(ordinal: int, requested: int, actual: int, observedAtMs: int, stateVersion: int, blocked: bool)

  datatype Status = Completed | Cancelled

  datatype Result = Result(
    basis: Basis,
    startedAtMs: int,
    completedAtMs: int,
    status: Status,
    stopConfirmed: bool,
    restored: bool,
    rays: seq<Ray>,
    left: Option<int>,
    right: Option<int>)

  // ------------------------------------------------------------- boundaries

  function Bearings(rays: seq<Ray>): (r: seq<int>)
    ensures |r| == |rays| && forall i :: 0 <= i < |rays| ==> r[i] == rays[i].requested
  {
    seq(|rays|, i requires 0 <= i < |rays| => rays[i].requested)
  }

  function BlockedBy(rays: seq<Ray>): (m: map<int, bool>)
    ensures forall i :: 0 <= i < |rays| ==> rays[i].requested in m
  {
    if rays == [] then map[] else BlockedBy(rays[..|rays| - 1])[rays[|rays| - 1].requested := rays[|rays| - 1].blocked]
  }

  lemma {:induction false} SortKeepsElements(s: seq<int>)
    ensures multiset(Sort(s)) == multiset(s)
  {
    if s != [] {
      SortKeepsElements(s[..|s| - 1]);
      InsertKeepsElements(s[|s| - 1], Sort(s[..|s| - 1]));
      assert s == s[..|s| - 1] + [s[|s| - 1]];
    }
  }

  lemma {:induction false} InsertKeepsElements(x: int, s: seq<int>)
    ensures multiset(Insert(x, s)) == multiset(s) + multiset{x}
  {
    if s != [] && x > s[0] {
      InsertKeepsElements(x, s[1..]);
      assert s == [s[0]] + s[1..];
    }
  }

  lemma SortedIn(rays: seq<Ray>, x: int)
    ensures x in Sort(Bearings(rays)) <==> x in Bearings(rays)
  {
    SortKeepsElements(Bearings(rays));
    assert x in multiset(Sort(Bearings(rays))) <==> x in multiset(Bearings(rays));
  }

  lemma SortedAreKeys(rays: seq<Ray>)
    ensures forall i :: 0 <= i < |rays| ==> Sort(Bearings(rays))[i] in BlockedBy(rays)
  {
    forall i | 0 <= i < |rays|
      ensures Sort(Bearings(rays))[i] in BlockedBy(rays)
    {
      SortedIn(rays, Sort(Bearings(rays))[i]);
      var j :| 0 <= j < |rays| && Bearings(rays)[j] == Sort(Bearings(rays))[i];
    }
  }

  /** Midpoints between neighbouring bearings that disagree about an obstacle. */
  function Transitions(rays: seq<Ray>): seq<int> {
    SortedAreKeys(rays);
    TransitionMidpoints(Sort(Bearings(rays)), BlockedBy(rays), 0)
  }

  // ------------------------------------------------ boundaries among the rays

  /** Two rays with no sampled bearing between them, the smaller bearing first. */
  ghost predicate Neighbours(rays: seq<Ray>, i: nat, j: nat)
    requires i < |rays| && j < |rays|
  {
    && rays[i].requested < rays[j].requested
    && forall k :: 0 <= k < |rays| ==> rays[k].requested <= rays[i].requested || rays[j].requested <= rays[k].requested
  }

  /** One of two neighbouring rays is blocked, they are more than `gap` apart, and
      `x` lies halfway between them. */
  ghost predicate BoundaryBetween(rays: seq<Ray>, i: nat, j: nat, gap: int, x: int) {
    && i < |rays| && j < |rays| && Neighbours(rays, i, j)
    && rays[i].blocked != rays[j].blocked
    && rays[j].requested - rays[i].requested > gap
    && x == RoundHalf(rays[i].requested + rays[j].requested)
  }

  ghost predicate Boundary(rays: seq<Ray>, gap: int, x: int) {
    exists i: nat, j: nat :: BoundaryBetween(rays, i, j, gap, x)
  }

  /** The nearest boundary to the left, if there is one. */
  ghost predicate NearestLeft(rays: seq<Ray>, left: Option<int>) {
    && (left.Some? ==> left.value > 0 && Boundary(rays, 0, left.value))
    && (forall x :: x > 0 && Boundary(rays, 0, x) ==> left.Some? && left.value <= x)
  }

  ghost predicate NearestRight(rays: seq<Ray>, right: Option<int>) {
    && (right.Some? ==> right.value < 0 && Boundary(rays, 0, right.value))
    && (forall x :: x < 0 && Boundary(rays, 0, x) ==> right.Some? && x <= right.value)
  }

  lemma {:induction false} BlockedByMeaning(rays: seq<Ray>, i: nat)
    requires i < |rays| && forall j :: i < j < |rays| ==> rays[j].requested != rays[i].requested
    ensures BlockedBy(rays)[rays[i].requested] == rays[i].blocked
    decreases |rays|
  {
    if i < |rays| - 1 {
      BlockedByMeaning(rays[..|rays| - 1], i);
    }
  }

  lemma RayAt(rays: seq<Ray>, x: int) returns (i: nat)
    requires Distinct(Bearings(rays)) && x in Sort(Bearings(rays))
    ensures i < |rays| && rays[i].requested == x && BlockedBy(rays)[x] == rays[i].blocked
  {
    SortedIn(rays, x);
    i :| i < |rays| && Bearings(rays)[i] == x;
    assert forall j :: i < j < |rays| ==> Bearings(rays)[i] != Bearings(rays)[j];
    BlockedByMeaning(rays, i);
  }

  lemma NotBetween(rays: seq<Ray>, order: seq<int>, k: nat, m: nat)
    requires order == Sort(Bearings(rays)) && StrictlyAscending(order) && k + 1 < |order| && m < |rays|
    ensures rays[m].requested <= order[k] || order[k + 1] <= rays[m].requested
  {
    SortedIn(rays, Bearings(rays)[m]);
    var at :| 0 <= at < |order| && order[at] == rays[m].requested;
    assert at <= k || k + 1 <= at;
  }

  lemma BoundaryFromOrder(rays: seq<Ray>, order: seq<int>, blocked: map<int, bool>, gap: nat, x: int, k: nat)
    requires Distinct(Bearings(rays)) && order == Sort(Bearings(rays)) && blocked == BlockedBy(rays)
    requires k + 1 < |order| && forall i :: 0 <= i < |order| ==> order[i] in blocked
    requires TransitionAt(order, blocked, gap, k, x)
    ensures Boundary(rays, gap, x)
  {
    SortIsStrict(Bearings(rays));
    var i := RayAt(rays, order[k]);
    var j := RayAt(rays, order[k + 1]);
    NextInOrder(rays, order, k, i, j);
    EndsDiffer(order, blocked, gap, k, x, rays[i], rays[j]);
    BoundaryIs(rays, i, j, gap, x);
  }

  lemma EndsDiffer(order: seq<int>, blocked: map<int, bool>, gap: int, k: nat, x: int, left: Ray, right: Ray)
    requires k + 1 < |order| && forall i :: 0 <= i < |order| ==> order[i] in blocked
    requires TransitionAt(order, blocked, gap, k, x)
    requires left.requested == order[k] && right.requested == order[k + 1]
    requires blocked[order[k]] == left.blocked && blocked[order[k + 1]] == right.blocked
    ensures left.blocked != right.blocked && right.requested - left.requested > gap
    ensures x == RoundHalf(left.requested + right.requested)
  {
  }

  lemma NextInOrder(rays: seq<Ray>, order: seq<int>, k: nat, i: nat, j: nat)
    requires order == Sort(Bearings(rays)) && StrictlyAscending(order) && k + 1 < |order|
    requires i < |rays| && j < |rays| && rays[i].requested == order[k] && rays[j].requested == order[k + 1]
    ensures Neighbours(rays, i, j)
  {
    forall m | 0 <= m < |rays|
      ensures rays[m].requested <= order[k] || order[k + 1] <= rays[m].requested
    {
      NotBetween(rays, order, k, m);
    }
  }

  lemma BoundaryIs(rays: seq<Ray>, i: nat, j: nat, gap: int, x: int)
    requires i < |rays| && j < |rays| && Neighbours(rays, i, j) && rays[i].blocked != rays[j].blocked
    requires rays[j].requested - rays[i].requested > gap && x == RoundHalf(rays[i].requested + rays[j].requested)
    ensures Boundary(rays, gap, x)
  {
    assert BoundaryBetween(rays, i, j, gap, x);
  }

  lemma BoundaryToOrder(rays: seq<Ray>, gap: nat, x: int, i: nat, j: nat) returns (k: nat)
    requires Distinct(Bearings(rays)) && BoundaryBetween(rays, i, j, gap, x)
    requires forall i :: 0 <= i < |rays| ==> Sort(Bearings(rays))[i] in BlockedBy(rays)
    ensures k + 1 < |rays| && TransitionAt(Sort(Bearings(rays)), BlockedBy(rays), gap, k, x)
  {
    var order := Sort(Bearings(rays));
    SortIsStrict(Bearings(rays));
    SortedIn(rays, Bearings(rays)[i]);
    SortedIn(rays, Bearings(rays)[j]);
    k :| k < |order| && order[k] == rays[i].requested;
    var m :| 0 <= m < |order| && order[m] == rays[j].requested;
    assert k < m;
    var next := RayAt(rays, order[k + 1]);
    assert order[k] < order[k + 1] <= order[m];
    var same := RayAt(rays, order[k]);
    assert Bearings(rays)[same] == Bearings(rays)[i] && Bearings(rays)[next] == Bearings(rays)[j];
  }

  /** The transitions computed from the sorted bearings are exactly the boundaries
      among the rays. */
  lemma TransitionsAreBoundaries(rays: seq<Ray>, gap: nat, x: int)
    requires Distinct(Bearings(rays))
    requires forall i :: 0 <= i < |rays| ==> Sort(Bearings(rays))[i] in BlockedBy(rays)
    ensures x in TransitionMidpoints(Sort(Bearings(rays)), BlockedBy(rays), gap) <==> Boundary(rays, gap, x)
  {
    var order := Sort(Bearings(rays));
    TransitionMidpointsMeaning(order, BlockedBy(rays), gap, x);
    if k: nat :| k + 1 < |order| && TransitionAt(order, BlockedBy(rays), gap, k, x) {
      BoundaryFromOrder(rays, order, BlockedBy(rays), gap, x, k);
    }
    if i: nat, j: nat :| BoundaryBetween(rays, i, j, gap, x) {
      var k := BoundaryToOrder(rays, gap, x, i, j);
    }
  }

  lemma NearestAreNearest(rays: seq<Ray>)
    requires Distinct(Bearings(rays))
    ensures NearestLeft(rays, LeastPositive(Transitions(rays)))
    ensures NearestRight(rays, GreatestNegative(Transitions(rays)))
  {
    SortedAreKeys(rays);
    forall x
      ensures x in Transitions(rays) <==> Boundary(rays, 0, x)
    {
      TransitionsAreBoundaries(rays, 0, x);
    }
  }

  function LeastPositive(s: seq<int>): (r: Option<int>)
    ensures r.Some? ==> r.value in s && r.value > 0 && forall x :: x in s && x > 0 ==> r.value <= x
    ensures r.None? ==> forall x :: x in s ==> x <= 0
  {
    if s == [] then None
    else
      var rest := LeastPositive(s[1..]);
      assert s == [s[0]] + s[1..];
      if s[0] > 0 && (rest.None? || s[0] <= rest.value) then Some(s[0]) else rest
  }

  function GreatestNegative(s: seq<int>): (r: Option<int>)
    ensures r.Some? ==> r.value in s && r.value < 0 && forall x :: x in s && x < 0 ==> r.value >= x
    ensures r.None? ==> forall x :: x in s ==> x >= 0
  {
    if s == [] then None
    else
      var rest := GreatestNegative(s[1..]);
      assert s == [s[0]] + s[1..];
      if s[0] < 0 && (rest.None? || s[0] >= rest.value) then Some(s[0]) else rest
  }

  // -------------------------------------------------------------- validator

  /** What one more ray must satisfy, given the rays before it: fresh, later than
      the last one, aligned, numbered next and at a bearing not sampled yet. */
  predicate Follows(ray: Ray, rays: seq<Ray>, request: Request) {
    && (if rays == [] then request.createdAtMs - 1 else rays[|rays| - 1].observedAtMs) < ray.observedAtMs
    && ray.observedAtMs <= request.deadlineMs
    && (if rays == [] then request.startStateVersion else rays[|rays| - 1].stateVersion) < ray.stateVersion
    && Abs(ray.actual - ray.requested) <= request.calibration.tolerance
    && ray.ordinal == |rays| + 1
    && ray.requested !in Bearings(rays)
  }

  predicate RaysInOrder(rays: seq<Ray>, request: Request) {
    if rays == [] then true
    else
      var before := rays[..|rays| - 1];
      RaysInOrder(before, request) && Follows(rays[|rays| - 1], before, request)
  }

  lemma RaysExtend(rays: seq<Ray>, ray: Ray, request: Request)
    ensures RaysInOrder(rays + [ray], request) <==> RaysInOrder(rays, request) && Follows(ray, rays, request)
    ensures Bearings(rays + [ray]) == Bearings(rays) + [ray.requested]
  {
    assert (rays + [ray])[..|rays|] == rays;
  }

  ghost predicate Distinct(s: seq<int>) {
    forall i, j :: 0 <= i < j < |s| ==> s[i] != s[j]
  }

  /** Rays in order are numbered, strictly later one after another, and at
      pairwise different bearings. */
  lemma {:induction false} RaysInOrderMeaning(rays: seq<Ray>, request: Request, i: nat, j: nat)
    requires RaysInOrder(rays, request) && i < j < |rays|
    ensures rays[i].ordinal == i + 1 && rays[j].ordinal == j + 1
    ensures request.createdAtMs <= rays[i].observedAtMs < rays[j].observedAtMs <= request.deadlineMs
    ensures request.startStateVersion < rays[i].stateVersion < rays[j].stateVersion
    ensures rays[i].requested != rays[j].requested
    decreases |rays|
  {
    var before := rays[..|rays| - 1];
    if j < |rays| - 1 {
      RaysInOrderMeaning(before, request, i, j);
    } else {
      assert Bearings(before)[i] == rays[i].requested;
      if i < |rays| - 2 {
        RaysInOrderMeaning(before, request, i, |rays| - 2);
      } else if i > 0 {
        RaysInOrderMeaning(before, request, i - 1, i);
      } else {
        assert before[..0] == [];
      }
    }
  }

  lemma BearingsDistinct(rays: seq<Ray>, request: Request)
    requires RaysInOrder(rays, request)
    ensures Distinct(Bearings(rays))
  {
    forall i, j | 0 <= i < j < |rays|
      ensures Bearings(rays)[i] != Bearings(rays)[j]
    {
      RaysInOrderMeaning(rays, request, i, j);
    }
  }

  /** What a scan result must show to be accepted as evidence. */
  ghost predicate Acceptable(result: Result, request: Request, current: Basis) {
    && result.basis == request.basis
    && current.frame == request.basis.frame && current.generation == request.basis.generation
    && current.mapVersion == request.basis.mapVersion
    && request.createdAtMs <= result.startedAtMs <= result.completedAtMs <= request.deadlineMs
    && RaysInOrder(result.rays, request)
    && (result.left.Some? ==> result.left.value > 0 && Boundary(result.rays, 0, result.left.value))
    && (result.right.Some? ==> result.right.value < 0 && Boundary(result.rays, 0, result.right.value))
    && (result.status == Completed ==> result.stopConfirmed && result.restored && result.left.Some? && result.right.Some?)
    && (result.restored ==> result.stopConfirmed)
  }

  lemma {:induction false} PrefixInOrder(rays: seq<Ray>, n: nat, request: Request)
    requires n <= |rays| && RaysInOrder(rays, request)
    ensures RaysInOrder(rays[..n], request)
    decreases |rays|
  {
    if n == |rays| {
      assert rays[..n] == rays;
    } else {
      PrefixInOrder(rays[..|rays| - 1], n, request);
      assert rays[..|rays| - 1][..n] == rays[..n];
    }
  }

  method RaysAreInOrder(rays: seq<Ray>, request: Request) returns (ok: bool)
    ensures ok <==> RaysInOrder(rays, request)
  {
    var i := 0;
    ok := true;
    while i < |rays| && ok
      invariant 0 <= i <= |rays|
      invariant ok <==> RaysInOrder(rays[..i], request)
    {
      assert rays[..i + 1] == rays[..i] + [rays[i]];
      RaysExtend(rays[..i], rays[i], request);
      ok := Follows(rays[i], rays[..i], request);
      i := i + 1;
    }
    if ok {
      assert rays[..i] == rays;
    } else if RaysInOrder(rays, request) {
      PrefixInOrder(rays, i, request);
    }
  }

  /** `validate_scan_result` decides exactly the declarative condition. */
  method Validate(result: Result, request: Request, current: Basis) returns (accepted: bool)
    ensures accepted <==> Acceptable(result, request, current)
  {
    if result.basis != request.basis
      || current.frame != request.basis.frame || current.generation != request.basis.generation
      || current.mapVersion != request.basis.mapVersion
    {
      return false;
    }
    if result.startedAtMs < request.createdAtMs || result.completedAtMs < result.startedAtMs
      || result.completedAtMs > request.deadlineMs
    {
      return false;
    }
    var inOrder := RaysAreInOrder(result.rays, request);
    if !inOrder {
      return false;
    }
    BearingsDistinct(result.rays, request);
    SortedAreKeys(result.rays);
    forall x
      ensures x in Transitions(result.rays) <==> Boundary(result.rays, 0, x)
    {
      TransitionsAreBoundaries(result.rays, 0, x);
    }
    var transitions := Transitions(result.rays);
    if (result.left.Some? && (result.left.value <= 0 || result.left.value !in transitions))
      || (result.right.Some? && (result.right.value >= 0 || result.right.value !in transitions))
    {
      return false;
    }
    if result.status == Completed
      && !(result.stopConfirmed && result.restored && result.left.Some? && result.right.Some?)
    {
      return false;
    }
    return !result.restored || result.stopConfirmed;
  }

  // ---------------------------------------------- sorting distinct bearings

  lemma {:induction false} InsertKeepsStrict(x: int, s: seq<int>)
    requires StrictlyAscending(s) && x !in s
    ensures StrictlyAscending(Insert(x, s))
    ensures Insert(x, s)[0] == if s == [] then x else Min(x, s[0])
  {
    if s != [] && x > s[0] {
      InsertKeepsStrict(x, s[1..]);
      PrependAscends(s[0], Insert(x, s[1..]));
    } else {
      PrependAscends(x, s);
    }
  }

  lemma {:induction false} SortIsStrict(s: seq<int>)
    requires Distinct(s)
    ensures StrictlyAscending(Sort(s))
  {
    if s != [] {
      var before, last := s[..|s| - 1], s[|s| - 1];
      SortIsStrict(before);
      SortKeepsElements(before);
      assert last in multiset(Sort(before)) <==> last in multiset(before);
      InsertKeepsStrict(last, Sort(before));
    }
  }

  lemma {:induction false} AscendingIsUnique(a: seq<int>, b: seq<int>)
    requires StrictlyAscending(a) && StrictlyAscending(b) && multiset(a) == multiset(b)
    ensures a == b
  {
    assert |a| == |multiset(a)| && |b| == |multiset(b)|;
    if a != [] {
      LeastIsFirst(a, b);
      LeastIsFirst(b, a);
      TailElements(a);
      TailElements(b);
      AscendingIsUnique(a[1..], b[1..]);
      assert a == [a[0]] + a[1..] && b == [b[0]] + b[1..];
    }
  }

  lemma LeastIsFirst(a: seq<int>, b: seq<int>)
    requires a != [] && b != [] && StrictlyAscending(b) && multiset(a) == multiset(b)
    ensures b[0] <= a[0]
  {
    assert a[0] in multiset(b);
  }

  lemma TailElements(s: seq<int>)
    requires s != []
    ensures multiset(s[1..]) == multiset(s) - multiset{s[0]}
  {
    assert s == [s[0]] + s[1..];
  }

  lemma {:induction false} ReverseKeepsElements(s: seq<int>)
    ensures multiset(Reverse(s)) == multiset(s)
  {
    if s != [] {
      ReverseKeepsElements(s[1..]);
      assert s == [s[0]] + s[1..];
    }
  }

  lemma ScheduleKeepsElements(order: seq<int>)
    requires StrictlyAscending(order) && 0 in order
    ensures multiset(CoarseSchedule(order)) == multiset(order)
  {
    NegativesSplit(order);
    var n := Negatives(order);
    ReverseKeepsElements(order[..n]);
    ThreeParts(order, n);
  }

  lemma ThreeParts(s: seq<int>, n: nat)
    requires n < |s|
    ensures multiset(s) == multiset(s[..n]) + multiset([s[n]]) + multiset(s[n + 1..])
  {
    assert s == s[..n] + [s[n]] + s[n + 1..];
  }

  /** Sorting the sampled bearings of a complete coarse pass gives back the
      calibration's own order. */
  lemma SortedSchedule(order: seq<int>)
    requires StrictlyAscending(order) && 0 in order
    ensures Sort(CoarseSchedule(order)) == order
    ensures Distinct(CoarseSchedule(order))
  {
    ScheduleKeepsElements(order);
    ElementsDistinct(order, CoarseSchedule(order));
    SortIsStrict(CoarseSchedule(order));
    SortKeepsElements(CoarseSchedule(order));
    AscendingIsUnique(Sort(CoarseSchedule(order)), order);
  }

  lemma ElementsDistinct(a: seq<int>, b: seq<int>)
    requires StrictlyAscending(a) && multiset(a) == multiset(b)
    ensures Distinct(b)
  {
    forall i, j | 0 <= i < j < |b|
      ensures b[i] != b[j]
    {
      if b[i] == b[j] {
        TwiceInMultiset(b, i, j);
        OnceInMultiset(a, b[i]);
      }
    }
  }

  lemma TwiceInMultiset(s: seq<int>, i: nat, j: nat)
    requires i < j < |s| && s[i] == s[j]
    ensures multiset(s)[s[i]] >= 2
  {
    assert s == s[..j] + [s[j]] + s[j + 1..];
    assert s[i] in s[..j];
  }

  lemma {:induction false} OnceInMultiset(s: seq<int>, x: int)
    requires StrictlyAscending(s)
    ensures multiset(s)[x] <= 1
  {
    if s != [] {
      OnceInMultiset(s[1..], x);
      assert s == [s[0]] + s[1..];
    }
  }

  // --------------------------------------------------------------- executor

  /** `int(round(x / 1000.0))`, half to even. */
  function RoundThousandths(x: int): int {
    var q, r := x / 1000, x % 1000;
    if r < 500 || (r == 500 && q % 2 == 0) then q else q + 1
  }

  function NormalizeHeading(mdeg: int): (r: int)
    ensures -180000 <= r < 180000 && (mdeg - r) % 360000 == 0
  {
    (mdeg + 180000) % 360000 - 180000
  }

  datatype Snapshot = Snapshot(
    stateVersion: int,
    observedAtMs: int,
    headingMdeg: int,
    touchPressed: bool,
    motionFault: bool,
    readingsValid: bool,
    blocked: bool)

  /** `Failed` is a contract error. It may prove that the turn arrived anyway, and
      may forbid moving again; `Crashed` is any other exception. */
  datatype TurnOutcome = Arrived | Failed(arrived: bool, prohibits: bool) | Crashed {
    predicate HasArrived() {
      this == Arrived || (Failed? && arrived)
    }
  }

  datatype RayOutcome = Sampled(ray: Ray) | Rejected(safety: bool) | Broken

  /** Where a sequence of visits ended. */
  datatype Visit = Visit(rays: seq<Ray>, reached: nat, cancelled: bool, safety: bool) | VisitCrashed

  /** The robot side: a monotone clock and everything it may answer. */
  class Rig {
    var clockMs: int
    /** Turn commands handed to the rig. */
    ghost var commands: nat
    /** How often the cancellation probe was found raised. */
    ghost var cancels: nat
    /** Sum of the turns reported to have arrived. */
    ghost var offset: int
    /** The stationary samples taken. */
    ghost var samples: seq<Snapshot>
    /** A failed turn or a touched or faulted sample has ruled out further motion. */
    ghost var prohibited: bool
    /** Calls that left with an exception of another kind. */
    ghost var crashes: nat
    /** Turns, readings and stops of the rig that did not succeed. */
    ghost var refusals: nat
    /** Those, and the turns, stops and samples the scan itself gave up on. */
    ghost var setbacks: nat

    constructor ()
      ensures commands == 0 && cancels == 0 && offset == 0 && samples == [] && !prohibited && crashes == 0
      ensures refusals == setbacks == 0
    {
      commands, cancels, offset, samples, prohibited, crashes := 0, 0, 0, [], false, 0;
      refusals, setbacks := 0, 0;
    }

    /** A refusal is a setback too. */
    ghost method Refuse(refused: bool)
      modifies `refusals, `setbacks
      ensures refusals == old(refusals) + (if refused then 1 else 0)
      ensures setbacks == old(setbacks) + (if refused then 1 else 0)
    {
      if refused {
        refusals, setbacks := refusals + 1, setbacks + 1;
      }
    }

    method CancelRequested() returns (cancelled: bool)
      modifies `cancels
      ensures cancels == old(cancels) + if cancelled then 1 else 0
    {
      cancelled := *;
      cancels := cancels + if cancelled then 1 else 0;
    }

    method ReadClock() returns (now: int)
      modifies `clockMs
      ensures now == clockMs >= old(clockMs)
    {
      var elapsed: nat :| true;
      clockMs := clockMs + elapsed;
      now := clockMs;
    }

    /** A receipt counts only when it is confirmed and in time. */
    method TurnRelative(deltaMdeg: int, deadlineMs: int) returns (r: TurnOutcome)
      requires !prohibited
      modifies `clockMs, `commands, `offset, `prohibited, `crashes, `refusals, `setbacks
      ensures crashes == old(crashes) + if r == Crashed then 1 else 0
      ensures commands == old(commands) + 1 && clockMs >= old(clockMs)
      ensures prohibited <==> r.Failed? && r.prohibits
      ensures offset == old(offset) + if r.HasArrived() then deltaMdeg else 0
      ensures r == Arrived ==> clockMs <= deadlineMs
      ensures refusals == old(refusals) + (if r == Arrived then 0 else 1)
      ensures setbacks - refusals == old(setbacks - refusals)
    {
      commands := commands + 1;
      var now := ReadClock();
      r := *;
      if r == Arrived && now > deadlineMs {
        r := Failed(false, false);
      }
      Refuse(r != Arrived);
      offset := offset + if r.HasArrived() then deltaMdeg else 0;
      prohibited := r.Failed? && r.prohibits;
      crashes := crashes + if r == Crashed then 1 else 0;
    }

    method ReadSnapshot() returns (snapshot: Option<Snapshot>, crashed: bool)
      modifies `clockMs, `samples, `crashes, `refusals, `setbacks
      ensures clockMs >= old(clockMs) && crashes == old(crashes) + if crashed then 1 else 0
      ensures samples == old(samples) + if snapshot.Some? && !crashed then [snapshot.value] else []
      ensures refusals == old(refusals) + (if snapshot.Some? && !crashed then 0 else 1)
      ensures setbacks - refusals == old(setbacks - refusals)
    {
      var now := ReadClock();
      snapshot := *;
      crashed := *;
      Refuse(!snapshot.Some? || crashed);
      samples := samples + if snapshot.Some? && !crashed then [snapshot.value] else [];
      crashes := crashes + if crashed then 1 else 0;
    }

    method Stop() returns (confirmed: bool)
      modifies `clockMs, `refusals, `setbacks
      ensures clockMs >= old(clockMs)
      ensures refusals == old(refusals) + (if confirmed then 0 else 1)
      ensures setbacks - refusals == old(setbacks - refusals)
    {
      var now := ReadClock();
      confirmed := *;
      Refuse(!confirmed);
    }
  }

  class ActiveIrScanExecutor {
    const rig: Rig
    const restorationHeadroomMs: nat

    constructor (rig: Rig, restorationHeadroomMs: nat)
      ensures this.rig == rig && this.restorationHeadroomMs == restorationHeadroomMs
    {
      this.rig, this.restorationHeadroomMs := rig, restorationHeadroomMs;
    }

    function RequiredMs(request: Request, current: int, target: int, reserve: bool): int {
      var c := request.calibration;
      var all := RoundThousandths((Abs(target - current) + Abs(target)) * c.turnMsPerDegree + c.settleMs * 2000);
      if reserve then all
      else Max(0, all - RoundThousandths(Abs(target) * c.turnMsPerDegree + c.settleMs * 1000))
    }

    /** On numbers: with the way back reserved, the time of the turn, of the return and
        of settling twice; without it, of the turn and of settling once; up to the
        rounding of each to a millisecond. */
    lemma RequiredOnNumbers(request: Request, current: int, target: int)
      requires request.Valid()
      ensures var turn, back := Abs(target - current), Abs(target);
        var perDegree, settleMs := request.calibration.turnMsPerDegree, request.calibration.settleMs;
        && -500 <= 1000 * RequiredMs(request, current, target, true)
                   - ((turn + back) * perDegree + 2000 * settleMs) <= 500
        && -1000 <= 1000 * RequiredMs(request, current, target, false)
                    - (turn * perDegree + 1000 * settleMs) <= 1000
    {
      var turn, back, c := Abs(target - current), Abs(target), request.calibration;
      assert (turn + back) * c.turnMsPerDegree == turn * c.turnMsPerDegree + back * c.turnMsPerDegree;
      assert turn * c.turnMsPerDegree >= 0;
    }

    /** Turn to a nominal offset, unless the time to get back is short. */
    method Turn(request: Request, current: int, target: int, admissionMs: int, reserve: bool) returns (r: TurnOutcome)
      requires !rig.prohibited
      modifies rig`clockMs, rig`commands, rig`offset, rig`prohibited, rig`crashes, rig`refusals, rig`setbacks
      ensures rig.crashes >= old(rig.crashes) && (r == Crashed <==> rig.crashes > old(rig.crashes))
      ensures rig.prohibited <==> r.Failed? && r.prohibits
      ensures rig.clockMs >= old(rig.clockMs)
      ensures rig.commands <= old(rig.commands) + (if current == target then 0 else 1)
      ensures r == Arrived || rig.commands > old(rig.commands) ==>
        old(rig.clockMs) + Max(0, RequiredMs(request, current, target, reserve)) < admissionMs
      ensures r == Arrived && current != target ==> rig.clockMs <= request.deadlineMonotonicMs
      ensures rig.offset == old(rig.offset) + if r.HasArrived() then target - current else 0
      ensures rig.setbacks == old(rig.setbacks) + (if r == Arrived then 0 else 1) && rig.refusals >= old(rig.refusals)
      ensures rig.setbacks - rig.refusals == old(rig.setbacks - rig.refusals)
        + if rig.commands == old(rig.commands)
               && rig.clockMs + Max(0, RequiredMs(request, current, target, reserve)) >= admissionMs then 1 else 0
    {
      var now := rig.ReadClock();
      if now + Max(0, RequiredMs(request, current, target, reserve)) >= admissionMs {
        rig.setbacks := rig.setbacks + 1;
        return Failed(false, false);
      }
      if target == current {
        return Arrived;
      }
      r := rig.TurnRelative(target - current, request.deadlineMonotonicMs);
    }

    /** The sample was taken in time, since the last ray, and is not too old. */
    ghost predicate Timely(request: Request, rays: seq<Ray>, s: Snapshot, nowMs: int, deadlineMs: int) {
      && nowMs <= deadlineMs
      && (if rays == [] then request.createdAtMs else rays[|rays| - 1].observedAtMs) < s.observedAtMs
      && s.observedAtMs <= request.EvidenceTime(nowMs) <= s.observedAtMs + request.maxSnapshotAgeMs
      && (if rays == [] then request.startStateVersion else rays[|rays| - 1].stateVersion) < s.stateVersion
    }

    /** And it is safe, valid and aligned with the stop it was taken for. */
    ghost predicate Admissible(request: Request, requested: int, rays: seq<Ray>, s: Snapshot, nowMs: int,
                               deadlineMs: int)
    {
      && Timely(request, rays, s, nowMs, deadlineMs)
      && !s.touchPressed && !s.motionFault && s.readingsValid
      && Abs(NormalizeHeading(s.headingMdeg - request.startHeading) - requested) <= request.calibration.tolerance
    }

    /** One stationary sample at a nominal offset. */
    method ReadRay(request: Request, requested: int, rays: seq<Ray>, deadlineMs: int) returns (r: RayOutcome)
      requires request.Valid() && RaysInOrder(rays, request) && requested !in Bearings(rays)
      requires deadlineMs <= request.deadlineMonotonicMs
      modifies rig`clockMs, rig`samples, rig`prohibited, rig`crashes, rig`refusals, rig`setbacks
      ensures rig.crashes >= old(rig.crashes) && (r.Broken? <==> rig.crashes > old(rig.crashes))
      ensures rig.clockMs >= old(rig.clockMs)
      ensures r.Sampled? ==> Follows(r.ray, rays, request) && r.ray.requested == requested
      ensures old(rig.samples) <= rig.samples
      ensures r.Sampled? ==> SampledAs([r.ray], old(rig.samples), rig.samples, request.startHeading)
      ensures r.Sampled? ==> |rig.samples| == |old(rig.samples)| + 1
      ensures !r.Broken? && |rig.samples| > |old(rig.samples)| ==>
        var s := rig.samples[|old(rig.samples)|];
        && (r.Sampled? <==> Admissible(request, requested, rays, s, rig.clockMs, deadlineMs))
        && (r == Rejected(true) <==>
              Timely(request, rays, s, rig.clockMs, deadlineMs) && (s.touchPressed || s.motionFault))
      ensures rig.setbacks == old(rig.setbacks) + (if r.Sampled? then 0 else 1)
      ensures |rig.samples| == |old(rig.samples)| + (if rig.refusals == old(rig.refusals) then 1 else 0)
      ensures rig.refusals >= old(rig.refusals) && (rig.refusals > old(rig.refusals) ==>
        rig.setbacks - rig.refusals == old(rig.setbacks - rig.refusals))
      ensures !r.Broken? && rig.samples == old(rig.samples) ==> r == Rejected(false)
      ensures rig.prohibited <==> old(rig.prohibited) || r == Rejected(true)
      ensures r.Broken? ==> rig.refusals > old(rig.refusals)
    {
      var snapshot, crashed := rig.ReadSnapshot();
      if crashed {
        return Broken;
      }
      if snapshot.None? {
        return Rejected(false);
      }
      var s := snapshot.value;
      var now := rig.ReadClock();
      var evidence := request.EvidenceTime(now);
      if now > deadlineMs {
        rig.setbacks := rig.setbacks + 1;
        return Rejected(false);
      }
      var previousMs := if rays == [] then request.createdAtMs else rays[|rays| - 1].observedAtMs;
      var previousVersion := if rays == [] then request.startStateVersion else rays[|rays| - 1].stateVersion;
      if s.observedAtMs <= previousMs || s.stateVersion <= previousVersion || s.observedAtMs > evidence
        || evidence - s.observedAtMs > request.maxSnapshotAgeMs
      {
        rig.setbacks := rig.setbacks + 1;
        return Rejected(false);
      }
      if s.touchPressed || s.motionFault {
        rig.prohibited := true;
        rig.setbacks := rig.setbacks + 1;
        return Rejected(true);
      }
      var actual := NormalizeHeading(s.headingMdeg - request.startHeading);
      if Abs(actual - requested) > request.calibration.tolerance || !s.readingsValid {
        rig.setbacks := rig.setbacks + 1;
        return Rejected(false);
      }
      return Sampled(Ray(|rays| + 1, requested, actual, s.observedAtMs, s.stateVersion, s.blocked));
    }

    /** Turn to stop `k` of the plan and sample a ray there. */
    method VisitOne(request: Request, plan: seq<int>, k: nat, rays: seq<Ray>, deadlineMs: int) returns (v: Visit)
      requires request.Valid() && deadlineMs <= request.deadlineMonotonicMs
      requires k == |rays| < |plan| && plan[k] !in plan[..k] && Bearings(rays) == plan[..k] && RaysInOrder(rays, request)
      requires !rig.prohibited
      modifies rig
      ensures rig.crashes >= old(rig.crashes) && (v.VisitCrashed? <==> rig.crashes > old(rig.crashes))
      ensures v.Visit? && rig.prohibited ==> v.cancelled && v.safety
      ensures v.Visit? && v.safety ==> v.cancelled && (rig.prohibited || rig.cancels > old(rig.cancels))
      ensures rig.clockMs >= old(rig.clockMs)
      ensures rig.commands <= old(rig.commands) + (if plan[k] == At(plan, k) then 0 else 1)
      ensures v.Visit? ==> Visited(v, plan, request)
      ensures v.Visit? && !v.cancelled ==> v.reached == |v.rays| == k + 1
      ensures v.Visit? ==> rays <= v.rays && (v.cancelled ==> v.rays == rays)
      ensures rig.cancels >= old(rig.cancels) && (v.Visit? && !v.cancelled ==> rig.cancels == old(rig.cancels))
      ensures v.Visit? ==> rig.offset == old(rig.offset) + At(plan, v.reached) - At(plan, k)
      ensures v.Visit? ==> SampledAs(v.rays[k..], old(rig.samples), rig.samples, request.startHeading)
      ensures v.Visit? && !v.cancelled ==> |rig.samples| == |old(rig.samples)| + 1
      ensures rig.setbacks >= old(rig.setbacks)
      ensures v.Visit? ==> (v.cancelled <==> rig.cancels > old(rig.cancels) || rig.setbacks > old(rig.setbacks))
      ensures rig.refusals >= old(rig.refusals)
      ensures rig.setbacks - rig.refusals > old(rig.setbacks - rig.refusals) ==>
        if |rig.samples| > |old(rig.samples)|
        then !Admissible(request, plan[k], rays, rig.samples[|old(rig.samples)|], rig.clockMs, deadlineMs)
        else rig.clockMs + Max(0, RequiredMs(request, At(plan, k), plan[k], true)) >= deadlineMs
      ensures rig.commands > old(rig.commands) ==>
        old(rig.clockMs) + Max(0, RequiredMs(request, At(plan, k), plan[k], true)) < deadlineMs
      ensures v.Visit? && rig.cancels > old(rig.cancels) ==> v.safety
    {
      var cancelled := rig.CancelRequested();
      if cancelled {
        return Visit(rays, k, true, true);
      }
      var turned := Turn(request, At(plan, k), plan[k], deadlineMs, true);
      if turned == Crashed {
        return VisitCrashed;
      }
      if turned.Failed? {
        return Visit(rays, if turned.arrived then k + 1 else k, true, turned.prohibits);
      }
      v := SampleStop(request, plan, k, rays, deadlineMs);
    }

    /** Having reached stop `k`, sample a ray there. */
    method SampleStop(request: Request, plan: seq<int>, k: nat, rays: seq<Ray>, deadlineMs: int) returns (v: Visit)
      requires request.Valid() && deadlineMs <= request.deadlineMonotonicMs
      requires k == |rays| < |plan| && plan[k] !in plan[..k] && Bearings(rays) == plan[..k] && RaysInOrder(rays, request)
      requires !rig.prohibited
      modifies rig`clockMs, rig`cancels, rig`samples, rig`prohibited, rig`crashes, rig`refusals, rig`setbacks
      ensures rig.clockMs >= old(rig.clockMs)
      ensures rig.crashes >= old(rig.crashes) && (v.VisitCrashed? <==> rig.crashes > old(rig.crashes))
      ensures v.Visit? && rig.prohibited ==> v.cancelled && v.safety
      ensures v.Visit? && v.safety ==> rig.prohibited || rig.cancels > old(rig.cancels)
      ensures v.Visit? ==> Visited(v, plan, request) && v.reached == k + 1
      ensures v.Visit? ==> rays <= v.rays && (if v.cancelled then v.rays == rays else |v.rays| == k + 1)
      ensures rig.cancels >= old(rig.cancels) && (v.Visit? && !v.cancelled ==> rig.cancels == old(rig.cancels))
      ensures v.Visit? ==> SampledAs(v.rays[k..], old(rig.samples), rig.samples, request.startHeading)
      ensures v.Visit? && !v.cancelled ==> |rig.samples| == |old(rig.samples)| + 1
      ensures rig.setbacks >= old(rig.setbacks)
      ensures v.Visit? ==> (v.cancelled <==> rig.cancels > old(rig.cancels) || rig.setbacks > old(rig.setbacks))
      ensures rig.refusals >= old(rig.refusals)
      ensures rig.setbacks - rig.refusals > old(rig.setbacks - rig.refusals) ==>
        if |rig.samples| > |old(rig.samples)|
        then !Admissible(request, plan[k], rays, rig.samples[|old(rig.samples)|], rig.clockMs, deadlineMs)
        else rig.clockMs > deadlineMs
      ensures v.Visit? && rig.cancels > old(rig.cancels) ==> v.safety
    {
      var now := rig.ReadClock();
      if now > deadlineMs {
        rig.setbacks := rig.setbacks + 1;
        return Visit(rays, k + 1, true, false);
      }
      var cancelled := rig.CancelRequested();
      if cancelled {
        return Visit(rays, k + 1, true, true);
      }
      var outcome := ReadRay(request, plan[k], rays, deadlineMs);
      if outcome.Broken? {
        return VisitCrashed;
      }
      if outcome.Rejected? {
        return Visit(rays, k + 1, true, outcome.safety);
      }
      v := Visit(rays + [outcome.ray], k + 1, false, false);
      RayVisited(rays, outcome.ray, plan, request);
    }

    /** Visit the plan from stop `from` on, sampling a ray at each. */
    method VisitAll(request: Request, plan: seq<int>, from: nat, sampled: seq<Ray>, deadlineMs: int) returns (v: Visit)
      requires request.Valid() && deadlineMs <= request.deadlineMonotonicMs
      requires from <= |plan| && Distinct(plan) && Bearings(sampled) == plan[..from] && RaysInOrder(sampled, request)
      requires !rig.prohibited
      modifies rig
      ensures rig.crashes >= old(rig.crashes) && (v.VisitCrashed? <==> rig.crashes > old(rig.crashes))
      ensures v.Visit? && rig.prohibited ==> v.cancelled && v.safety
      ensures v.Visit? && v.safety ==> v.cancelled && (rig.prohibited || rig.cancels > old(rig.cancels))
      ensures rig.clockMs >= old(rig.clockMs)
      ensures rig.commands <= old(rig.commands) + Moves(plan, from, |plan|)
      ensures v.Visit? ==> Visited(v, plan, request)
      ensures v.Visit? && !v.cancelled ==> v.reached == |v.rays| == |plan|
      ensures v.Visit? ==> sampled <= v.rays && (v.cancelled ==> |v.rays| < |plan|)
      ensures rig.cancels >= old(rig.cancels) && (v.Visit? && !v.cancelled ==> rig.cancels == old(rig.cancels))
      ensures v.Visit? ==> rig.offset == old(rig.offset) + At(plan, v.reached) - At(plan, from)
      ensures v.Visit? ==> SampledAs(v.rays[from..], old(rig.samples), rig.samples, request.startHeading)
      ensures v.Visit? && !v.cancelled ==> |rig.samples| == |old(rig.samples)| + |plan| - from
      ensures rig.setbacks >= old(rig.setbacks)
      ensures v.Visit? ==> (v.cancelled <==> rig.cancels > old(rig.cancels) || rig.setbacks > old(rig.setbacks))
      ensures v.Visit? && rig.cancels > old(rig.cancels) ==> v.safety
    {
      v := Visit(sampled, from, false, false);
      while v.Visit? && !v.cancelled && v.reached < |plan|
        invariant rig.clockMs >= old(rig.clockMs)
        invariant v.Visit? ==> Visited(v, plan, request)
        invariant v.Visit? && !v.cancelled ==> from <= v.reached == |v.rays|
        invariant rig.crashes >= old(rig.crashes) && (v.VisitCrashed? <==> rig.crashes > old(rig.crashes))
        invariant v.Visit? && rig.prohibited ==> v.cancelled && v.safety
        invariant v.Visit? && v.safety ==> v.cancelled && (rig.prohibited || rig.cancels > old(rig.cancels))
        invariant v.Visit? ==> sampled <= v.rays && (v.cancelled ==> |v.rays| < |plan|)
        invariant rig.cancels >= old(rig.cancels) && (v.Visit? && !v.cancelled ==> rig.cancels == old(rig.cancels))
        invariant v.Visit? ==> rig.offset == old(rig.offset) + At(plan, v.reached) - At(plan, from)
        invariant v.Visit? ==> SampledAs(v.rays[from..], old(rig.samples), rig.samples, request.startHeading)
        invariant v.Visit? && !v.cancelled ==> |rig.samples| == |old(rig.samples)| + v.reached - from
        invariant rig.setbacks >= old(rig.setbacks)
        invariant v.Visit? && rig.cancels > old(rig.cancels) ==> v.safety
        invariant v.Visit? ==> (v.cancelled <==> rig.cancels > old(rig.cancels) || rig.setbacks > old(rig.setbacks))
        invariant rig.commands <= old(rig.commands)
                   + Moves(plan, from, if v.Visit? && !v.cancelled then v.reached else |plan|)
        decreases v.Visit? && !v.cancelled, if v.Visit? then |plan| - v.reached else 0
      {
        NotYetSampled(plan, v.reached);
        ghost var rays, samples := v.rays, rig.samples;
        v := VisitOne(request, plan, v.reached, v.rays, deadlineMs);
        if v.Visit? {
          SampledMore(rays, v.rays, from, old(rig.samples), samples, rig.samples, request.startHeading);
        }
      }
    }

    /** The stops that refine a complete coarse pass: exactly its wide boundaries. */
    method Refine(request: Request, schedule: seq<int>, rays: seq<Ray>) returns (route: seq<int>)
      requires request.Valid() && schedule != [] && Bearings(rays) == schedule && Distinct(schedule)
      ensures Distinct(schedule + route)
      ensures forall x :: x in route <==> Boundary(rays, request.calibration.fineStep, x)
      ensures schedule == CoarseSchedule(request.calibration.coarse) ==>
        forall n: nat :: n <= |schedule + route| ==> PlannedFrom(schedule + route, n, request.calibration)
    {
      SortIsStrict(schedule);
      SortedAreKeys(rays);
      var order, blocked, fineStep := Sort(schedule), BlockedBy(rays), request.calibration.fineStep;
      route := ChooseRoute(order, blocked, fineStep, schedule[|schedule| - 1]);
      RouteVisitsAll(schedule[|schedule| - 1], TransitionMidpoints(order, blocked, fineStep));
      forall x
        ensures x in route <==> Boundary(rays, fineStep, x)
      {
        TransitionsAreBoundaries(rays, fineStep, x);
      }
      RouteExtends(rays, schedule, route, request.calibration);
    }

    /** The coarse pass, then the refinement at the transitions it found. */
    method Sweep(request: Request, schedule: seq<int>, deadlineMs: int) returns (v: Visit, plan: seq<int>)
      requires request.Valid() && deadlineMs <= request.deadlineMonotonicMs && Distinct(schedule) && schedule != []
      requires !rig.prohibited
      modifies rig
      ensures rig.crashes >= old(rig.crashes) && (v.VisitCrashed? <==> rig.crashes > old(rig.crashes))
      ensures v.Visit? && rig.prohibited ==> v.cancelled && v.safety
      ensures v.Visit? && v.safety ==> v.cancelled && (rig.prohibited || rig.cancels > old(rig.cancels))
      ensures rig.clockMs >= old(rig.clockMs)
      ensures v.Visit? ==> Visited(v, plan, request)
      ensures v.Visit? ==> (v.cancelled <==> |v.rays| < |plan|)
      ensures rig.cancels >= old(rig.cancels) && (v.Visit? && !v.cancelled ==> rig.cancels == old(rig.cancels))
      ensures v.Visit? ==> schedule <= plan && RefinedAt(v.rays, plan, |schedule|, request.calibration.fineStep)
      ensures v.Visit? ==> rig.offset == old(rig.offset) + At(plan, v.reached)
      ensures v.Visit? ==> SampledAs(v.rays, old(rig.samples), rig.samples, request.startHeading)
      ensures v.Visit? && schedule == CoarseSchedule(request.calibration.coarse) ==>
        PlannedFrom(plan, v.reached, request.calibration)
      ensures schedule[0] == 0 ==> rig.commands <= old(rig.commands) + |plan| - 1
      ensures rig.setbacks >= old(rig.setbacks)
      ensures v.Visit? ==> (v.cancelled <==> rig.cancels > old(rig.cancels) || rig.setbacks > old(rig.setbacks))
      ensures v.Visit? && rig.cancels > old(rig.cancels) ==> v.safety
    {
      plan := schedule;
      v := VisitAll(request, plan, 0, [], deadlineMs);
      if v.VisitCrashed? || v.cancelled {
        CoarseOnly(schedule, request.calibration);
        assert v.Visit? ==> v.rays[0..] == v.rays;
        return;
      }
      assert plan[..|plan|] == plan;
      BearingsDistinct(v.rays, request);
      ghost var coarse, samples := v.rays, rig.samples;
      assert coarse[0..] == coarse;
      var route := Refine(request, schedule, v.rays);
      plan := schedule + route;
      assert plan[..|schedule|] == schedule;
      v := VisitAll(request, plan, |schedule|, v.rays, deadlineMs);
      if v.Visit? {
        RefinedBehind(coarse, v.rays, schedule, route, request.calibration.fineStep);
        SampledMore(coarse, v.rays, 0, old(rig.samples), samples, rig.samples, request.startHeading);
        assert v.rays[0..] == v.rays;
      }
    }

    /** Leave the heading where the scan began, and prove it with a last sample. */
    method Restore(request: Request, current: int) returns (final: Option<Snapshot>, restored: bool, crashed: bool)
      requires request.Valid() && !rig.prohibited
      modifies rig
      ensures rig.clockMs >= old(rig.clockMs)
      ensures rig.commands <= old(rig.commands) + (if current == 0 then 0 else 1)
      ensures restored <==> final.Some? && BackInTime(final.value, request, rig.clockMs)
      ensures rig.cancels >= old(rig.cancels) && (restored ==> rig.cancels == old(rig.cancels))
      ensures restored ==> rig.offset == old(rig.offset) - current && AtStart(final.value, request)
      ensures rig.crashes >= old(rig.crashes) && (crashed <==> rig.crashes > old(rig.crashes))
      ensures old(rig.samples) <= rig.samples
      ensures final.Some? ==> |rig.samples| > |old(rig.samples)| && final.value == rig.samples[|rig.samples| - 1]
      ensures rig.setbacks >= old(rig.setbacks) && rig.refusals >= old(rig.refusals)
      ensures !crashed ==> (restored <==> rig.cancels == old(rig.cancels) && rig.setbacks == old(rig.setbacks))
      ensures rig.setbacks - rig.refusals > old(rig.setbacks - rig.refusals) && final.None? ==>
        rig.clockMs + Max(0, RequiredMs(request, current, 0, false)) >= request.deadlineMonotonicMs
    {
      final, restored, crashed := None, false, false;
      if current != 0 {
        var turned := Turn(request, current, 0, request.deadlineMonotonicMs, false);
        if turned != Arrived {
          return None, false, turned == Crashed;
        }
      }
      var cancelled := rig.CancelRequested();
      if cancelled {
        return;
      }
      final, crashed := rig.ReadSnapshot();
      if crashed || final.None? {
        return None, false, crashed;
      }
      var now := rig.ReadClock();
      restored := ProvesRestored(request, final.value, now);
      rig.setbacks := rig.setbacks + if restored then 0 else 1;
      ProofShowsStart(request, final.value, now);
    }

    /** Stop whatever happened, then restore unless safety forbids moving. */
    method StopAndRestore(request: Request, current: int, safety: bool)
      returns (stopped: bool, final: Option<Snapshot>, restored: bool, undisturbed: bool, crashed: bool)
      requires request.Valid() && (rig.prohibited ==> safety)
      modifies rig
      ensures rig.clockMs >= old(rig.clockMs)
      ensures rig.commands <= old(rig.commands) + (if current == 0 then 0 else 1)
      ensures safety || !stopped ==> rig.commands == old(rig.commands) && !restored
      ensures restored <==> final.Some? && BackInTime(final.value, request, rig.clockMs)
      ensures undisturbed ==> stopped
      ensures rig.cancels >= old(rig.cancels) && (restored ==> undisturbed && rig.cancels == old(rig.cancels))
      ensures restored ==> rig.offset == old(rig.offset) - current && AtStart(final.value, request)
      ensures rig.crashes >= old(rig.crashes) && (crashed <==> rig.crashes > old(rig.crashes))
      ensures old(rig.samples) <= rig.samples
      ensures final.Some? ==> |rig.samples| > |old(rig.samples)| && final.value == rig.samples[|rig.samples| - 1]
      ensures rig.setbacks >= old(rig.setbacks)
      ensures !crashed ==>
        (restored <==> !safety && rig.cancels == old(rig.cancels) && rig.setbacks == old(rig.setbacks))
    {
      stopped := rig.Stop();
      var cancelled := rig.CancelRequested();
      undisturbed := stopped && !cancelled;
      if safety || !undisturbed {
        return stopped, None, false, undisturbed, false;
      }
      final, restored, crashed := Restore(request, current);
    }

    /** Put the result together once all motion is over. */
    method Assemble(request: Request, startedMs: int, completedAllStops: bool, stopped: bool, restored: bool,
                    finalMs: int, rays: seq<Ray>) returns (result: Result, late: bool)
      requires request.Valid() && RaysInOrder(rays, request)
      requires request.createdAtMs <= startedMs <= request.EvidenceTime(rig.clockMs)
      requires restored ==> stopped && finalMs <= request.deadlineMs
      modifies rig`clockMs
      ensures rig.clockMs >= old(rig.clockMs) && (late <==> rig.clockMs > request.deadlineMonotonicMs)
      ensures result == Assembled(request, startedMs, rig.clockMs, completedAllStops, stopped, restored, finalMs, rays)
      ensures result.rays == rays && NearestLeft(rays, result.left) && NearestRight(rays, result.right)
      ensures result.status == Completed <==>
        completedAllStops && restored && !late && result.left.Some? && result.right.Some?
      ensures Acceptable(result, request, request.basis) <==>
        !late || (restored && result.startedAtMs <= result.completedAtMs)
    {
      BearingsDistinct(rays, request);
      NearestAreNearest(rays);
      var transitions := Transitions(rays);
      var left, right := LeastPositive(transitions), GreatestNegative(transitions);
      var status := if completedAllStops && restored && left.Some? && right.Some? then Completed else Cancelled;
      var now := rig.ReadClock();
      late := now > request.deadlineMonotonicMs;
      var completed := request.EvidenceTime(now);
      if late {
        status := Cancelled;
        if restored {
          completed := finalMs;
        }
      }
      result := Result(request.basis, startedMs, completed, status, stopped, restored, rays, left, right);
    }

    /** Stop, restore and put the result together; `None` is an exception. */
    method Conclude(request: Request, startedMonotonicMs: int, v: Visit, plan: seq<int>)
      returns (r: Option<Result>, late: bool)
      requires request.Valid() && v.Visit? && Visited(v, plan, request) && startedMonotonicMs <= rig.clockMs
      requires rig.prohibited ==> v.safety
      modifies rig
      ensures rig.clockMs >= old(rig.clockMs) && old(rig.samples) <= rig.samples
      ensures rig.commands <= old(rig.commands) + 1
      ensures rig.crashes >= old(rig.crashes) && (r.None? <==> rig.crashes > old(rig.crashes))
      ensures r.Some? ==> r.value.rays == v.rays && r.value.startedAtMs == request.EvidenceTime(startedMonotonicMs)
      ensures r.Some? ==> NearestLeft(v.rays, r.value.left) && NearestRight(v.rays, r.value.right)
      ensures r.Some? ==> (late <==> rig.clockMs > request.deadlineMonotonicMs)
      ensures r.Some? ==>
        (Acceptable(r.value, request, request.basis) <==>
           !late || (r.value.restored && r.value.startedAtMs <= r.value.completedAtMs))
      ensures rig.cancels >= old(rig.cancels)
      ensures r.Some? ==>
        (r.value.status == Completed <==>
           && !v.cancelled && rig.cancels == old(rig.cancels) && r.value.restored && !late
           && r.value.left.Some? && r.value.right.Some?)
      ensures r.Some? && r.value.restored ==>
        && rig.offset == old(rig.offset) - At(plan, v.reached)
        && |rig.samples| > |old(rig.samples)|
        && AtStart(rig.samples[|rig.samples| - 1], request)
      ensures rig.setbacks >= old(rig.setbacks)
      ensures r.Some? ==>
        (r.value.restored <==> !v.safety && rig.cancels == old(rig.cancels) && rig.setbacks == old(rig.setbacks))
    {
      late := false;
      var stopped, final, restored, undisturbed, crashed := StopAndRestore(request, At(plan, v.reached), v.safety);
      if crashed {
        return None, late;
      }
      var result;
      result, late := Assemble(request, request.EvidenceTime(startedMonotonicMs), !v.cancelled && undisturbed,
                               stopped, restored, if final.Some? then final.value.observedAtMs else 0, v.rays);
      return Some(result), late;
    }

    /** Run one scan. Whatever the rays show and wherever it is cut short, a result
        finished by the deadline is acceptable to the validator. A late one is
        never COMPLETED, and is acceptable exactly when the start heading was
        restored by a final sample taken since the start. */
    method Execute(request: Request, schedule: seq<int>)
      returns (r: Option<Result>, late: bool, plan: seq<int>, reached: nat)
      requires request.Valid() && Distinct(schedule) && schedule != [] && !rig.prohibited
      modifies rig
      ensures r.None? <==>
        rig.crashes > old(rig.crashes)
        || request.deadlineMonotonicMs - restorationHeadroomMs <= request.createdMonotonicMs
      ensures r.Some? ==> reached <= |plan| && |r.value.rays| <= reached <= |r.value.rays| + 1
      ensures r.Some? ==> Bearings(r.value.rays) == plan[..|r.value.rays|]
      ensures r.Some? ==>
        (Acceptable(r.value, request, request.basis) <==>
           !late || (r.value.restored && r.value.startedAtMs <= r.value.completedAtMs))
      ensures r.Some? ==> NearestLeft(r.value.rays, r.value.left) && NearestRight(r.value.rays, r.value.right)
      ensures r.Some? ==> schedule <= plan && RefinedAt(r.value.rays, plan, |schedule|, request.calibration.fineStep)
      ensures r.Some? ==> SampledAs(r.value.rays, old(rig.samples), rig.samples, request.startHeading)
      ensures r.Some? && r.value.restored ==>
        && rig.offset == old(rig.offset)
        && |rig.samples| > |old(rig.samples)| + |r.value.rays|
        && AtStart(rig.samples[|rig.samples| - 1], request)
      ensures r.Some? ==> (late <==> rig.clockMs > request.deadlineMonotonicMs)
      ensures r.Some? && late ==> r.value.status == Cancelled
      ensures r.Some? ==>
        (r.value.status == Completed <==>
           && |r.value.rays| == |plan| && rig.cancels == old(rig.cancels) && r.value.restored && !late
           && r.value.left.Some? && r.value.right.Some?)
      ensures r.Some? && schedule == CoarseSchedule(request.calibration.coarse) ==>
        PlannedFrom(plan, reached, request.calibration)
      ensures schedule[0] == 0 && r.Some? ==> rig.commands <= old(rig.commands) + |plan|
      ensures rig.cancels >= old(rig.cancels) && rig.setbacks >= old(rig.setbacks)
      ensures r.Some? ==>
        (r.value.status == Completed <==>
           && rig.cancels == old(rig.cancels) && rig.setbacks == old(rig.setbacks)
           && !late && r.value.left.Some? && r.value.right.Some?)
    {
      plan, reached, late := schedule, 0, false;
      var started := rig.ReadClock();
      var scanDeadline := request.deadlineMonotonicMs - restorationHeadroomMs;
      if scanDeadline <= request.createdMonotonicMs {
        return None, late, plan, reached;
      }
      var v;
      v, plan := Sweep(request, schedule, scanDeadline);
      if v.VisitCrashed? {
        var stopped := rig.Stop();
        return None, late, plan, reached;
      }
      reached := v.reached;
      r, late := Conclude(request, started, v, plan);
    }
  }

  /** A last stationary sample, fresh and in time, shows the start heading. */
  predicate ProvesRestored(request: Request, final: Snapshot, nowMs: int) {
    && nowMs <= request.deadlineMonotonicMs
    && final.observedAtMs <= request.deadlineMs
    && request.EvidenceTime(nowMs) - final.observedAtMs <= request.maxSnapshotAgeMs
    && Abs(NormalizeHeading(final.headingMdeg - request.startHeading)) <= request.calibration.tolerance
    && !final.touchPressed && !final.motionFault
  }

  /** The result of a scan put together at clock time `nowMs`: its best bearings
      either side, and COMPLETED only in time, complete and restored. A late one
      that was restored counts as completed when its final sample was taken. */
  function Assembled(request: Request, startedMs: int, nowMs: int, completedAllStops: bool, stopped: bool,
                     restored: bool, finalMs: int, rays: seq<Ray>): Result
  {
    var late := nowMs > request.deadlineMonotonicMs;
    var left, right := LeastPositive(Transitions(rays)), GreatestNegative(Transitions(rays));
    Result(request.basis, startedMs, if late && restored then finalMs else request.EvidenceTime(nowMs),
           if completedAllStops && restored && !late && left.Some? && right.Some? then Completed else Cancelled,
           stopped, restored, rays, left, right)
  }

  function PromptRequest(c: Calibration): Request {
    Request(Basis(1, 1, 1, 1, 1), 0, 1, 0, 1000, 0, 1000, 2000, c)
  }

  /** A final sample older than the scan itself still proves the restoration when
      it is fresh enough for the request. Put together late, the result then ends
      before it starts, and the validator rejects it. */
  lemma LateRestoredCanBeRejected(c: Calibration)
    requires c.Valid()
    ensures var request, final := PromptRequest(c), Snapshot(2, 50, 0, false, false, true, false);
      && request.Valid()
      && ProvesRestored(request, final, 900)
      && var result := Assembled(request, request.EvidenceTime(100), 1001, false, true, true, final.observedAtMs, []);
         && result.restored && result.status == Cancelled
         && result.completedAtMs < result.startedAtMs
         && !Acceptable(result, request, request.basis)
  {
    assert NormalizeHeading(0) == 0;
  }

  /** The sample shows the heading the scan began with, up to whole turns. */
  ghost predicate AtStart(sample: Snapshot, request: Request) {
    !sample.touchPressed && !sample.motionFault && exists off: int :: OffStart(sample, request, off)
  }

  ghost predicate OffStart(sample: Snapshot, request: Request, off: int) {
    && Abs(off) <= request.calibration.tolerance && Abs(off) <= 180000
    && (sample.headingMdeg - request.startHeading - off) % 360000 == 0
  }

  /** And it does so in time: neither it nor the clock is past the deadline, and it
      is not too old. */
  ghost predicate BackInTime(sample: Snapshot, request: Request, nowMs: int) {
    && AtStart(sample, request)
    && nowMs <= request.deadlineMonotonicMs && sample.observedAtMs <= request.deadlineMs
    && request.EvidenceTime(nowMs) <= sample.observedAtMs + request.maxSnapshotAgeMs
  }

  /** The test the scan ends with accepts exactly such samples. */
  lemma ProofShowsStart(request: Request, final: Snapshot, nowMs: int)
    ensures ProvesRestored(request, final, nowMs) <==> BackInTime(final, request, nowMs)
  {
    var off := NormalizeHeading(final.headingMdeg - request.startHeading);
    assert ProvesRestored(request, final, nowMs) ==> OffStart(final, request, off);
    if o: int :| OffStart(final, request, o) {
      assert (off - o) % 360000 == 0;
    }
  }

  /** Turn commands a stretch of the plan may need; a first stop at the start
      heading needs none. */
  function Moves(plan: seq<int>, from: nat, to: nat): int {
    to - from - (if from == 0 && to > 0 && plan != [] && plan[0] == 0 then 1 else 0)
  }

  function At(plan: seq<int>, reached: nat): int
    requires reached <= |plan|
  {
    if reached == 0 then 0 else plan[reached - 1]
  }

  /** The rays are those of a prefix of the plan; at most one more stop was
      reached without a ray. */
  ghost predicate Visited(v: Visit, plan: seq<int>, request: Request)
    requires v.Visit?
  {
    && |v.rays| <= v.reached <= |v.rays| + 1 && v.reached <= |plan|
    && Bearings(v.rays) == plan[..|v.rays|]
    && RaysInOrder(v.rays, request)
  }

  /** Once every coarse stop has its ray, the further stops are exactly the
      boundaries among those rays that are wider than the fine step; until then there
      are none. */
  ghost predicate RefinedAt(rays: seq<Ray>, plan: seq<int>, coarse: nat, fineStep: int)
    requires coarse <= |plan|
  {
    if |rays| < coarse then |plan| == coarse
    else forall x :: x in plan[coarse..] <==> Boundary(rays[..coarse], fineStep, x)
  }

  lemma RefinedBehind(coarse: seq<Ray>, rays: seq<Ray>, schedule: seq<int>, route: seq<int>, fineStep: int)
    requires coarse <= rays && |coarse| == |schedule|
    requires forall x :: x in route <==> Boundary(coarse, fineStep, x)
    ensures RefinedAt(rays, schedule + route, |schedule|, fineStep)
  {
    assert rays[..|schedule|] == coarse && (schedule + route)[|schedule|..] == route;
  }

  lemma RayVisited(rays: seq<Ray>, ray: Ray, plan: seq<int>, request: Request)
    requires |rays| < |plan| && Bearings(rays) == plan[..|rays|] && RaysInOrder(rays, request)
    requires Follows(ray, rays, request) && ray.requested == plan[|rays|]
    ensures Visited(Visit(rays + [ray], |rays| + 1, false, false), plan, request)
    ensures (rays + [ray])[|rays|..] == [ray]
  {
    RaysExtend(rays, ray, request);
    assert plan[..|rays| + 1] == plan[..|rays|] + [plan[|rays|]];
  }

  /** The stops reached are a prefix of a complete plan of the calibration. */
  ghost predicate PlannedFrom(plan: seq<int>, reached: nat, c: Calibration)
    requires 0 in c.coarse
  {
    exists blocked: map<int, bool> :: PlannedWith(plan, reached, c, blocked)
  }

  ghost predicate PlannedWith(plan: seq<int>, reached: nat, c: Calibration, blocked: map<int, bool>)
    requires 0 in c.coarse
  {
    && (forall i :: 0 <= i < |c.coarse| ==> c.coarse[i] in blocked)
    && reached <= |plan| <= |Plan(c.coarse, blocked, c.fineStep)|
    && plan == Plan(c.coarse, blocked, c.fineStep)[..|plan|]
  }

  /** The ray reports the sample, its heading taken from where the scan began. */
  predicate Shows(ray: Ray, sample: Snapshot, startHeading: int) {
    && ray.observedAtMs == sample.observedAtMs && ray.stateVersion == sample.stateVersion
    && ray.blocked == sample.blocked && !sample.touchPressed && !sample.motionFault && sample.readingsValid
    && -180000 <= ray.actual < 180000 && (sample.headingMdeg - startHeading - ray.actual) % 360000 == 0
  }

  /** The rays report, in order, the samples taken since `before`. */
  ghost predicate SampledAs(rays: seq<Ray>, before: seq<Snapshot>, samples: seq<Snapshot>, startHeading: int) {
    && before <= samples && |before| + |rays| <= |samples|
    && forall j :: 0 <= j < |rays| ==> Shows(rays[j], samples[|before| + j], startHeading)
  }

  lemma SampledMore(first: seq<Ray>, rays: seq<Ray>, from: nat, before: seq<Snapshot>, between: seq<Snapshot>,
                    samples: seq<Snapshot>, startHeading: int)
    requires from <= |first| && first <= rays && |between| == |before| + |first| - from
    requires SampledAs(first[from..], before, between, startHeading)
    requires SampledAs(rays[|first|..], between, samples, startHeading)
    ensures SampledAs(rays[from..], before, samples, startHeading)
  {
    forall j | 0 <= j < |rays| - from
      ensures Shows(rays[from..][j], samples[|before| + j], startHeading)
    {
      if j < |first| - from {
        assert rays[from..][j] == first[from..][j] && samples[|before| + j] == between[|before| + j];
      } else {
        assert rays[from..][j] == rays[|first|..][j - (|first| - from)];
      }
    }
  }

  lemma NotYetSampled(plan: seq<int>, k: nat)
    requires Distinct(plan) && k < |plan|
    ensures plan[k] !in plan[..k]
  {
  }

  lemma CoarseOnly(schedule: seq<int>, c: Calibration)
    requires c.Valid()
    ensures schedule == CoarseSchedule(c.coarse) ==> forall n: nat :: n <= |schedule| ==> PlannedFrom(schedule, n, c)
  {
    var blocked := map i | 0 <= i < |c.coarse| :: c.coarse[i] := false;
    if schedule == CoarseSchedule(c.coarse) {
      assert schedule == Plan(c.coarse, blocked, c.fineStep)[..|schedule|];
      forall n: nat | n <= |schedule|
        ensures PlannedFrom(schedule, n, c)
      {
        assert PlannedWith(schedule, n, c, blocked);
      }
    }
  }

  /** The refinement adds only new bearings, and for the calibration's own coarse
      pass it completes exactly its plan. */
  lemma RouteExtends(rays: seq<Ray>, schedule: seq<int>, route: seq<int>, c: Calibration)
    requires c.Valid() && schedule != [] && Bearings(rays) == schedule && Distinct(schedule)
    requires StrictlyAscending(Sort(schedule))
    requires forall i :: 0 <= i < |rays| ==> Sort(schedule)[i] in BlockedBy(rays)
    requires route == Route(schedule[|schedule| - 1], TransitionMidpoints(Sort(schedule), BlockedBy(rays), c.fineStep))
    ensures Distinct(schedule + route)
    ensures schedule == CoarseSchedule(c.coarse) ==>
      forall n: nat :: n <= |schedule + route| ==> PlannedFrom(schedule + route, n, c)
  {
    RouteIsNew(schedule, Sort(schedule), BlockedBy(rays), c.fineStep);
    if schedule == CoarseSchedule(c.coarse) {
      SortedSchedule(c.coarse);
      WholePlan(schedule + route, c, BlockedBy(rays));
    }
  }

  lemma WholePlan(plan: seq<int>, c: Calibration, blocked: map<int, bool>)
    requires c.Valid() && forall i :: 0 <= i < |c.coarse| ==> c.coarse[i] in blocked
    requires plan == Plan(c.coarse, blocked, c.fineStep)
    ensures forall n: nat :: n <= |plan| ==> PlannedFrom(plan, n, c)
  {
    forall n: nat | n <= |plan|
      ensures PlannedFrom(plan, n, c)
    {
      assert PlannedWith(plan, n, c, blocked);
    }
  }

  lemma RouteIsNew(schedule: seq<int>, order: seq<int>, blocked: map<int, bool>, fineStep: int)
    requires schedule != [] && Distinct(schedule) && order == Sort(schedule) && StrictlyAscending(order) && fineStep >= 1
    requires forall i :: 0 <= i < |order| ==> order[i] in blocked
    ensures Distinct(schedule + Route(schedule[|schedule| - 1], TransitionMidpoints(order, blocked, fineStep)))
  {
    var few, all := TransitionMidpoints(order, blocked, fineStep), AllMidpoints(order, fineStep);
    var route := Route(schedule[|schedule| - 1], few);
    TransitionsAmongAll(order, blocked, fineStep);
    MidpointsAscend(order, fineStep);
    AmongKeepsOrder(few, all);
    RouteVisitsAll(schedule[|schedule| - 1], few);
    ReverseDescends(few);
    assert Distinct(route);
    forall x | x in route
      ensures x !in schedule
    {
      AmongIsSubset(few, all, x);
      MidpointsAreNew(order, fineStep, x);
      SortKeepsElements(schedule);
      assert x in multiset(order) <==> x in multiset(schedule);
    }
    DistinctParts(schedule, route);
  }

  lemma DistinctParts(a: seq<int>, b: seq<int>)
    requires Distinct(a) && Distinct(b) && forall x :: x in b ==> x !in a
    ensures Distinct(a + b)
  {
    forall i, j | 0 <= i < j < |a + b|
      ensures (a + b)[i] != (a + b)[j]
    {
      if i < |a| && |a| <= j {
        assert b[j - |a|] in b && a[i] in a;
      }
    }
  }

  /** The closed side probes, in the order they are visited. */
  const NEGATIVE_SIDE_PROBE: seq<int> := [-30000, -60000]
  const POSITIVE_SIDE_PROBE: seq<int> := [30000, 60000]

  /** Every schedule the source runs is one that `Execute` takes. */
  lemma SchedulesAreDistinct(c: Calibration)
    requires c.Valid()
    ensures Distinct(CoarseSchedule(c.coarse)) && CoarseSchedule(c.coarse) != []
    ensures Distinct(NEGATIVE_SIDE_PROBE) && Distinct(POSITIVE_SIDE_PROBE)
  {
    SortedSchedule(c.coarse);
  }

  /** A scan of the calibration's arc stays within the fixed worst-case budget, for
      every pattern of blocked rays and wherever it is cut short. */
  lemma ScanStaysWithinBudget(plan: seq<int>, reached: nat, c: Calibration)
    requires c.Valid() && reached <= |plan| && PlannedFrom(plan, reached, c)
    ensures Travel(0, plan[..reached]) <= Travel(0, WorstPlan(c.coarse, c.fineStep))
    ensures Turns(0, plan[..reached]) <= Turns(0, WorstPlan(c.coarse, c.fineStep))
    ensures |plan| <= |WorstPlan(c.coarse, c.fineStep)|
  {
    var blocked: map<int, bool> :| PlannedWith(plan, reached, c, blocked);
    var whole := Plan(c.coarse, blocked, c.fineStep);
    WorstCaseCovers(c, blocked, reached);
    WorstCaseCovers(c, blocked, |plan|);
    assert plan[..reached] == whole[..reached];
  }
}
