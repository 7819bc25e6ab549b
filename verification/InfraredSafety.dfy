/** The stateful infrared obstacle gate (ev3/infrared_safety.py).

    The source keeps a bounded deque, a hysteresis bit and a candidate counter.
    Here the class keeps the same fields and is proved to agree, after every
    call, with a specification that looks only at the whole history of calls. */
module InfraredSafety {
  import opened Common

  const MAX_MEDIAN_WINDOW := 31
  const MAX_CONSECUTIVE_DECISIONS := 20

  datatype Policy = Policy(
    immediateEnterMax: int,
    enterMax: int,
    exitMin: int,
    medianWindow: int,
    enterConsecutive: int,
    exitConsecutive: int)
  {
    predicate Valid() {
      && 0 <= immediateEnterMax <= enterMax < exitMin <= 100
      && 0 < medianWindow <= MAX_MEDIAN_WINDOW
      && medianWindow % 2 == 1
      && 0 < enterConsecutive <= MAX_CONSECUTIVE_DECISIONS
      && 0 < exitConsecutive <= MAX_CONSECUTIVE_DECISIONS
    }
  }

  /** What the sensor layer hands over: any integer, or something else. */
  datatype Reading = Integer(value: int) | NotAnInteger

  predicate Accepted(reading: Reading) {
    reading.Integer? && 0 <= reading.value <= 100
  }

  datatype Reason =
    | UnverifiedStartup
    | InvalidSample
    | WarmingUp
    | ImmediateEntry
    | StableEntry
    | StableExit
    | EntryPending
    | ExitPending
    | BlockedHold
    | ClearHold

  datatype Snapshot = Snapshot(
    raw: Option<int>,
    filtered: Option<int>,
    blocked: bool,
    reason: Reason,
    sampleCount: nat)

  // ---------------------------------------------------------------- median

  function CountAtLeast(s: seq<int>, t: int): nat {
    if s == [] then 0
    else CountAtLeast(s[..|s| - 1], t) + (if s[|s| - 1] >= t then 1 else 0)
  }

  lemma {:induction false} CountOfConcat(a: seq<int>, b: seq<int>, t: int)
    ensures CountAtLeast(a + b, t) == CountAtLeast(a, t) + CountAtLeast(b, t)
  {
    if b == [] {
      assert a + b == a;
    } else {
      CountOfConcat(a, b[..|b| - 1], t);
      assert (a + b)[..|a + b| - 1] == a + b[..|b| - 1];
    }
  }

  lemma {:induction false} InsertCounts(x: int, s: seq<int>, t: int)
    ensures CountAtLeast(Insert(x, s), t) == CountAtLeast(s, t) + CountAtLeast([x], t)
  {
    if s == [] {
    } else if x <= s[0] {
      CountOfConcat([x], s, t);
    } else {
      InsertCounts(x, s[1..], t);
      CountOfConcat([s[0]], s[1..], t);
      CountOfConcat([s[0]], Insert(x, s[1..]), t);
      assert s == [s[0]] + s[1..];
    }
  }

  lemma {:induction false} SortKeepsCount(s: seq<int>, t: int)
    ensures Ascending(Sort(s)) && |Sort(s)| == |s|
    ensures CountAtLeast(Sort(s), t) == CountAtLeast(s, t)
  {
    if s != [] {
      SortKeepsCount(s[..|s| - 1], t);
      InsertKeepsOrder(s[|s| - 1], Sort(s[..|s| - 1]));
      InsertCounts(s[|s| - 1], Sort(s[..|s| - 1]), t);
    }
  }

  lemma {:induction false} CountInAscending(s: seq<int>, k: nat, t: int)
    requires Ascending(s) && k < |s|
    ensures s[k] >= t <==> CountAtLeast(s, t) >= |s| - k
  {
    CountOfConcat(s[..k], s[k..], t);
    assert s == s[..k] + s[k..];
    CountBounds(s[..k], t);
    CountBounds(s[k..], t);
    if s[k] >= t {
      CountAll(s[k..], t);
    } else {
      CountNone(s[..k + 1], t);
      CountOfConcat(s[..k + 1], s[k + 1..], t);
      assert s == s[..k + 1] + s[k + 1..];
      CountBounds(s[k + 1..], t);
    }
  }

  lemma {:induction false} CountBounds(s: seq<int>, t: int)
    ensures 0 <= CountAtLeast(s, t) <= |s|
  {
    if s != [] {
      CountBounds(s[..|s| - 1], t);
    }
  }

  lemma {:induction false} CountAll(s: seq<int>, t: int)
    requires forall i :: 0 <= i < |s| ==> s[i] >= t
    ensures CountAtLeast(s, t) == |s|
  {
    if s != [] {
      CountAll(s[..|s| - 1], t);
    }
  }

  lemma {:induction false} CountNone(s: seq<int>, t: int)
    requires forall i :: 0 <= i < |s| ==> s[i] < t
    ensures CountAtLeast(s, t) == 0
  {
    if s != [] {
      CountNone(s[..|s| - 1], t);
    }
  }

  /** `int(round(median(samples)))`: the middle of an odd window, and the
      half-to-even rounding of the two middle values while warming up. */
  function Filtered(s: seq<int>): int
    requires s != []
  {
    var t := Sort(s);
    RoundHalf(if |t| % 2 == 1 then 2 * t[|t| / 2] else t[|t| / 2 - 1] + t[|t| / 2])
  }

  /** The filter is a majority vote: an odd window's median reaches a threshold
      exactly when more than half of the window does. */
  lemma MedianIsMajority(s: seq<int>, t: int)
    requires |s| % 2 == 1
    ensures Filtered(s) >= t <==> 2 * CountAtLeast(s, t) > |s|
  {
    SortKeepsCount(s, t);
    CountInAscending(Sort(s), |s| / 2, t);
  }

  // --------------------------------------------------------- history specification

  datatype Event = Sample(value: int) | Invalid

  datatype Vote = FailClosed | Immediate | Short | Near | Release | Neutral

  /** The valid samples seen since the start or the last invalidation. */
  function TrailingSamples(h: seq<Event>): seq<int> {
    if h == [] || h[|h| - 1].Invalid? then []
    else TrailingSamples(h[..|h| - 1]) + [h[|h| - 1].value]
  }

  function LastOf(s: seq<int>, n: nat): seq<int> {
    if |s| <= n then s else s[|s| - n..]
  }

  function Window(p: Policy, h: seq<Event>): seq<int>
    requires p.Valid()
  {
    LastOf(TrailingSamples(h), p.medianWindow)
  }

  /** How one reading votes, given the window it completes. */
  function Classify(p: Policy, value: int, window: seq<int>): (vote: Vote)
    requires p.Valid() && window != []
    ensures vote != FailClosed
  {
    if value <= p.immediateEnterMax then Immediate
    else if |window| < p.medianWindow then Short
    else if Filtered(window) <= p.enterMax then Near
    else if Filtered(window) >= p.exitMin then Release
    else Neutral
  }

  /** How the newest event of `h` votes. */
  function VoteOf(p: Policy, h: seq<Event>): Vote
    requires p.Valid() && h != []
  {
    var e := h[|h| - 1];
    if e.Invalid? then FailClosed else Classify(p, e.value, Window(p, h))
  }

  /** The vote of every event of the history, oldest first. */
  function Votes(p: Policy, h: seq<Event>): (votes: seq<Vote>)
    requires p.Valid()
    ensures |votes| == |h|
  {
    if h == [] then [] else Votes(p, h[..|h| - 1]) + [VoteOf(p, h)]
  }

  lemma {:induction false} VoteAt(p: Policy, h: seq<Event>, i: nat)
    requires p.Valid() && 0 < i <= |h|
    ensures Votes(p, h)[i - 1] == VoteOf(p, h[..i])
  {
    if i == |h| {
      assert h[..i] == h;
    } else {
      VoteAt(p, h[..|h| - 1], i);
      assert h[..|h| - 1][..i] == h[..i];
    }
  }

  /** Length of the run of votes `v` that ends at the newest one. */
  function RunOf(votes: seq<Vote>, v: Vote): nat {
    if votes == [] || votes[|votes| - 1] != v then 0 else RunOf(votes[..|votes| - 1], v) + 1
  }

  ghost predicate DecidesBlocked(p: Policy, votes: seq<Vote>) {
    || votes == []
    || votes[|votes| - 1] == FailClosed
    || votes[|votes| - 1] == Immediate
    || RunOf(votes, Near) >= p.enterConsecutive
  }

  ghost predicate DecidesClear(p: Policy, votes: seq<Vote>) {
    RunOf(votes, Release) >= p.exitConsecutive
  }

  /** The latest decisive vote ends at `k` and completes a release run. */
  ghost predicate ReleasedAt(p: Policy, votes: seq<Vote>, k: nat)
    requires k <= |votes|
  {
    && DecidesClear(p, votes[..k])
    && forall j :: k < j <= |votes| ==> !DecidesBlocked(p, votes[..j])
  }

  ghost predicate IsClear(p: Policy, votes: seq<Vote>) {
    exists k :: 0 <= k <= |votes| && ReleasedAt(p, votes, k)
  }

  ghost predicate GateClear(p: Policy, h: seq<Event>)
    requires p.Valid()
  {
    IsClear(p, Votes(p, h))
  }

  ghost function ReasonOf(p: Policy, votes: seq<Vote>): Reason {
    if votes == [] then UnverifiedStartup
    else ReasonFor(votes[|votes| - 1], IsClear(p, votes[..|votes| - 1]), IsClear(p, votes))
  }

  /** The published reason, from the newest vote and the verdicts around it. */
  function ReasonFor(vote: Vote, was: bool, now: bool): Reason {
    match vote
    case FailClosed => InvalidSample
    case Immediate => ImmediateEntry
    case Short => WarmingUp
    case Near => if was && !now then StableEntry else if now then EntryPending else BlockedHold
    case Release => if !was && now then StableExit else if now then ClearHold else ExitPending
    case Neutral => if now then ClearHold else BlockedHold
  }

  function SamplesIn(h: seq<Event>): nat {
    if h == [] then 0
    else SamplesIn(h[..|h| - 1]) + (if h[|h| - 1].Sample? then 1 else 0)
  }

  /** What the gate must publish after the calls recorded in `h`. */
  ghost function SnapshotOf(p: Policy, h: seq<Event>): Snapshot
    requires p.Valid()
  {
    var live := TrailingSamples(h) != [];
    Snapshot(
      if live then Some(h[|h| - 1].value) else None,
      if live then Some(Filtered(Window(p, h))) else None,
      !GateClear(p, h),
      ReasonOf(p, Votes(p, h)),
      SamplesIn(h))
  }

  function Shifted(p: Policy, window: seq<int>): seq<int>
    requires p.Valid()
  {
    if |window| == p.medianWindow then window[1..] else window
  }

  /** Appending one event: what the incremental gate must reproduce. */
  lemma EventStep(p: Policy, h: seq<Event>, e: Event)
    requires p.Valid()
    ensures Votes(p, h + [e]) == Votes(p, h) + [VoteOf(p, h + [e])]
    ensures SamplesIn(h + [e]) == SamplesIn(h) + (if e.Sample? then 1 else 0)
    ensures TrailingSamples(h + [e]) == if e.Sample? then TrailingSamples(h) + [e.value] else []
    ensures e.Sample? ==> Window(p, h + [e]) == Shifted(p, Window(p, h)) + [e.value]
    ensures e.Sample? ==> VoteOf(p, h + [e]) == Classify(p, e.value, Window(p, h + [e]))
  {
    assert (h + [e])[..|h|] == h;
  }

  lemma ReleasedStep(p: Policy, votes: seq<Vote>, v: Vote, k: nat)
    requires k <= |votes|
    ensures ReleasedAt(p, votes + [v], k) <==> ReleasedAt(p, votes, k) && !DecidesBlocked(p, votes + [v])
  {
    var g := votes + [v];
    forall j | 0 <= j <= |votes|
      ensures g[..j] == votes[..j]
    {
    }
    assert g[..|g|] == g;
  }

  /** One more vote changes the declarative verdict only if it is decisive. */
  lemma VerdictStep(p: Policy, votes: seq<Vote>, v: Vote)
    requires p.Valid()
    ensures IsClear(p, votes + [v]) <==>
      DecidesClear(p, votes + [v]) || (IsClear(p, votes) && !DecidesBlocked(p, votes + [v]))
    ensures forall w :: RunOf(votes + [v], w) == if v == w then RunOf(votes, w) + 1 else 0
    ensures ReasonOf(p, votes + [v]) == ReasonFor(v, IsClear(p, votes), IsClear(p, votes + [v]))
  {
    var g := votes + [v];
    assert g[..|votes|] == votes;
    assert g[..|g|] == g;
    if DecidesClear(p, g) {
      assert ReleasedAt(p, g, |g|);
    }
    if k :| 0 <= k <= |votes| && ReleasedAt(p, votes, k) && !DecidesBlocked(p, g) {
      ReleasedStep(p, votes, v, k);
      assert ReleasedAt(p, g, k);
    }
    if k :| 0 <= k <= |g| && ReleasedAt(p, g, k) && !DecidesClear(p, g) {
      ReleasedStep(p, votes, v, k);
    }
  }

  lemma VerdictAtStart(p: Policy)
    requires p.Valid()
    ensures !IsClear(p, [])
  {
    var start: seq<Vote> := [];
    assert start[..0] == start;
    assert RunOf(start, Release) == 0;
  }

  lemma {:induction false} RunIsRun(votes: seq<Vote>, v: Vote, i: nat)
    requires i < RunOf(votes, v)
    ensures RunOf(votes, v) <= |votes|
    ensures votes[|votes| - 1 - i] == v
  {
    var init := votes[..|votes| - 1];
    if RunOf(init, v) > 0 {
      RunIsRun(init, v, if i > 0 then i - 1 else 0);
    }
  }

  /** A vote on a full window needs a full window, and each further vote of the
      run one more sample. */
  lemma {:induction false} ReleaseRunNeedsSamples(p: Policy, h: seq<Event>)
    requires p.Valid()
    ensures var run := RunOf(Votes(p, h), Release);
      run > 0 ==> |TrailingSamples(h)| >= p.medianWindow + run - 1
  {
    if h != [] {
      var g := h[..|h| - 1];
      assert Votes(p, h)[..|h| - 1] == Votes(p, g);
      ReleaseRunNeedsSamples(p, g);
    }
  }

  lemma {:induction false} SamplesSurvive(p: Policy, h: seq<Event>, k: nat)
    requires p.Valid() && k <= |h|
    requires forall j :: k <= j < |h| ==> h[j].Sample?
    ensures |TrailingSamples(h)| >= |TrailingSamples(h[..k])|
  {
    if k == |h| {
      assert h[..k] == h;
    } else {
      assert h[..|h| - 1][..k] == h[..k];
      SamplesSurvive(p, h[..|h| - 1], k);
    }
  }

  lemma {:induction false} VotesOfPrefix(p: Policy, h: seq<Event>, k: nat)
    requires p.Valid() && k <= |h|
    ensures Votes(p, h[..k]) == Votes(p, h)[..k]
  {
    if k == |h| {
      assert h[..k] == h;
    } else {
      VotesOfPrefix(p, h[..|h| - 1], k);
      assert h[..|h| - 1][..k] == h[..k];
    }
  }

  lemma QuietAfterRelease(p: Policy, h: seq<Event>, k: nat, j: nat)
    requires p.Valid() && k <= j < |h| && ReleasedAt(p, Votes(p, h), k)
    ensures h[j].Sample? && h[j].value > p.immediateEnterMax
  {
    var votes := Votes(p, h);
    assert !DecidesBlocked(p, votes[..j + 1]);
    VoteAt(p, h, j + 1);
    assert votes[..j + 1][j] == VoteOf(p, h[..j + 1]);
  }

  /** No gate is ever clear before `medianWindow + exitConsecutive - 1` valid
      samples have arrived since the start or the last invalid reading. */
  lemma ClearNeedsEnoughSamples(p: Policy, h: seq<Event>)
    requires p.Valid() && GateClear(p, h)
    ensures |TrailingSamples(h)| >= p.medianWindow + p.exitConsecutive - 1
  {
    var k :| 0 <= k <= |h| && ReleasedAt(p, Votes(p, h), k);
    VotesOfPrefix(p, h, k);
    ReleaseRunNeedsSamples(p, h[..k]);
    forall j | k <= j < |h|
      ensures h[j].Sample?
    {
      QuietAfterRelease(p, h, k, j);
    }
    SamplesSurvive(p, h, k);
  }

  ghost predicate MajorityWindow(p: Policy, h: seq<Event>)
    requires p.Valid()
  {
    && |Window(p, h)| == p.medianWindow
    && 2 * CountAtLeast(Window(p, h), p.exitMin) > p.medianWindow
  }

  ghost predicate ReleasedByMajorities(p: Policy, h: seq<Event>, k: nat)
    requires p.Valid() && p.exitConsecutive <= k <= |h|
  {
    && (forall i :: k - p.exitConsecutive < i <= k ==> MajorityWindow(p, h[..i]))
    && (forall j :: k <= j < |h| ==> h[j].Sample? && h[j].value > p.immediateEnterMax)
  }

  lemma RunOfPrefix(votes: seq<Vote>, v: Vote, k: nat, i: int)
    requires k <= |votes| && k - RunOf(votes[..k], v) < i <= k
    ensures 0 < i && votes[i - 1] == v
  {
    RunIsRun(votes[..k], v, k - i);
  }

  lemma ReleaseEvidence(p: Policy, h: seq<Event>, k: nat, i: int)
    requires p.Valid() && k <= |h| && DecidesClear(p, Votes(p, h)[..k])
    requires k - p.exitConsecutive < i <= k
    ensures 0 < i && VoteOf(p, h[..i]) == Release
  {
    RunOfPrefix(Votes(p, h), Release, k, i);
    VoteAt(p, h, i);
  }

  lemma ReleaseVoteIsMajority(p: Policy, h: seq<Event>)
    requires p.Valid() && h != [] && VoteOf(p, h) == Release
    ensures MajorityWindow(p, h)
  {
    MedianIsMajority(Window(p, h), p.exitMin);
  }

  /** A clear gate rests on evidence: some run of `exitConsecutive` complete
      windows each held a majority of readings at or above `exitMin`, and no
      reading since was invalid or within the immediate-entry band. */
  lemma ClearRestsOnMajorities(p: Policy, h: seq<Event>)
    requires p.Valid() && GateClear(p, h)
    ensures exists k :: p.exitConsecutive <= k <= |h| && ReleasedByMajorities(p, h, k)
  {
    var k :| 0 <= k <= |h| && ReleasedAt(p, Votes(p, h), k);
    ReleaseEvidence(p, h, k, k - p.exitConsecutive + 1);
    forall i | k - p.exitConsecutive < i <= k
      ensures MajorityWindow(p, h[..i])
    {
      ReleaseEvidence(p, h, k, i);
      ReleaseVoteIsMajority(p, h[..i]);
    }
    forall j | k <= j < |h|
      ensures h[j].Sample? && h[j].value > p.immediateEnterMax
    {
      QuietAfterRelease(p, h, k, j);
    }
    assert ReleasedByMajorities(p, h, k);
  }

  // ------------------------------------------- the verdict on the readings alone

  ghost predicate FullWindow(p: Policy, h: seq<Event>)
    requires p.Valid()
  {
    && h != [] && h[|h| - 1].Sample? && h[|h| - 1].value > p.immediateEnterMax
    && |Window(p, h)| == p.medianWindow
  }

  /** A full window with a majority of readings at or above the exit threshold. */
  ghost predicate FarWindow(p: Policy, h: seq<Event>)
    requires p.Valid()
  {
    FullWindow(p, h) && 2 * CountAtLeast(Window(p, h), p.exitMin) > p.medianWindow
  }

  /** A full window with a majority of readings at or below the entry threshold. */
  ghost predicate NearWindow(p: Policy, h: seq<Event>)
    requires p.Valid()
  {
    FullWindow(p, h) && 2 * CountAtLeast(Window(p, h), p.enterMax + 1) < p.medianWindow
  }

  /** What blocks: the start, an invalid reading, one within the immediate band, or
      enough near windows in a row. */
  ghost predicate Blocks(p: Policy, h: seq<Event>)
    requires p.Valid()
  {
    || h == [] || h[|h| - 1].Invalid? || h[|h| - 1].value <= p.immediateEnterMax
    || (|h| >= p.enterConsecutive && forall i :: |h| - p.enterConsecutive < i <= |h| ==> NearWindow(p, h[..i]))
  }

  /** What releases: enough far windows in a row. */
  ghost predicate Releases(p: Policy, h: seq<Event>)
    requires p.Valid()
  {
    |h| >= p.exitConsecutive && forall i :: |h| - p.exitConsecutive < i <= |h| ==> FarWindow(p, h[..i])
  }

  lemma VoteMeaning(p: Policy, h: seq<Event>)
    requires p.Valid() && h != []
    ensures VoteOf(p, h) == Release <==> FarWindow(p, h)
    ensures VoteOf(p, h) == Near <==> NearWindow(p, h)
    ensures VoteOf(p, h) == FailClosed <==> h[|h| - 1].Invalid?
    ensures VoteOf(p, h) == Immediate <==> h[|h| - 1].Sample? && h[|h| - 1].value <= p.immediateEnterMax
  {
    var w := Window(p, h);
    if |w| == p.medianWindow {
      MedianIsMajority(w, p.exitMin);
      MedianIsMajority(w, p.enterMax + 1);
      CountFalls(w, p.enterMax + 1, p.exitMin);
    }
  }

  lemma {:induction false} CountFalls(s: seq<int>, low: int, high: int)
    requires low <= high
    ensures CountAtLeast(s, high) <= CountAtLeast(s, low)
  {
    if s != [] {
      CountFalls(s[..|s| - 1], low, high);
    }
  }

  lemma {:induction false} RunCovers(votes: seq<Vote>, v: Vote, n: nat)
    requires n <= |votes| && forall i :: |votes| - n <= i < |votes| ==> votes[i] == v
    ensures RunOf(votes, v) >= n
  {
    if n > 0 {
      RunCovers(votes[..|votes| - 1], v, n - 1);
    }
  }

  lemma RunMeaning(p: Policy, h: seq<Event>, v: Vote, n: nat)
    requires p.Valid() && n >= 1
    ensures RunOf(Votes(p, h), v) >= n <==>
      |h| >= n && forall i :: |h| - n < i <= |h| ==> VoteOf(p, h[..i]) == v
  {
    var votes := Votes(p, h);
    if RunOf(votes, v) >= n {
      forall i | |h| - n < i <= |h|
        ensures |h| >= n && 0 < i && VoteOf(p, h[..i]) == v
      {
        RunIsRun(votes, v, |h| - i);
        RunIsRun(votes, v, n - 1);
        VoteAt(p, h, i);
      }
      RunIsRun(votes, v, 0);
    }
    if |h| >= n && forall i :: |h| - n < i <= |h| ==> VoteOf(p, h[..i]) == v {
      forall j | |h| - n <= j < |h|
        ensures votes[j] == v
      {
        VoteAt(p, h, j + 1);
      }
      RunCovers(votes, v, n);
    }
  }

  lemma ReleasesMeaning(p: Policy, h: seq<Event>)
    requires p.Valid()
    ensures DecidesClear(p, Votes(p, h)) <==> Releases(p, h)
  {
    RunMeaning(p, h, Release, p.exitConsecutive);
    forall i | 0 < i <= |h|
      ensures VoteOf(p, h[..i]) == Release <==> FarWindow(p, h[..i])
    {
      VoteMeaning(p, h[..i]);
    }
  }

  lemma BlocksMeaning(p: Policy, h: seq<Event>)
    requires p.Valid()
    ensures DecidesBlocked(p, Votes(p, h)) <==> Blocks(p, h)
  {
    RunMeaning(p, h, Near, p.enterConsecutive);
    forall i | 0 < i <= |h|
      ensures VoteOf(p, h[..i]) == Near <==> NearWindow(p, h[..i])
    {
      VoteMeaning(p, h[..i]);
    }
    if h != [] {
      VoteMeaning(p, h);
      VoteAt(p, h, |h|);
      assert h[..|h|] == h;
    }
  }

  /** The gate is clear exactly when some run of far windows released it and nothing
      has blocked it since, on the readings themselves. */
  lemma GateClearExactly(p: Policy, h: seq<Event>)
    requires p.Valid()
    ensures GateClear(p, h) <==>
      exists k: nat :: k <= |h| && Releases(p, h[..k]) && forall j: nat :: k < j <= |h| ==> !Blocks(p, h[..j])
  {
    forall k: nat | k <= |h|
      ensures DecidesClear(p, Votes(p, h)[..k]) <==> Releases(p, h[..k])
      ensures DecidesBlocked(p, Votes(p, h)[..k]) <==> Blocks(p, h[..k])
    {
      VotesOfPrefix(p, h, k);
      ReleasesMeaning(p, h[..k]);
      BlocksMeaning(p, h[..k]);
    }
    if GateClear(p, h) {
      var k :| 0 <= k <= |h| && ReleasedAt(p, Votes(p, h), k);
      assert Releases(p, h[..k]);
    }
    if k: nat :| k <= |h| && Releases(p, h[..k]) && forall j: nat :: k < j <= |h| ==> !Blocks(p, h[..j]) {
      assert ReleasedAt(p, Votes(p, h), k);
    }
  }

  /** While warming up on an even number of samples the published value is the mean
      of the two middle ones, rounded half to even: `a` and `b` are the largest
      values that more than half and at least half of the samples reach. */
  lemma WarmingUpMean(s: seq<int>, a: int, b: int)
    requires s != [] && |s| % 2 == 0
    requires 2 * CountAtLeast(s, a) > |s| >= 2 * CountAtLeast(s, a + 1)
    requires 2 * CountAtLeast(s, b) >= |s| > 2 * CountAtLeast(s, b + 1)
    ensures -1 <= 2 * Filtered(s) - (a + b) <= 1
    ensures 2 * Filtered(s) == a + b || Filtered(s) % 2 == 0
  {
    var half := |s| / 2;
    SortKeepsCount(s, a);
    SortKeepsCount(s, a + 1);
    SortKeepsCount(s, b);
    SortKeepsCount(s, b + 1);
    CountInAscending(Sort(s), half - 1, a);
    CountInAscending(Sort(s), half - 1, a + 1);
    CountInAscending(Sort(s), half, b);
    CountInAscending(Sort(s), half, b + 1);
  }

  function Events(samples: seq<int>): seq<Event> {
    seq(|samples|, i requires 0 <= i < |samples| => Sample(samples[i]))
  }

  lemma {:induction false} TrailingOfEvents(h: seq<Event>, samples: seq<int>)
    ensures TrailingSamples(h + Events(samples)) == TrailingSamples(h) + samples
  {
    if samples == [] {
      assert h + Events(samples) == h;
    } else {
      var init := samples[..|samples| - 1];
      var g := h + Events(samples);
      TrailingOfEvents(h, init);
      assert g[..|g| - 1] == h + Events(init);
      assert samples == init + [samples[|samples| - 1]];
    }
  }

  lemma FullReleaseWindowVotes(p: Policy, h: seq<Event>, samples: seq<int>)
    requires p.Valid() && |samples| >= p.medianWindow
    requires forall i :: 0 <= i < |samples| ==> samples[i] >= p.exitMin
    ensures VoteOf(p, h + Events(samples)) == Release
  {
    TrailingOfEvents(h, samples);
    var w := Window(p, h + Events(samples));
    assert w == samples[|samples| - p.medianWindow..];
    CountAll(w, p.exitMin);
    MedianIsMajority(w, p.exitMin);
  }

  lemma {:induction false} ReleaseRunGrows(p: Policy, h: seq<Event>, samples: seq<int>)
    requires p.Valid() && |samples| >= p.medianWindow
    requires forall i :: 0 <= i < |samples| ==> samples[i] >= p.exitMin
    ensures RunOf(Votes(p, h + Events(samples)), Release) >= |samples| - p.medianWindow + 1
  {
    var init := samples[..|samples| - 1];
    FullReleaseWindowVotes(p, h, samples);
    assert h + Events(samples) == h + Events(init) + [Sample(samples[|samples| - 1])];
    EventStep(p, h + Events(init), Sample(samples[|samples| - 1]));
    VerdictStep(p, Votes(p, h + Events(init)), Release);
    if |init| >= p.medianWindow {
      ReleaseRunGrows(p, h, init);
    }
  }

  /** The bound of `ClearNeedsEnoughSamples` is attained from every history. */
  lemma EnoughReleaseSamplesClear(p: Policy, h: seq<Event>, samples: seq<int>)
    requires p.Valid() && |samples| >= p.medianWindow + p.exitConsecutive - 1
    requires forall i :: 0 <= i < |samples| ==> samples[i] >= p.exitMin
    ensures GateClear(p, h + Events(samples))
  {
    var votes := Votes(p, h + Events(samples));
    ReleaseRunGrows(p, h, samples);
    assert votes[..|votes|] == votes;
    assert ReleasedAt(p, votes, |votes|);
  }

  // ----------------------------------------------------------------- the gate

  class InfraredObstacleGate {
    const policy: Policy
    var samples: seq<int>
    var raw: Option<int>
    var filtered: Option<int>
    var blocked: bool
    var reason: Reason
    var sampleCount: nat
    var candidateBlocked: Option<bool>
    var candidateCount: nat
    ghost var history: seq<Event>

    /** Every field is determined by the history of calls. */
    ghost predicate Valid()
      reads this
    {
      && policy.Valid()
      && samples == Window(policy, history)
      && Snapshot(raw, filtered, blocked, reason, sampleCount) == SnapshotOf(policy, history)
      && Hysteresis(Votes(policy, history))
    }

    /** The verdict bit and the candidate counter after the given votes. */
    ghost predicate Hysteresis(votes: seq<Vote>)
      requires policy.Valid()
      reads this
    {
      && blocked == !IsClear(policy, votes)
      && candidateCount == RunOf(votes, if blocked then Release else Near)
      && candidateCount < (if blocked then policy.exitConsecutive else policy.enterConsecutive)
      && candidateBlocked == (if candidateCount > 0 then Some(!blocked) else None)
    }

    constructor (policy: Policy)
      requires policy.Valid()
      ensures Valid() && history == [] && this.policy == policy
    {
      this.policy := policy;
      samples, raw, filtered := [], None, None;
      blocked, reason, sampleCount := true, UnverifiedStartup, 0;
      candidateBlocked, candidateCount := None, 0;
      history := [];
      new;
      VerdictAtStart(policy);
    }

    method Publish() returns (snapshot: Snapshot)
      requires Valid()
      ensures snapshot == SnapshotOf(policy, history)
    {
      snapshot := Snapshot(raw, filtered, blocked, reason, sampleCount);
    }

    method FailClosedGate() returns (snapshot: Snapshot)
      requires Valid()
      modifies this
      ensures Valid() && history == old(history) + [Invalid]
      ensures snapshot == SnapshotOf(policy, history)
    {
      ghost var h := history + [Invalid];
      EventStep(policy, history, Invalid);
      VerdictStep(policy, Votes(policy, history), FailClosed);
      assert !GateClear(policy, h) && RunOf(Votes(policy, h), Release) == 0;
      history := h;
      samples, raw, filtered := [], None, None;
      blocked, reason := true, InvalidSample;
      candidateBlocked, candidateCount := None, 0;
      snapshot := Publish();
    }

    /** Consume one reading; `None` is the SafetyError the source raises after
        failing closed. */
    method Observe(reading: Reading) returns (snapshot: Option<Snapshot>)
      requires Valid()
      modifies this
      ensures Valid()
      ensures history == old(history) + [if Accepted(reading) then Sample(reading.value) else Invalid]
      ensures snapshot == if Accepted(reading) then Some(SnapshotOf(policy, history)) else None
    {
      if !Accepted(reading) {
        var _ := FailClosedGate();
        return None;
      }
      ghost var votes := Votes(policy, history);
      var vote := Filter(reading.value);
      Decide(votes, vote);
      var s := Publish();
      return Some(s);
    }

    /** The head of `observe`: window, median and sample counter. */
    method Filter(value: int) returns (vote: Vote)
      requires Valid()
      modifies `history, `raw, `filtered, `samples, `sampleCount
      ensures history == old(history) + [Sample(value)]
      ensures Votes(policy, history) == Votes(policy, old(history)) + [vote]
      ensures vote != FailClosed && TrailingSamples(history) != []
      ensures samples == Window(policy, history) && sampleCount == SamplesIn(history)
      ensures raw == Some(value) && filtered == Some(Filtered(samples))
    {
      ghost var h := history + [Sample(value)];
      EventStep(policy, history, Sample(value));
      assert Window(policy, h) == Shifted(policy, samples) + [value];
      history := h;
      raw := Some(value);
      sampleCount := sampleCount + 1;
      samples := Shifted(policy, samples) + [value];
      filtered := Some(Filtered(samples));
      vote := Classify(policy, value, samples);
    }

    /** The tail of `observe`: hysteresis and the consecutive-vote counter. */
    method Decide(ghost votes: seq<Vote>, vote: Vote)
      requires policy.Valid() && Hysteresis(votes) && vote != FailClosed
      modifies `blocked, `reason, `candidateBlocked, `candidateCount
      ensures Hysteresis(votes + [vote])
      ensures reason == ReasonOf(policy, votes + [vote])
    {
      VerdictStep(policy, votes, vote);
      if vote == Immediate {
        blocked, reason := true, ImmediateEntry;
        candidateBlocked, candidateCount := None, 0;
      } else if vote == Short {
        reason := WarmingUp;
        candidateBlocked, candidateCount := None, 0;
      } else if vote == Neutral || (vote == Near) == blocked {
        reason := if blocked then BlockedHold else ClearHold;
        candidateBlocked, candidateCount := None, 0;
      } else {
        var desired := vote == Near;
        if candidateBlocked == Some(desired) {
          candidateCount := candidateCount + 1;
        } else {
          candidateBlocked, candidateCount := Some(desired), 1;
        }
        if candidateCount < (if desired then policy.enterConsecutive else policy.exitConsecutive) {
          reason := if desired then EntryPending else ExitPending;
        } else {
          blocked := desired;
          reason := if desired then StableEntry else StableExit;
          candidateBlocked, candidateCount := None, 0;
        }
      }
    }
  }
}
