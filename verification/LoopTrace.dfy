/** Safety of a run of the supervisor loop, stated over the sequence of its events
    and of its wake-ups (ev3/supervisor.py, `EV3SupervisorLoop`). */
module LoopTrace {
  import opened Common

  /** How an execution ended: the call returned, it was refused with an error, or an
      exception of another kind left it. */
  datatype Answer = Ok | Refused | Crashed

  datatype Event =
    /** An item left the queues; `ends` says it asks for the shutdown. */
    | Dispatched(serial: nat, stopRequest: bool, ends: bool)
    /** The item was executed on the supervisor. */
    | Executed(answer: Answer)
    /** The item was answered from the cached stop proof instead. */
    | ProofUsed
    /** The loop performed a requested emergency stop. */
    | StopRan(verified: bool)
    | DeadlineMissed
    /** A response was queued for the item; `atRest` says no start command has been
        written since the motors were last seen at rest. */
    | Published(serial: nat, success: bool, atRest: bool)

  /** The item in flight. */
  datatype Flight = Flight(serial: nat, stopRequest: bool, ends: bool)

  /** What happened since an item was dispatched: a stop ran, a stop failed, a
      deadline was missed with no verified stop after it, a deadline was missed. */
  datatype Fate = Fate(stopped: bool, failed: bool, missed: bool, late: bool)

  /** What the events so far say about the item in flight and the stop proof;
      `answer` is how the item was answered, if it was. */
  datatype Track = Track(
    count: nat,
    pending: Option<Flight>,
    answer: Option<Answer>,
    fate: Fate,
    proof: bool,
    /** Successes queued for anything but a stop request. */
    successes: nat)

  function After(t: Track, e: Event): Track {
    match e
    case Dispatched(serial, stopRequest, ends) =>
      Track(t.count + 1, Some(Flight(serial, stopRequest, ends)), None, Fate(false, false, false, false),
            t.proof, t.successes)
    case Executed(answer) => t.(proof := false, answer := Some(answer))
    case ProofUsed => t.(proof := false, answer := Some(Ok))
    case StopRan(verified) =>
      t.(fate := Fate(true, t.fate.failed || !verified, t.fate.missed && !verified, t.fate.late), proof := verified)
    case DeadlineMissed => t.(fate := t.fate.(missed := true, late := true))
    case Published(_, success, _) =>
      t.(pending := None,
         successes := t.successes + if success && t.pending.Some? && !t.pending.value.stopRequest then 1 else 0)
  }

  function TrackOf(events: seq<Event>): Track {
    if events == [] then Track(0, None, None, Fate(false, false, false, false), false, 0)
    else After(TrackOf(events[..|events| - 1]), events[|events| - 1])
  }

  /** An execution that crashed gets no response. A success needs an answer that
      succeeded and a fate that allows it; and such an answer is only refused for a
      reason. */
  predicate MayPublish(stopRequest: bool, answer: Option<Answer>, fate: Fate, success: bool, atRest: bool) {
    && answer != Some(Crashed)
    && (success ==>
          answer == Some(Ok) && !fate.failed && !fate.missed && (if stopRequest then atRest else !fate.stopped))
    && (answer == Some(Ok) && !fate.failed && !fate.late && (stopRequest || !fate.stopped) ==> success)
  }

  predicate Permitted(t: Track, e: Event) {
    match e
    case Dispatched(serial, _, _) => serial == t.count
    case Executed(_) => t.pending.Some? && t.answer.None?
    case ProofUsed => t.pending.Some? && t.answer.None? && t.pending.value.stopRequest && t.proof
    case Published(serial, success, atRest) =>
      && t.pending.Some? && t.pending.value.serial == serial
      && MayPublish(t.pending.value.stopRequest, t.answer, t.fate, success, atRest)
    case _ => true
  }

  predicate Accepted(events: seq<Event>) {
    if events == [] then true
    else
      var before := events[..|events| - 1];
      Accepted(before) && Permitted(TrackOf(before), events[|events| - 1])
  }

  lemma Extend(events: seq<Event>, e: Event)
    ensures TrackOf(events + [e]) == After(TrackOf(events), e)
    ensures Accepted(events + [e]) <==> Accepted(events) && Permitted(TrackOf(events), e)
  {
    assert (events + [e])[..|events|] == events;
  }

  lemma {:induction false} PrefixAccepted(events: seq<Event>, n: nat)
    requires Accepted(events) && n <= |events|
    ensures Accepted(events[..n])
    ensures n < |events| ==> Permitted(TrackOf(events[..n]), events[n])
  {
    if n == |events| {
      assert events[..n] == events;
    } else {
      PrefixAccepted(events[..|events| - 1], n);
      assert events[..|events| - 1][..n] == events[..n];
      if n < |events| - 1 {
        assert events[..|events| - 1][n] == events[n];
      }
    }
  }

  predicate NoStopSince(events: seq<Event>, d: nat) {
    forall k :: d < k < |events| ==> !events[k].StopRan?
  }

  predicate NoFailedStopSince(events: seq<Event>, d: nat) {
    forall k :: d < k < |events| ==> events[k] != StopRan(false)
  }

  /** Every deadline missed since was followed by a verified stop. */
  predicate MissesAnswered(events: seq<Event>, d: nat) {
    forall k :: d < k < |events| && events[k].DeadlineMissed? ==> StoppedAfter(events, k)
  }

  predicate StoppedAfter(events: seq<Event>, k: nat) {
    exists s :: k < s < |events| && events[s] == StopRan(true)
  }

  /** The item was executed, or answered from the proof. */
  predicate HandledSince(events: seq<Event>, d: nat) {
    exists k :: d < k < |events| && (events[k].Executed? || events[k] == ProofUsed)
  }

  /** It was answered from the proof, or its execution returned. */
  predicate AnsweredSince(events: seq<Event>, d: nat) {
    exists k :: d < k < |events| && (events[k] == Executed(Ok) || events[k] == ProofUsed)
  }

  predicate NoMissSince(events: seq<Event>, d: nat) {
    forall k :: d < k < |events| ==> events[k] != DeadlineMissed
  }

  function DispatchOf(item: Flight): Event {
    Dispatched(item.serial, item.stopRequest, item.ends)
  }

  /** `d` is where the item in flight was dispatched, and the flags say exactly
      what happened to it since. */
  predicate InFlightSince(events: seq<Event>, d: nat, t: Track) {
    && d < |events| && t.pending.Some? && events[d] == DispatchOf(t.pending.value)
    && (forall k :: d < k < |events| ==> !events[k].Dispatched? && !events[k].Published?)
    && (t.fate.stopped <==> !NoStopSince(events, d))
    && (t.fate.failed <==> !NoFailedStopSince(events, d))
    && (t.fate.missed <==> !MissesAnswered(events, d))
    && (t.fate.late <==> !NoMissSince(events, d))
    && (t.answer.Some? <==> HandledSince(events, d))
    && (t.answer == Some(Ok) <==> AnsweredSince(events, d))
  }

  lemma {:induction false} FlightOf(events: seq<Event>) returns (d: nat)
    requires Accepted(events) && TrackOf(events).pending.Some?
    ensures InFlightSince(events, d, TrackOf(events))
  {
    var last := events[|events| - 1];
    var before := events[..|events| - 1];
    if last.Dispatched? {
      d := |events| - 1;
    } else {
      d := FlightOf(before);
      FlightContinues(before, last, d);
      assert before + [last] == events;
    }
  }

  lemma FlightContinues(events: seq<Event>, e: Event, d: nat)
    requires InFlightSince(events, d, TrackOf(events)) && !e.Dispatched? && !e.Published?
    requires Permitted(TrackOf(events), e)
    ensures InFlightSince(events + [e], d, After(TrackOf(events), e))
  {
    var t, longer := TrackOf(events), events + [e];
    assert longer[|events|] == e;
    assert forall k :: d < k < |events| ==> longer[k] == events[k];
    StopsContinue(events, e, d);
    MissesContinue(events, e, d);
    AnswerContinues(events, e, d);
  }

  lemma AnswerContinues(events: seq<Event>, e: Event, d: nat)
    requires d < |events|
    ensures HandledSince(events + [e], d) <==> HandledSince(events, d) || e.Executed? || e == ProofUsed
    ensures AnsweredSince(events + [e], d) <==> AnsweredSince(events, d) || e == Executed(Ok) || e == ProofUsed
    ensures NoMissSince(events + [e], d) <==> NoMissSince(events, d) && e != DeadlineMissed
  {
    var longer := events + [e];
    assert longer[|events|] == e;
    assert forall k :: d < k < |events| ==> longer[k] == events[k];
    if HandledSince(events, d) {
      var k :| d < k < |events| && (events[k].Executed? || events[k] == ProofUsed);
      assert longer[k] == events[k];
    }
    if AnsweredSince(events, d) {
      var k :| d < k < |events| && (events[k] == Executed(Ok) || events[k] == ProofUsed);
      assert longer[k] == events[k];
    }
  }

  lemma StopsContinue(events: seq<Event>, e: Event, d: nat)
    requires d < |events|
    ensures NoStopSince(events + [e], d) <==> NoStopSince(events, d) && !e.StopRan?
    ensures NoFailedStopSince(events + [e], d) <==> NoFailedStopSince(events, d) && e != StopRan(false)
  {
    var longer := events + [e];
    assert longer[|events|] == e;
    assert forall k :: d < k < |events| ==> longer[k] == events[k];
  }

  lemma StoppedLater(events: seq<Event>, e: Event, k: nat)
    requires k < |events|
    ensures StoppedAfter(events + [e], k) <==> StoppedAfter(events, k) || e == StopRan(true)
  {
    var longer := events + [e];
    assert longer[|events|] == e;
    if StoppedAfter(events, k) {
      var s :| k < s < |events| && events[s] == StopRan(true);
      assert longer[s] == StopRan(true);
    }
  }

  lemma MissesContinue(events: seq<Event>, e: Event, d: nat)
    requires d < |events|
    ensures MissesAnswered(events + [e], d) <==>
      e == StopRan(true) || (MissesAnswered(events, d) && !e.DeadlineMissed?)
  {
    var longer := events + [e];
    assert longer[|events|] == e;
    assert !StoppedAfter(longer, |events|);
    forall k | d < k < |events|
      ensures longer[k] == events[k]
      ensures StoppedAfter(longer, k) <==> StoppedAfter(events, k) || e == StopRan(true)
    {
      StoppedLater(events, e, k);
    }
  }

  /** When the item in flight may be answered with a success: it was answered from
      the proof or its execution returned, no stop since its dispatch failed, every
      deadline missed since was followed by a verified stop and, unless it is a stop
      request, no stop ran at all. A stop request also needs the motors at rest. */
  lemma SuccessExactly(events: seq<Event>, atRest: bool) returns (d: nat)
    requires Accepted(events) && TrackOf(events).pending.Some?
    ensures d < |events| && events[d].Dispatched? && events[d].serial == TrackOf(events).pending.value.serial
    ensures forall k :: d < k < |events| ==> !events[k].Dispatched? && !events[k].Published?
    ensures Accepted(events + [Published(events[d].serial, true, atRest)]) <==>
      && AnsweredSince(events, d) && NoFailedStopSince(events, d) && MissesAnswered(events, d)
      && (if events[d].stopRequest then atRest else NoStopSince(events, d))
  {
    d := FlightOf(events);
    Extend(events, Published(events[d].serial, true, atRest));
  }

  /** And when it must be: a request whose call returned, or that the proof answers,
      is refused only for a failed stop, a missed deadline or, unless it is a stop
      request itself, any stop since its dispatch. */
  lemma RefusalHasCause(events: seq<Event>, p: nat) returns (d: nat)
    requires Accepted(events) && p < |events| && events[p].Published? && !events[p].success
    ensures d < p && events[d].Dispatched? && events[d].serial == events[p].serial
    ensures forall k :: d < k < p ==> !events[k].Dispatched? && !events[k].Published?
    ensures !AnsweredSince(events[..p], d) || !NoFailedStopSince(events[..p], d) || !NoMissSince(events[..p], d)
         || (!events[d].stopRequest && !NoStopSince(events[..p], d))
  {
    PrefixAccepted(events, p);
    d := FlightOf(events[..p]);
    assert events[..p][d] == events[d];
    assert forall k :: d < k < p ==> events[..p][k] == events[k];
  }

  /** Every published success has its reason: the one answer its item got was the
      stop proof or an execution that returned. */
  lemma SuccessWasAnswered(events: seq<Event>, p: nat) returns (d: nat, a: nat)
    requires Accepted(events) && p < |events| && events[p].Published? && events[p].success
    ensures d < a < p && events[d].Dispatched? && events[d].serial == events[p].serial
    ensures events[a] == Executed(Ok) || (events[a] == ProofUsed && events[d].stopRequest)
    ensures forall k :: d < k < p && k != a ==>
      !events[k].Executed? && !events[k].ProofUsed? && !events[k].Dispatched? && !events[k].Published?
  {
    PrefixAccepted(events, p);
    var flight := events[..p];
    d := FlightOf(flight);
    a :| d < a < p && (flight[a] == Executed(Ok) || flight[a] == ProofUsed);
    OneAnswer(flight, d, a);
    PrefixAccepted(flight, a);
    SameFlight(flight, d, a);
    assert forall k :: d <= k < p ==> flight[k] == events[k];
  }

  lemma {:induction false} SameFlight(events: seq<Event>, d: nat, n: nat)
    requires Accepted(events) && d < n <= |events| && events[d].Dispatched?
    requires forall k :: d < k < |events| ==> !events[k].Dispatched? && !events[k].Published?
    ensures TrackOf(events[..n]).pending == Some(Flight(events[d].serial, events[d].stopRequest, events[d].ends))
  {
    assert events[..n][..n - 1] == events[..n - 1];
    if n > d + 1 {
      SameFlight(events, d, n - 1);
    }
  }

  /** An item is answered at most once. */
  lemma OneAnswer(events: seq<Event>, d: nat, a: nat)
    requires Accepted(events) && TrackOf(events).pending.Some? && InFlightSince(events, d, TrackOf(events))
    requires d < a < |events| && (events[a].Executed? || events[a].ProofUsed?)
    ensures forall k :: d < k < |events| && k != a ==> !events[k].Executed? && !events[k].ProofUsed?
  {
    forall k | d < k < |events| && k != a
      ensures !events[k].Executed? && !events[k].ProofUsed?
    {
      if events[k].Executed? || events[k].ProofUsed? {
        var first, last := Min(k, a), Max(k, a);
        HandledBefore(events, d, first, last);
        PrefixAccepted(events, last);
      }
    }
  }

  lemma {:induction false} HandledBefore(events: seq<Event>, d: nat, first: nat, n: nat)
    requires Accepted(events) && d < first < n <= |events|
    requires events[first].Executed? || events[first].ProofUsed?
    requires forall k :: d < k < |events| ==> !events[k].Dispatched? && !events[k].Published?
    ensures TrackOf(events[..n]).answer.Some?
  {
    assert events[..n][..n - 1] == events[..n - 1];
    if n > first + 1 {
      HandledBefore(events, d, first, n - 1);
    }
  }

  /** A success is only ever queued for the item in flight. For anything but a
      stop request, no emergency stop ran and no deadline check failed since its
      dispatch. For a stop request the motors are at rest, every stop since then
      was verified, and a deadline missed since then was followed by such a stop. */
  lemma SuccessIsClean(events: seq<Event>, p: nat) returns (d: nat)
    requires Accepted(events) && p < |events| && events[p].Published? && events[p].success
    ensures d < p && events[d].Dispatched? && events[d].serial == events[p].serial
    ensures forall k :: d < k < p ==> !events[k].Dispatched? && !events[k].Published? && events[k] != StopRan(false)
    ensures !events[d].stopRequest ==> forall k :: d < k < p ==> !events[k].StopRan? && !events[k].DeadlineMissed?
    ensures events[d].stopRequest ==> events[p].atRest
    ensures events[d].stopRequest ==>
      forall k :: d < k < p && events[k].DeadlineMissed? ==> StoppedAfter(events[..p], k)
  {
    PrefixAccepted(events, p);
    d := FlightOf(events[..p]);
    assert events[..p][d] == events[d];
    forall k | d < k < p
      ensures !events[k].Dispatched? && !events[k].Published? && events[k] != StopRan(false)
      ensures !events[d].stopRequest ==> !events[k].StopRan? && !events[k].DeadlineMissed?
    {
      assert events[..p][k] == events[k];
    }
  }

  /** So a stop request may succeed although a deadline was missed after it was
      executed, while the same run is closed to any other request. */
  lemma StopSucceedsAfterMiss(stopRequest: bool)
    ensures var run := [Dispatched(0, stopRequest, false), Executed(Ok), DeadlineMissed, StopRan(true),
                        Published(0, true, true)];
      Accepted(run) <==> stopRequest
  {
    var events := [Dispatched(0, stopRequest, false)];
    Extend([], events[0]);
    assert [] + events == events;
    Extend(events, Executed(Ok));
    Extend(events + [Executed(Ok)], DeadlineMissed);
    Extend(events + [Executed(Ok)] + [DeadlineMissed], StopRan(true));
    Extend(events + [Executed(Ok)] + [DeadlineMissed] + [StopRan(true)], Published(0, true, true));
    assert events + [Executed(Ok)] + [DeadlineMissed] + [StopRan(true)] + [Published(0, true, true)]
        == [Dispatched(0, stopRequest, false), Executed(Ok), DeadlineMissed, StopRan(true), Published(0, true, true)];
  }

  /** Every dispatched item gets at most one response. */
  lemma OneResponseEach(events: seq<Event>, i: nat, j: nat)
    requires Accepted(events) && i < j < |events| && events[i].Published? && events[j].Published?
    ensures events[i].serial != events[j].serial
  {
    PrefixAccepted(events, j);
    assert events[..j][i] == events[i];
    PendingIsNew(events[..j], i);
  }

  /** The item in flight was dispatched after every response queued so far. */
  lemma {:induction false} PendingIsNew(events: seq<Event>, i: nat)
    requires Accepted(events) && i < |events| && events[i].Published?
    ensures events[i].serial < TrackOf(events).count
    ensures TrackOf(events).pending.Some? ==> events[i].serial < TrackOf(events).pending.value.serial
  {
    var before := events[..|events| - 1];
    if i < |events| - 1 {
      PendingIsNew(before, i);
    } else {
      PendingBelow(before);
    }
  }

  lemma {:induction false} PendingBelow(events: seq<Event>)
    requires Accepted(events) && TrackOf(events).pending.Some?
    ensures TrackOf(events).pending.value.serial < TrackOf(events).count
  {
    if !events[|events| - 1].Dispatched? {
      PendingBelow(events[..|events| - 1]);
    }
  }

  /** The stop behind a live proof, with nothing executed and no other stop or
      proof use since. */
  lemma {:induction false} ProofOf(events: seq<Event>) returns (s: nat)
    requires Accepted(events) && TrackOf(events).proof
    ensures s < |events| && events[s] == StopRan(true)
    ensures forall k :: s < k < |events| ==> !events[k].Executed? && !events[k].ProofUsed? && !events[k].StopRan?
  {
    if events[|events| - 1].StopRan? {
      s := |events| - 1;
    } else {
      s := ProofOf(events[..|events| - 1]);
    }
  }

  /** A cached stop proof is used at most once, and never after another request
      was executed or another stop failed. */
  lemma ProofUsedOnce(events: seq<Event>, u: nat) returns (s: nat)
    requires Accepted(events) && u < |events| && events[u].ProofUsed?
    ensures s < u && events[s] == StopRan(true)
    ensures forall k :: s < k < u ==> !events[k].Executed? && !events[k].ProofUsed? && !events[k].StopRan?
  {
    PrefixAccepted(events, u);
    s := ProofOf(events[..u]);
    assert forall k :: s <= k < u ==> events[..u][k] == events[k];
  }

  // -------------------------------------------------------------- deadlines

  /** One pass of the loop: when it woke, the deadline it woke for, the time spent
      in verified request-bound stops, and whether no deadline check failed. */
  datatype Wake = Wake(atMs: int, tickMs: int, stopMs: int, onTime: bool)

  function NextTick(wakes: seq<Wake>, i: nat, nextTickMs: int): int
    requires i < |wakes|
  {
    if i + 1 < |wakes| then wakes[i + 1].tickMs else nextTickMs
  }

  predicate Scheduled(wakes: seq<Wake>, intervalMs: int, latenessMs: int, nextTickMs: int) {
    forall i :: 0 <= i < |wakes| && wakes[i].onTime ==>
      && wakes[i].atMs <= wakes[i].tickMs + latenessMs
      && NextTick(wakes, i, nextTickMs) == wakes[i].tickMs + intervalMs + wakes[i].stopMs
  }

  lemma ScheduleGrows(wakes: seq<Wake>, intervalMs: int, latenessMs: int, tickMs: int, wake: Wake, nextTickMs: int)
    requires Scheduled(wakes, intervalMs, latenessMs, tickMs) && wake.tickMs == tickMs
    requires wake.onTime ==>
      wake.atMs <= tickMs + latenessMs && nextTickMs == tickMs + intervalMs + wake.stopMs
    ensures Scheduled(wakes + [wake], intervalMs, latenessMs, nextTickMs)
  {
    var longer := wakes + [wake];
    forall i | 0 <= i < |longer| && longer[i].onTime
      ensures longer[i].atMs <= longer[i].tickMs + latenessMs
      ensures NextTick(longer, i, nextTickMs) == longer[i].tickMs + intervalMs + longer[i].stopMs
    {
      if i < |wakes| {
        assert wakes[i] == longer[i];
        assert NextTick(longer, i, nextTickMs) == NextTick(wakes, i, tickMs);
      }
    }
  }

  function StopTime(wakes: seq<Wake>): int {
    if wakes == [] then 0 else StopTime(wakes[..|wakes| - 1]) + wakes[|wakes| - 1].stopMs
  }

  /** While no deadline was missed, the nth deadline is the first plus n intervals
      plus exactly the time spent in verified request-bound stops. */
  lemma {:induction false} NthDeadline(wakes: seq<Wake>, intervalMs: int, latenessMs: int, nextTickMs: int, n: nat)
    requires Scheduled(wakes, intervalMs, latenessMs, nextTickMs) && n < |wakes|
    requires forall i :: 0 <= i < n ==> wakes[i].onTime
    ensures wakes[n].tickMs == wakes[0].tickMs + n * intervalMs + StopTime(wakes[..n])
  {
    if n > 0 {
      NthDeadline(wakes, intervalMs, latenessMs, nextTickMs, n - 1);
      assert wakes[..n][..n - 1] == wakes[..n - 1];
      assert NextTick(wakes, n - 1, nextTickMs) == wakes[n].tickMs;
      assert n * intervalMs == (n - 1) * intervalMs + intervalMs;
    }
  }

  /** Provided the sleep did not return before its deadline, consecutive wakes are
      at most an interval, the lateness budget and the stop time apart. */
  lemma WakeSpacing(wakes: seq<Wake>, intervalMs: int, latenessMs: int, nextTickMs: int, i: nat)
    requires Scheduled(wakes, intervalMs, latenessMs, nextTickMs) && i + 1 < |wakes|
    requires wakes[i].onTime && wakes[i + 1].onTime && wakes[i].atMs >= wakes[i].tickMs
    ensures wakes[i + 1].atMs - wakes[i].atMs <= intervalMs + latenessMs + wakes[i].stopMs
  {
    assert NextTick(wakes, i, nextTickMs) == wakes[i + 1].tickMs;
  }
}
