/** The polling loop, the request reader and the response session around one
    supervisor (ev3/supervisor.py, `EV3SupervisorLoop`; ev3/supervisor_daemon.py,
    `ForegroundSupervisorSession`).

    The reader thread only touches the queues, the counters and the stop flags,
    each under a lock, so its steps are interleaved at every point where the loop
    reads one of them. `Threw` is an exception that ends the loop. */
module SupervisorLoop {
  import opened Common
  import opened LoopTrace
  import opened Supervisor
  import opened SupervisorProtocol
  import SupervisorView

  const NORMAL_QUEUE_SIZE: nat := 8
  const URGENT_QUEUE_SIZE: nat := 4

  /** `None` is a rejected frame that only needs an error response. */
  datatype Item = Item(request: Option<Request>) {
    predicate IsStop() {
      request.Some? && request.value.IsStop()
    }

    predicate IsShutdown() {
      request.Some? && request.value.operation == OpShutdown
    }
  }

  datatype ErrorCode = ExternalStopRequested | DeadlineExceeded | StopNotConfirmed

  /** `bound` says a queued stop request asked for the stop. */
  datatype StopOutcome = NoStop | Stopped(code: ErrorCode, bound: bool) | StopThrew

  function AnswerOf(reply: Reply): Answer {
    match reply
    case Success => Ok
    case Error => Refused
    case Crash => Crashed
  }

  /** The prepared response of one dispatched item. */
  datatype Completion = Completion(serial: nat, stopRequest: bool, shutdown: bool, success: bool)

  datatype Exit = Returned | Threw

  function Prefer(first: Option<ErrorCode>, second: Option<ErrorCode>): Option<ErrorCode> {
    if first == Some(StopNotConfirmed) then first
    else if second == Some(StopNotConfirmed) then second
    else if first.Some? then first
    else second
  }

  function CodeOf(outcome: StopOutcome): Option<ErrorCode> {
    if outcome.Stopped? then Some(outcome.code) else None
  }

  /** `post` tells of everything since the dispatch that forbids a success, and of
      nothing else. */
  predicate Forbids(fate: Fate, post: Option<ErrorCode>) {
    && (fate.stopped ==> post.Some?)
    && (fate.failed <==> post == Some(StopNotConfirmed))
    && (fate.missed ==> post == Some(DeadlineExceeded) || post == Some(StopNotConfirmed))
    && (post == Some(DeadlineExceeded) ==> fate.late)
    && (post == Some(ExternalStopRequested) ==> fate.stopped)
  }

  function TrackAfterMiss(t: Track, stop: StopOutcome): Track {
    var missed := After(t, DeadlineMissed);
    if stop.Stopped? then After(missed, StopRan(stop.code == ExternalStopRequested)) else missed
  }

  /** An overrun dispatch is invalidated whatever happened before or after it. */
  lemma MissForbids(t: Track, stop: StopOutcome, post: Option<ErrorCode>)
    requires Forbids(t.fate, post) && post != Some(DeadlineExceeded)
    requires stop.Stopped? ==> stop.code != DeadlineExceeded
    ensures Forbids(TrackAfterMiss(t, stop).fate, Prefer(Some(DeadlineExceeded), Prefer(CodeOf(stop), post)))
    ensures Prefer(Some(DeadlineExceeded), Prefer(CodeOf(stop), post)).value != ExternalStopRequested
  {
  }

  class SupervisorSession {
    const supervisor: EV3Supervisor
    const protocol: SupervisorProtocol
    const intervalMs: nat
    const maxLatenessMs: nat
    const maximumRequests: nat

    var nextTickMs: int
    var stopRequested: bool
    var requestBound: bool
    var preverified: bool

    var urgent: seq<Item>
    var normal: seq<Item>
    var requestCount: nat
    var seenRequests: set<nat>
    var shutdown: bool
    /** Identifies the item in flight, as object identity does in the source. */
    var dispatchCount: nat

    ghost var events: seq<Event>
    ghost var track: Track
    ghost var wakes: seq<Wake>
    /** Exceptions that end the loop. */
    ghost var failures: nat
    /** Deadlines found missed; each latched a fault. */
    ghost var misses: nat
    /** Time this pass has spent in verified request-bound stops. */
    ghost var stopMs: int
    /** The clock reading before the last emergency stop. */
    ghost var stopBeganMs: int

    ghost predicate Valid()
      reads this, protocol, supervisor, supervisor.owner
    {
      && Governed()
      && Logged() && track.count == dispatchCount
      && (preverified ==> track.proof)
      && (requestBound ==> stopRequested)
      && |urgent| <= URGENT_QUEUE_SIZE && |normal| <= NORMAL_QUEUE_SIZE
    }

    /** Every event so far was permitted, and `track` summarises them. */
    ghost predicate Logged()
      reads `events, `track
    {
      Accepted(events) && track == TrackOf(events)
    }

    // ---------------------------------------------------------- reader thread

    method RequestEmergencyStop()
      modifies `stopRequested
      ensures stopRequested
    {
      stopRequested := true;
    }

    method FailTransport()
      modifies `stopRequested, `shutdown
      ensures stopRequested && shutdown
    {
      RequestEmergencyStop();
      shutdown := true;
    }

    method EnqueueProtocolError() returns (queued: bool)
      modifies `normal, `stopRequested, `shutdown
      ensures queued <==> |old(normal)| < NORMAL_QUEUE_SIZE
      ensures queued ==> normal == old(normal) + [Item(None)] && unchanged(`stopRequested) && unchanged(`shutdown)
      ensures !queued ==> normal == old(normal) && stopRequested && shutdown
    {
      if |normal| >= NORMAL_QUEUE_SIZE {
        FailTransport();
        return false;
      }
      normal := normal + [Item(None)];
      return true;
    }

    /** Stop requests for this controller overtake all others, and raise the
        emergency stop in the same locked step that queues them. */
    method EnqueueRequest(request: Request) returns (accepted: bool)
      requires |urgent| <= URGENT_QUEUE_SIZE && |normal| <= NORMAL_QUEUE_SIZE
      modifies `urgent, `normal, `requestCount, `seenRequests, `stopRequested, `requestBound, `shutdown
      ensures requestCount == old(requestCount) + 1
      ensures |urgent| <= URGENT_QUEUE_SIZE && |normal| <= NORMAL_QUEUE_SIZE
      ensures var stop := request.ours && (request.operation == OpStop || request.operation == OpShutdown);
        var counted := requestCount <= maximumRequests;
        var first := counted && request.id !in old(seenRequests);
        && seenRequests == old(seenRequests) + (if counted then {request.id} else {})
        && (accepted <==> counted && if first && stop then |old(urgent)| < 4 else |old(normal)| < 8)
        && urgent == old(urgent) + (if accepted && first && stop then [Item(Some(request))] else [])
        && normal == old(normal)
           + (if !accepted || (first && stop) then [] else [Item(if first then Some(request) else None)])
        && (stopRequested <==> old(stopRequested) || !accepted || (first && stop))
        && (requestBound <==> old(requestBound) || (accepted && first && stop))
        && (shutdown <==> old(shutdown) || !accepted)
    {
      requestCount := requestCount + 1;
      if requestCount > maximumRequests {
        FailTransport();
        return false;
      }
      if request.id in seenRequests {
        assert seenRequests == seenRequests + {request.id};
        accepted := EnqueueProtocolError();
        return;
      }
      seenRequests := seenRequests + {request.id};
      if request.IsStop() && request.ours {
        if |urgent| >= URGENT_QUEUE_SIZE {
          FailTransport();
          return false;
        }
        urgent := urgent + [Item(Some(request))];
        stopRequested, requestBound := true, true;
      } else {
        if |normal| >= NORMAL_QUEUE_SIZE {
          FailTransport();
          return false;
        }
        normal := normal + [Item(Some(request))];
      }
      return true;
    }

    /** Anything the reader may do between two steps of the loop. */
    method ReaderSteps()
      requires |urgent| <= URGENT_QUEUE_SIZE && |normal| <= NORMAL_QUEUE_SIZE && (requestBound ==> stopRequested)
      modifies `urgent, `normal, `requestCount, `seenRequests, `stopRequested, `requestBound, `shutdown
      ensures |urgent| <= URGENT_QUEUE_SIZE && |normal| <= NORMAL_QUEUE_SIZE && (requestBound ==> stopRequested)
      ensures (old(stopRequested) ==> stopRequested) && (old(shutdown) ==> shutdown)
      ensures old(urgent) <= urgent && old(normal) <= normal
      ensures requestBound ==> old(requestBound) || |urgent| > |old(urgent)|
    {
      var steps: nat :| true;
      for i := 0 to steps
        invariant |urgent| <= URGENT_QUEUE_SIZE && |normal| <= NORMAL_QUEUE_SIZE && (requestBound ==> stopRequested)
        invariant (old(stopRequested) ==> stopRequested) && (old(shutdown) ==> shutdown)
        invariant old(urgent) <= urgent && old(normal) <= normal
        invariant requestBound ==> old(requestBound) || |urgent| > |old(urgent)|
      {
        var request: Request := *;
        var kind: int := *;
        if kind == 0 {
          FailTransport();
        } else if kind == 1 {
          var queued := EnqueueProtocolError();
        } else {
          var accepted := EnqueueRequest(request);
        }
      }
    }

    // ----------------------------------------------------------- loop thread

    /** No item is left waiting for its response, or the transport has failed. */
    ghost predicate Answered()
      reads `track, `shutdown
    {
      track.pending.None? || shutdown
    }

    /** What no step of a pass undoes; at most `taken` items leave the queues. */
    twostate predicate Keeps(taken: nat)
      reads this, supervisor
    {
      && (old(shutdown) ==> shutdown)
      && old(supervisor.polls) <= supervisor.polls && old(supervisor.mishaps) <= supervisor.mishaps
      && old(dispatchCount) <= dispatchCount <= old(dispatchCount) + taken
      && wakes == old(wakes) && old(misses) <= misses && old(failures) <= failures
    }

    ghost method Fail()
      modifies `failures
      ensures failures == old(failures) + 1
    {
      failures := failures + 1;
    }

    ghost method Record(e: Event)
      requires Logged() && Permitted(track, e)
      modifies `events, `track
      ensures Logged() && events == old(events) + [e] && track == After(old(track), e)
    {
      Extend(events, e);
      events, track := events + [e], After(track, e);
    }

    /** Perform a requested emergency stop. A verified stop that a queued request
        asked for shifts the deadline by exactly the time it took. */
    method PerformStop() returns (r: StopOutcome)
      requires Valid()
      modifies `urgent, `normal, `requestCount, `seenRequests, `shutdown
      modifies `stopRequested, `requestBound, `preverified, `nextTickMs, `events, `track, `stopMs, `stopBeganMs, `failures
      modifies supervisor, supervisor.owner`active, supervisor.owner`moving, supervisor.owner`tally
      ensures Valid() && Keeps(0)
      ensures old(stopRequested) ==> r != NoStop
      ensures supervisor.owner.moving ==> old(supervisor.owner.moving)
      ensures nextTickMs - stopMs == old(nextTickMs - stopMs)
      ensures r == StopThrew <==> failures > old(failures)
      ensures r == NoStop ==> track == old(track) && preverified == old(preverified)
      ensures nextTickMs != old(nextTickMs) ==> r == Stopped(ExternalStopRequested, true)
      ensures r == Stopped(ExternalStopRequested, true) ==>
        supervisor.lastPollMs.Some? && nextTickMs == old(nextTickMs) + supervisor.lastPollMs.value - stopBeganMs
      ensures r.Stopped? && r.bound ==> old(requestBound) || |urgent| > |old(urgent)|
      ensures track.successes == old(track).successes
      ensures r.Stopped? ==> r.code != DeadlineExceeded
      ensures r.Stopped? ==> track == After(old(track), StopRan(r.code == ExternalStopRequested))
      ensures r.Stopped? && !supervisor.owner.closed ==> supervisor.owner.tally.stops > old(supervisor.owner.tally.stops)
      ensures r == StopThrew || CodeOf(r) == Some(StopNotConfirmed) ==> supervisor.mishaps > old(supervisor.mishaps)
    {
      var requested, bound := TakeStopRequest();
      if !requested {
        return NoStop;
      }
      r := StopNow(bound);
    }

    /** The reader may act right up to the moment the request is taken. */
    method TakeStopRequest() returns (requested: bool, bound: bool)
      requires Valid()
      modifies `urgent, `normal, `requestCount, `seenRequests, `stopRequested, `requestBound, `shutdown
      ensures Valid() && Keeps(0)
      ensures old(stopRequested) ==> requested
      ensures requested ==> !stopRequested && !requestBound
      ensures bound ==> old(requestBound) || |urgent| > |old(urgent)|
    {
      ReaderSteps();
      requested, bound := stopRequested, requestBound;
      stopRequested, requestBound := false, false;
    }

    method StopNow(bound: bool) returns (r: StopOutcome)
      requires Valid()
      modifies `preverified, `nextTickMs, `events, `track, `stopMs, `stopBeganMs, `failures
      modifies supervisor, supervisor.owner`active, supervisor.owner`moving, supervisor.owner`tally
      ensures Valid() && r != NoStop && Keeps(0)
      ensures r == StopThrew <==> failures > old(failures)
      ensures supervisor.owner.moving ==> old(supervisor.owner.moving)
      ensures nextTickMs - stopMs == old(nextTickMs - stopMs)
      ensures nextTickMs != old(nextTickMs) ==> r == Stopped(ExternalStopRequested, true)
      ensures r == Stopped(ExternalStopRequested, true) ==>
        supervisor.lastPollMs.Some? && nextTickMs == old(nextTickMs) + supervisor.lastPollMs.value - stopBeganMs
      ensures r.Stopped? ==> r.bound == bound
      ensures track.successes == old(track).successes
      ensures r.Stopped? ==> r.code != DeadlineExceeded
      ensures r.Stopped? ==> track == After(old(track), StopRan(r.code == ExternalStopRequested))
      ensures r.Stopped? && !supervisor.owner.closed ==> supervisor.owner.tally.stops > old(supervisor.owner.tally.stops)
      ensures supervisor.mishaps >= old(supervisor.mishaps)
      ensures r == StopThrew || CodeOf(r) == Some(StopNotConfirmed) ==> supervisor.mishaps > old(supervisor.mishaps)
    {
      var ran, verified, durationMs := TimedStop();
      if !ran {
        Fail();
        return StopThrew;
      }
      r := NoteStop(bound, verified, durationMs);
    }

    /** Record a stop that ran; only a verified one leaves a proof behind. */
    method NoteStop(bound: bool, verified: bool, durationMs: Option<int>) returns (r: StopOutcome)
      requires Valid()
      modifies `preverified, `nextTickMs, `events, `track, `stopMs, `failures
      ensures Valid() && r != NoStop && track == After(old(track), StopRan(verified))
      ensures failures == old(failures) + if r == StopThrew then 1 else 0
      ensures nextTickMs - stopMs == old(nextTickMs - stopMs)
      ensures nextTickMs == old(nextTickMs)
        + if r == Stopped(ExternalStopRequested, true) && durationMs.Some? then durationMs.value else 0
      ensures r.Stopped? ==> r.bound == bound
      ensures track.successes == old(track).successes
      ensures r == if durationMs.None? then StopThrew
                   else Stopped(if verified then ExternalStopRequested else StopNotConfirmed, bound)
    {
      if durationMs.None? {
        Fail();
      }
      preverified := verified && durationMs.Some?;
      Record(StopRan(verified));
      if preverified && bound {
        nextTickMs, stopMs := nextTickMs + durationMs.value, stopMs + durationMs.value;
      }
      return if durationMs.None? then StopThrew
             else Stopped(if verified then ExternalStopRequested else StopNotConfirmed, bound);
    }

    /** Stop, and say whether the status afterwards proves it. */
    method StopAndVerify() returns (returned: bool, verified: bool)
      requires Governed()
      modifies supervisor, supervisor.owner`active, supervisor.owner`moving, supervisor.owner`tally
      ensures Governed() && supervisor.polls == old(supervisor.polls)
      ensures supervisor.lastPollMs == old(supervisor.lastPollMs)
      ensures supervisor.owner.moving ==> old(supervisor.owner.moving)
      ensures verified <==> returned && supervisor.ProvesVerifiedStop()
      ensures verified ==> !supervisor.owner.moving
      ensures !supervisor.owner.closed ==> supervisor.owner.tally.stops > old(supervisor.owner.tally.stops)
      ensures supervisor.mishaps >= old(supervisor.mishaps) && (!verified ==> supervisor.mishaps > old(supervisor.mishaps))
    {
      var outcome := supervisor.Stop();
      returned := outcome.Done?;
      verified := returned && supervisor.ProvesVerifiedStop();
      if verified {
        supervisor.VerifiedStopIsAtRest();
      }
    }

    /** Stop the supervisor between two clock readings; no duration is an
        exception, before or after the stop ran. */
    method TimedStop() returns (ran: bool, verified: bool, durationMs: Option<int>)
      requires Governed()
      modifies `stopBeganMs, supervisor, supervisor.owner`active, supervisor.owner`moving, supervisor.owner`tally
      ensures Governed() && supervisor.polls == old(supervisor.polls)
      ensures supervisor.owner.moving ==> old(supervisor.owner.moving)
      ensures durationMs.Some? ==> ran && durationMs.value >= 0 && supervisor.lastPollMs.Some?
      ensures durationMs.Some? && old(supervisor.lastPollMs).Some? ==>
        durationMs.value <= supervisor.lastPollMs.value - old(supervisor.lastPollMs).value
      ensures verified ==> ran && supervisor.ProvesVerifiedStop() && !supervisor.owner.moving
      ensures durationMs.Some? && !verified ==> !supervisor.ProvesVerifiedStop()
      ensures durationMs.Some? ==> durationMs.value == supervisor.lastPollMs.value - stopBeganMs
      ensures ran && !supervisor.owner.closed ==> supervisor.owner.tally.stops > old(supervisor.owner.tally.stops)
      ensures supervisor.mishaps >= old(supervisor.mishaps) && (durationMs.None? || !verified ==> supervisor.mishaps > old(supervisor.mishaps))
    {
      var started := supervisor.CheckedNow();
      if started.None? {
        return false, false, None;
      }
      stopBeganMs := started.value;
      var returned;
      returned, verified := StopAndVerify();
      if !returned {
        return true, false, None;
      }
      var completed := supervisor.CheckedNow();
      return true, verified, if completed.Some? then Some(completed.value - started.value) else None;
    }

    ghost predicate Governed()
      reads this, protocol, supervisor, supervisor.owner
    {
      protocol.supervisor == supervisor && protocol.Valid()
    }

    /** The loop's epoch is the supervisor's last safety check. */
    constructor (supervisor: EV3Supervisor, protocol: SupervisorProtocol, intervalMs: nat, maxLatenessMs: nat,
                 maximumRequests: nat)
      requires protocol.supervisor == supervisor && protocol.Valid()
      ensures Valid() && events == [] && wakes == []
      ensures this.supervisor == supervisor && this.protocol == protocol && this.intervalMs == intervalMs
      ensures this.maxLatenessMs == maxLatenessMs && this.maximumRequests == maximumRequests
      ensures supervisor.lastPollMs.Some? ==> nextTickMs == supervisor.lastPollMs.value
      ensures !stopRequested && !requestBound && !preverified && !shutdown
      ensures urgent == normal == [] && requestCount == 0 && seenRequests == {}
    {
      this.supervisor, this.protocol := supervisor, protocol;
      this.intervalMs, this.maxLatenessMs, this.maximumRequests := intervalMs, maxLatenessMs, maximumRequests;
      var now: int := *;
      nextTickMs := if supervisor.lastPollMs.Some? then supervisor.lastPollMs.value else now;
      stopRequested, requestBound, preverified, shutdown := false, false, false, false;
      urgent, normal, requestCount, seenRequests, dispatchCount := [], [], 0, {}, 0;
      events, track, wakes, misses, stopMs, failures, stopBeganMs := [], TrackOf([]), [], 0, 0, 0, 0;
    }

    /** The prepared response belongs to the item in flight; a prepared success of
        a stop request found the motors at rest. */
    ghost predicate InFlight(c: Option<Completion>)
      reads this, supervisor, supervisor.owner
    {
      c.Some? ==>
        && track.pending.Some? && track.pending.value.serial == c.value.serial
        && track.pending.value.stopRequest == c.value.stopRequest
        && (c.value.success <==> track.answer == Some(Ok)) && track.answer != Some(Crashed)
        && (c.value.shutdown <==> track.pending.value.ends && c.value.success)
        && (c.value.success && c.value.stopRequest ==> !supervisor.owner.moving)
    }

    ghost predicate Reflects(post: Option<ErrorCode>)
      reads `track
    {
      Forbids(track.fate, post)
    }

    method TakeItem() returns (item: Option<Item>)
      requires |urgent| <= URGENT_QUEUE_SIZE && |normal| <= NORMAL_QUEUE_SIZE
      modifies `urgent, `normal
      ensures |urgent| <= URGENT_QUEUE_SIZE && |normal| <= NORMAL_QUEUE_SIZE
      ensures old(urgent) != [] ==> item == Some(old(urgent)[0]) && urgent == old(urgent)[1..] && normal == old(normal)
      ensures old(urgent) == [] && old(normal) != [] ==>
        item == Some(old(normal)[0]) && normal == old(normal)[1..] && urgent == []
      ensures old(urgent) == [] && old(normal) == [] ==> item.None? && urgent == [] && normal == []
    {
      if urgent != [] {
        item := Some(urgent[0]);
        urgent := urgent[1..];
      } else if normal != [] {
        item := Some(normal[0]);
        normal := normal[1..];
      } else {
        item := None;
      }
    }

    /** Consume the cached stop proof; it must still hold of the supervisor now. */
    method TakeProof() returns (proved: bool)
      requires Valid()
      modifies `preverified
      ensures Valid() && !preverified
      ensures proved ==> track.proof && !supervisor.owner.moving
    {
      proved := preverified && supervisor.ProvesVerifiedStop();
      preverified := false;
      if proved {
        supervisor.VerifiedStopIsAtRest();
      }
    }

    /** Execute a request; nothing cached survives it, and the trace says whether the
        call returned. */
    method ExecuteRequest(request: Request) returns (reply: Reply)
      requires Valid() && track.pending.Some? && track.answer.None?
      modifies `preverified, `events, `track, protocol, supervisor
      modifies supervisor.owner`active, supervisor.owner`moving, supervisor.owner`tally
      ensures Valid() && Keeps(0) && !preverified && events == old(events) + [Executed(AnswerOf(reply))]
      ensures track == After(old(track), Executed(AnswerOf(reply)))
      ensures reply == Success ==> request.ours
      ensures reply == Success ==> protocol.Effect(request.operation)
      ensures reply == Success && (request.operation.OpDriveTimed? || request.operation.OpDrivePulse?) ==>
        supervisor.state == SupervisorView.Running && supervisor.activeCommand == Some(request.operation.ticket.command)
      ensures reply == Success && request.IsStop() ==> !supervisor.owner.moving
    {
      preverified := false;
      var now: int := *;
      reply := protocol.Execute(request, now);
      Record(Executed(AnswerOf(reply)));
    }

    /** Answer one item: from the stop proof, or by executing it. A rejected frame is
        neither. The answer is a success exactly when the trace says so. */
    method Answer(item: Item) returns (reply: Reply)
      requires Valid() && track.pending.Some? && track.answer.None?
      requires track.pending.value.stopRequest == item.IsStop()
      modifies `preverified, `events, `track, protocol, supervisor
      modifies supervisor.owner`active, supervisor.owner`moving, supervisor.owner`tally
      ensures Valid() && Keeps(0) && !preverified
      ensures item.request.None? ==> reply == Error && events == old(events)
      ensures item.request.Some? ==>
        || events == old(events) + [Executed(AnswerOf(reply))]
        || (events == old(events) + [ProofUsed] && reply == Success && item.IsStop() && item.request.value.ours)
      ensures track == old(track).(proof := track.proof, answer := track.answer)
      ensures reply == Success <==> track.answer == Some(Ok)
      ensures reply == Success && item.IsStop() ==> !supervisor.owner.moving
    {
      if item.request.None? {
        preverified := false;
        return Error;
      }
      if item.IsStop() && item.request.value.ours {
        var proved := TakeProof();
        if proved {
          Record(ProofUsed);
          return Success;
        }
      }
      reply := ExecuteRequest(item.request.value);
    }

    /** The reader may act right up to the moment an item is taken. */
    method NextItem() returns (item: Option<Item>)
      requires |urgent| <= URGENT_QUEUE_SIZE && |normal| <= NORMAL_QUEUE_SIZE && (requestBound ==> stopRequested)
      modifies `urgent, `normal, `requestCount, `seenRequests, `stopRequested, `requestBound, `shutdown
      ensures |urgent| <= URGENT_QUEUE_SIZE && |normal| <= NORMAL_QUEUE_SIZE && (requestBound ==> stopRequested)
      ensures old(shutdown) ==> shutdown
    {
      ReaderSteps();
      item := TakeItem();
    }

    /** Take at most one item and prepare its response. */
    method Dispatch() returns (c: Option<Completion>, threw: bool)
      requires Valid()
      modifies this, protocol, supervisor, supervisor.owner`active, supervisor.owner`moving, supervisor.owner`tally
      ensures Valid() && InFlight(c) && Keeps(1) && !preverified
      ensures c.None? && !threw && old(Answered()) ==> Answered()
      ensures threw <==> failures > old(failures)
      ensures threw ==> track.pending.Some? && track.answer == Some(Crashed) && c.None?
      ensures nextTickMs == old(nextTickMs) && stopMs == old(stopMs)
      ensures c.Some? ==> track.fate == Fate(false, false, false, false)
    {
      var item := NextItem();
      if item.None? {
        preverified := false;
        return None, false;
      }
      c, threw := DispatchItem(item.value);
    }

    /** The trace says whether the item is a stop request and whether it asks for the
        shutdown. */
    method BeginDispatch(item: Item) returns (serial: nat)
      requires Valid()
      modifies `events, `track, `dispatchCount
      ensures Valid() && serial == old(dispatchCount) && dispatchCount == serial + 1
      ensures var stop := item.request.Some?
          && (item.request.value.operation == OpStop || item.request.value.operation == OpShutdown);
        var e := Dispatched(serial, stop, item.request.Some? && item.request.value.operation == OpShutdown);
        events == old(events) + [e] && track == After(old(track), e)
    {
      serial := dispatchCount;
      Record(Dispatched(serial, item.IsStop(), item.IsShutdown()));
      dispatchCount := dispatchCount + 1;
    }

    method DispatchItem(item: Item) returns (c: Option<Completion>, threw: bool)
      requires Valid()
      modifies `preverified, `events, `track, `dispatchCount, `stopRequested, `shutdown, `failures
      modifies protocol, supervisor, supervisor.owner`active, supervisor.owner`moving, supervisor.owner`tally
      ensures Valid() && InFlight(c) && Keeps(1) && !preverified
      ensures c.None? && !threw ==> shutdown
      ensures threw <==> failures > old(failures)
      ensures threw <==> track.answer == Some(Crashed)
      ensures threw ==> track.pending.Some? && c.None? && supervisor.state == SupervisorView.FaultLatched
      ensures c.Some? ==> track.fate == Fate(false, false, false, false)
    {
      var serial := BeginDispatch(item);
      var reply := Answer(item);
      var encoded: bool := *;
      if reply != Crash && encoded {
        return Some(Prepare(item, serial, reply)), false;
      }
      threw := FailDispatch(reply == Crash);
      return None, threw;
    }

    /** An exception latches a fault and ends the loop; a response that cannot be
        encoded fails the transport. */
    method FailDispatch(crashed: bool) returns (threw: bool)
      requires Valid()
      modifies `stopRequested, `shutdown, `failures, supervisor
      modifies supervisor.owner`active, supervisor.owner`moving, supervisor.owner`tally
      ensures Valid() && threw == crashed && Keeps(0) && (!crashed ==> shutdown)
      ensures threw <==> failures > old(failures)
      ensures crashed ==> supervisor.state == SupervisorView.FaultLatched
    {
      if crashed {
        Fail();
        supervisor.EnterFault(OtherCode, None, true);
      } else {
        FailTransport();
      }
      return crashed;
    }

    static function Prepare(item: Item, serial: nat, reply: Reply): Completion {
      Completion(serial, item.IsStop(), reply == Success && item.IsShutdown(), reply == Success)
    }

    /** A stop around a dispatch is no proof for the next request. */
    method PerformStopUnproved() returns (r: StopOutcome)
      requires Valid()
      modifies `urgent, `normal, `requestCount, `seenRequests, `shutdown
      modifies `stopRequested, `requestBound, `preverified, `nextTickMs, `events, `track, `stopMs, `stopBeganMs, `failures
      modifies supervisor, supervisor.owner`active, supervisor.owner`moving, supervisor.owner`tally
      ensures Valid() && Keeps(0)
      ensures supervisor.owner.moving ==> old(supervisor.owner.moving)
      ensures nextTickMs - stopMs == old(nextTickMs - stopMs)
      ensures r == StopThrew <==> failures > old(failures)
      ensures r == NoStop ==> track == old(track)
      ensures !old(preverified) && r != StopThrew ==> !preverified
      ensures r.Stopped? ==> r.code != DeadlineExceeded
      ensures r.Stopped? ==> track == After(old(track), StopRan(r.code == ExternalStopRequested))
      ensures track.successes == old(track).successes
      ensures r == StopThrew || CodeOf(r) == Some(StopNotConfirmed) ==> supervisor.mishaps > old(supervisor.mishaps)
    {
      r := PerformStop();
      if r.Stopped? {
        preverified := false;
      }
    }

    method DispatchOne() returns (c: Option<Completion>, post: Option<ErrorCode>, threw: bool)
      requires Valid()
      modifies this, protocol, supervisor, supervisor.owner`active, supervisor.owner`moving, supervisor.owner`tally
      ensures Valid() && Keeps(1)
      ensures c.None? && !threw && old(Answered()) ==> Answered()
      ensures !threw ==> InFlight(c) && (c.Some? ==> Reflects(post))
      ensures (threw <==> failures > old(failures)) && (!threw ==> !preverified)
      ensures !threw && c.Some? ==> (c.value.success <==> track.answer == Some(Ok))
      ensures post != Some(DeadlineExceeded)
      ensures nextTickMs - stopMs == old(nextTickMs - stopMs)
      ensures threw ==> supervisor.mishaps > old(supervisor.mishaps) || track.answer == Some(Crashed)
    {
      c, threw := Dispatch();
      if threw {
        return None, None, true;
      }
      var stop := PerformStopUnproved();
      return c, CodeOf(stop), stop == StopThrew;
    }

    /** The invalidation that `post` demands of a prepared response, if any. */
    static function Blocking(c: Completion, post: Option<ErrorCode>): Option<ErrorCode> {
      if post == Some(ExternalStopRequested) && c.stopRequest then None else post
    }

    /** A prepared success survives what happened since its dispatch when nothing
        did, or when it answers a stop request and every stop was verified: a
        verified stop later than a missed deadline then hides it. */
    static lemma PreparedSurvives(c: Completion, later: Option<ErrorCode>, earlier: Option<ErrorCode>)
      ensures Blocking(c, Prefer(later, earlier)).None? <==>
        || (later.None? && earlier.None?)
        || (c.stopRequest && earlier != Some(StopNotConfirmed)
            && (later == Some(ExternalStopRequested) || (later.None? && earlier == Some(ExternalStopRequested))))
      ensures Blocking(c, Prefer(Some(ExternalStopRequested), Some(DeadlineExceeded))).None? <==> c.stopRequest
    {
    }

    /** The choice between success and invalidation is the one the trace calls for. */
    static lemma ChoiceIsPermitted(stopRequest: bool, answer: Option<Answer>, fate: Fate, post: Option<ErrorCode>,
                                   atRest: bool)
      requires Forbids(fate, post) && (answer == Some(Ok) && stopRequest ==> atRest) && answer != Some(Crashed)
      ensures MayPublish(stopRequest, answer, fate,
        answer == Some(Ok) && (post.None? || (post == Some(ExternalStopRequested) && stopRequest)), atRest)
    {
      if post.Some? {
        match post.value {
          case ExternalStopRequested =>
          case DeadlineExceeded =>
          case StopNotConfirmed =>
        }
      }
    }

    /** Queue the one response of a dispatched item, choosing between the prepared
        success and its invalidation; a full queue fails the transport. */
    method Publish(c: Completion, post: Option<ErrorCode>)
      requires Valid() && InFlight(Some(c)) && Reflects(post)
      modifies `events, `track, `stopRequested, `shutdown
      ensures Valid() && Answered() && (old(shutdown) ==> shutdown)
      ensures events == old(events) ==> shutdown && stopRequested
      ensures events != old(events) ==>
        var item := old(track).pending.value;
        var success := old(track).answer == Some(Ok)
          && (post.None? || (post == Some(ExternalStopRequested) && item.stopRequest));
        && events == old(events) + [Published(c.serial, success, !supervisor.owner.moving)]
        && (success && item.ends ==> shutdown)
        && (!(success && item.ends) ==> shutdown == old(shutdown))
      ensures post.Some? ==> track.successes == old(track).successes
    {
      var success := c.success && Blocking(c, post).None?;
      var room: bool := *;
      if !room {
        FailTransport();
        return;
      }
      ChoiceIsPermitted(track.pending.value.stopRequest, track.answer, track.fate, post, !supervisor.owner.moving);
      if c.shutdown && success {
        shutdown := true;
      }
      Record(Published(c.serial, success, !supervisor.owner.moving));
    }

    method CompleteDispatch(c: Option<Completion>, post: Option<ErrorCode>) returns (threw: bool)
      requires Valid() && InFlight(c) && (c.Some? ==> Reflects(post))
      modifies this, protocol, supervisor, supervisor.owner`active, supervisor.owner`moving, supervisor.owner`tally
      ensures Valid() && Keeps(0)
      ensures !threw && (c.Some? || old(Answered())) ==> Answered()
      ensures nextTickMs - stopMs == old(nextTickMs - stopMs)
      ensures c.None? || post.Some? ==> track.successes == old(track).successes
      ensures threw <==> failures > old(failures)
      ensures threw ==> supervisor.mishaps > old(supervisor.mishaps)
    {
      var stop := PerformStopUnproved();
      if stop == StopThrew || c.None? {
        return stop == StopThrew;
      }
      Publish(c.value, Prefer(CodeOf(stop), post));
      threw := Settle();
    }

    /** A stop that arrives after the response is queued no longer changes it, but
        ends the loop when it cannot be verified. */
    method Settle() returns (threw: bool)
      requires Valid()
      modifies this, protocol, supervisor, supervisor.owner`active, supervisor.owner`moving, supervisor.owner`tally
      ensures Valid() && Keeps(0) && (!threw && old(Answered()) ==> Answered())
      ensures nextTickMs - stopMs == old(nextTickMs - stopMs)
      ensures track.successes == old(track).successes
      ensures (threw <==> failures > old(failures)) && !preverified
      ensures threw ==> supervisor.mishaps > old(supervisor.mishaps)
    {
      var late := PerformStop();
      preverified := false;
      if CodeOf(late) == Some(StopNotConfirmed) {
        Fail();
      }
      return late == StopThrew || CodeOf(late) == Some(StopNotConfirmed);
    }

    /** The clock just showed a time beyond the deadline's lateness budget. */
    predicate OverrunAt(nowMs: int)
      reads this, supervisor
    {
      supervisor.lastPollMs == Some(nowMs) && nowMs - nextTickMs > maxLatenessMs
    }

    method LatchMiss()
      requires Governed()
      modifies supervisor, supervisor.owner`active, supervisor.owner`moving, supervisor.owner`tally
      ensures Governed() && supervisor.polls == old(supervisor.polls)
      ensures supervisor.state == SupervisorView.FaultLatched
      ensures supervisor.owner.moving ==> old(supervisor.owner.moving)
      ensures supervisor.mishaps == old(supervisor.mishaps)
    {
      supervisor.EnterFault(PollDeadlineMissed, None, true);
    }

    /** A missed deadline latches a fault and starts a new schedule. */
    method MissDeadline(nowMs: int)
      requires Valid() && OverrunAt(nowMs)
      modifies `nextTickMs, `events, `track, `misses, supervisor
      modifies supervisor.owner`active, supervisor.owner`moving, supervisor.owner`tally
      ensures misses == old(misses) + 1 && failures == old(failures) && nextTickMs == nowMs + intervalMs
      ensures Valid() && Keeps(0) && supervisor.state == SupervisorView.FaultLatched
      ensures track == After(old(track), DeadlineMissed)
      ensures supervisor.owner.moving ==> old(supervisor.owner.moving)
    {
      LatchMiss();
      misses := misses + 1;
      nextTickMs := nowMs + intervalMs;
      Record(DeadlineMissed);
    }

    /** Fault first, then give a requested stop its chance. */
    method MissAndStop(nowMs: int) returns (stop: StopOutcome)
      requires Valid() && OverrunAt(nowMs)
      modifies this, supervisor, supervisor.owner`active, supervisor.owner`moving, supervisor.owner`tally
      ensures misses > old(misses)
      ensures stop == StopThrew <==> failures > old(failures)
      ensures Valid() && Keeps(0) && (stop != StopThrew && old(Answered()) ==> Answered())
      ensures supervisor.owner.moving ==> old(supervisor.owner.moving)
      ensures stop.Stopped? ==> stop.code != DeadlineExceeded
      ensures stop != StopThrew ==> track == TrackAfterMiss(old(track), stop)
      ensures track.successes == old(track).successes
      ensures stop == StopThrew || CodeOf(stop) == Some(StopNotConfirmed) ==> supervisor.mishaps > old(supervisor.mishaps)
    {
      MissDeadline(nowMs);
      stop := PerformStop();
    }

    /** Behind a fault service stays bounded without spinning. */
    method SleepAfterFault(nowMs: int)
      modifies `nextTickMs
      ensures nextTickMs == if old(nextTickMs) <= nowMs then nowMs + intervalMs else old(nextTickMs)
    {
      if nextTickMs - nowMs <= 0 {
        nextTickMs := nowMs + intervalMs;
      }
    }

    /** Late before or after the poll: fault first, then serve one item so that a
        stop or a diagnosis is not starved. */
    method ServeFaulted(nowMs: int) returns (threw: bool)
      requires Valid() && OverrunAt(nowMs)
      modifies this, protocol, supervisor, supervisor.owner`active, supervisor.owner`moving, supervisor.owner`tally
      ensures misses > old(misses)
      ensures threw <==> failures > old(failures)
      ensures Valid() && Keeps(1) && (!threw && old(Answered()) ==> Answered())
      ensures threw ==> supervisor.mishaps > old(supervisor.mishaps) || track.answer == Some(Crashed)
    {
      var stop := MissAndStop(nowMs);
      if stop == StopThrew {
        return true;
      }
      threw := ServeOne();
    }

    method ServeOne() returns (threw: bool)
      requires Valid()
      modifies this, protocol, supervisor, supervisor.owner`active, supervisor.owner`moving, supervisor.owner`tally
      ensures threw <==> failures > old(failures)
      ensures Valid() && Keeps(1) && (!threw && old(Answered()) ==> Answered())
      ensures threw ==> supervisor.mishaps > old(supervisor.mishaps) || track.answer == Some(Crashed)
    {
      var c, post, failed := DispatchOne();
      if failed {
        return true;
      }
      threw := CompleteAndSleep(c, post);
    }

    method CompleteAndSleep(c: Option<Completion>, post: Option<ErrorCode>) returns (threw: bool)
      requires Valid() && InFlight(c) && (c.Some? ==> Reflects(post))
      modifies this, protocol, supervisor, supervisor.owner`active, supervisor.owner`moving, supervisor.owner`tally
      ensures threw <==> failures > old(failures)
      ensures Valid() && Keeps(0)
      ensures !threw && (c.Some? || old(Answered())) ==> Answered()
      ensures c.None? || post.Some? ==> track.successes == old(track).successes
      ensures threw ==> supervisor.mishaps > old(supervisor.mishaps)
    {
      threw := CompleteDispatch(c, post);
      if !threw {
        var now: int := *;
        SleepAfterFault(now);
      }
    }

    /** The dispatch itself overran: its prepared success must not get out. */
    method InvalidateLate(c: Option<Completion>, post: Option<ErrorCode>, nowMs: int) returns (threw: bool)
      requires OverrunAt(nowMs)
      requires Valid() && InFlight(c) && (c.Some? ==> Reflects(post)) && post != Some(DeadlineExceeded)
      modifies this, protocol, supervisor, supervisor.owner`active, supervisor.owner`moving, supervisor.owner`tally
      ensures misses > old(misses)
      ensures threw <==> failures > old(failures)
      ensures Valid() && Keeps(0) && (!threw && (c.Some? || old(Answered())) ==> Answered())
      ensures track.successes == old(track).successes
      ensures threw ==> supervisor.mishaps > old(supervisor.mishaps)
    {
      var stop := MissAndStop(nowMs);
      if stop == StopThrew {
        return true;
      }
      if c.Some? {
        MissForbids(old(track), stop, post);
      }
      threw := CompleteAndSleep(c, Prefer(Some(DeadlineExceeded), Prefer(CodeOf(stop), post)));
    }

    /** The response was already queued when the deadline was found missed. */
    method FinishLate(nowMs: int) returns (threw: bool)
      requires Valid() && OverrunAt(nowMs)
      modifies this, protocol, supervisor, supervisor.owner`active, supervisor.owner`moving, supervisor.owner`tally
      ensures misses > old(misses)
      ensures threw <==> failures > old(failures)
      ensures Valid() && Keeps(0) && (!threw && old(Answered()) ==> Answered())
      ensures threw ==> supervisor.mishaps > old(supervisor.mishaps)
    {
      var stop := MissAndStop(nowMs);
      if CodeOf(stop) == Some(StopNotConfirmed) {
        Fail();
      }
      if stop == StopThrew || CodeOf(stop) == Some(StopNotConfirmed) {
        return true;
      }
      var now: int := *;
      SleepAfterFault(now);
      return false;
    }

    /** From the poll to the last deadline check of a pass. */
    method Serve() returns (threw: bool, onTime: bool)
      requires Valid()
      modifies this, protocol, supervisor, supervisor.owner`active, supervisor.owner`moving, supervisor.owner`tally
      ensures !threw && !onTime ==> misses > old(misses)
      ensures threw <==> failures > old(failures)
      ensures Valid() && Keeps(1) && (!threw && old(Answered()) ==> Answered())
      ensures !threw && onTime ==> InTime()
      ensures !threw && onTime ==> nextTickMs - stopMs == old(nextTickMs - stopMs)
      ensures threw ==> supervisor.mishaps > old(supervisor.mishaps) || track.answer == Some(Crashed)
    {
      var c, post, failed := DispatchOne();
      if failed {
        return true, false;
      }
      var now := ReadClock();
      if now.None? {
        return true, false;
      }
      if now.value - nextTickMs > maxLatenessMs {
        threw := InvalidateLate(c, post, now.value);
        return threw, false;
      }
      threw := CompleteInTime(c, post);
      if threw {
        return true, false;
      }
      threw, onTime := CloseOnTime();
    }

    /** The dispatch was on time, so its response goes out as it was prepared unless
        a stop intervened. */
    method CompleteInTime(c: Option<Completion>, post: Option<ErrorCode>) returns (threw: bool)
      requires Valid() && InFlight(c) && (c.Some? ==> Reflects(post)) && InTime()
      modifies this, protocol, supervisor, supervisor.owner`active, supervisor.owner`moving, supervisor.owner`tally
      ensures Valid() && Keeps(0)
      ensures !threw && (c.Some? || old(Answered())) ==> Answered()
      ensures nextTickMs - stopMs == old(nextTickMs - stopMs)
      ensures threw <==> failures > old(failures)
      ensures threw ==> supervisor.mishaps > old(supervisor.mishaps)
    {
      threw := CompleteDispatch(c, post);
    }

    /** The last clock reading was within the lateness budget of the deadline. */
    predicate InTime()
      reads this, supervisor
    {
      supervisor.lastPollMs.Some? && supervisor.lastPollMs.value <= nextTickMs + maxLatenessMs
    }

    method CloseOnTime() returns (threw: bool, onTime: bool)
      requires Valid()
      modifies this, protocol, supervisor, supervisor.owner`active, supervisor.owner`moving, supervisor.owner`tally
      ensures !threw && !onTime ==> misses > old(misses)
      ensures threw <==> failures > old(failures)
      ensures Valid() && Keeps(0) && (!threw && old(Answered()) ==> Answered())
      ensures !threw && onTime ==> InTime()
      ensures !threw && onTime ==> nextTickMs == old(nextTickMs) && stopMs == old(stopMs)
      ensures threw ==> supervisor.mishaps > old(supervisor.mishaps)
    {
      var now := ReadClock();
      if now.None? {
        return true, false;
      }
      if now.value - nextTickMs > maxLatenessMs {
        threw := FinishLate(now.value);
        return threw, false;
      }
      return false, true;
    }

    /** The safety poll between two chances to stop. */
    method Poll() returns (threw: bool)
      requires Valid()
      modifies this, protocol, supervisor, supervisor.owner`active, supervisor.owner`moving, supervisor.owner`tally
      ensures threw <==> failures > old(failures)
      ensures Valid() && Keeps(0) && (!threw && old(Answered()) ==> Answered())
      ensures !threw ==> supervisor.polls > old(supervisor.polls)
      ensures !threw ==> nextTickMs - stopMs == old(nextTickMs - stopMs) + intervalMs
      ensures threw ==> supervisor.mishaps > old(supervisor.mishaps)
    {
      var before := PerformStop();
      if before == StopThrew {
        return true;
      }
      threw := PollThenStop();
    }

    method PollAndAdvance()
      requires Valid()
      modifies `nextTickMs, supervisor, supervisor.owner`active, supervisor.owner`moving, supervisor.owner`tally
      ensures Valid() && nextTickMs == old(nextTickMs) + intervalMs
      ensures supervisor.polls == old(supervisor.polls) + 1
      ensures supervisor.mishaps >= old(supervisor.mishaps)
    {
      var polled := supervisor.PollOnce();
      nextTickMs := nextTickMs + intervalMs;
    }

    method PollThenStop() returns (threw: bool)
      requires Valid()
      modifies this, protocol, supervisor, supervisor.owner`active, supervisor.owner`moving, supervisor.owner`tally
      ensures threw <==> failures > old(failures)
      ensures Valid() && Keeps(0) && (!threw && old(Answered()) ==> Answered())
      ensures !threw ==> supervisor.polls > old(supervisor.polls)
      ensures !threw ==> nextTickMs - stopMs == old(nextTickMs - stopMs) + intervalMs
      ensures threw ==> supervisor.mishaps > old(supervisor.mishaps)
    {
      PollAndAdvance();
      var after := PerformStop();
      return after == StopThrew;
    }

    /** A clock that goes back is an exception. */
    method ReadClock() returns (now: Option<int>)
      requires Valid()
      modifies `failures, supervisor`clockMs, supervisor`lastPollMs, supervisor`mishaps
      ensures Valid() && (old(Answered()) ==> Answered())
      ensures failures == old(failures) + if now.None? then 1 else 0
      ensures now.Some? ==> supervisor.lastPollMs == now
      ensures now.None? ==> supervisor.lastPollMs.Some? && supervisor.clockMs < supervisor.lastPollMs.value
      ensures supervisor.mishaps == old(supervisor.mishaps) + if now.None? then 1 else 0
    {
      now := supervisor.CheckedNow();
      if now.None? {
        Fail();
      }
    }

    /** One pass of the loop with its five exits. */
    method RunOnce() returns (r: Exit)
      requires Valid()
      modifies this, protocol, supervisor, supervisor.owner`active, supervisor.owner`moving, supervisor.owner`tally
      ensures Valid()
      ensures dispatchCount <= old(dispatchCount) + 1
      ensures r == Returned && old(Answered()) ==> Answered()
      ensures r == Threw ==> wakes == old(wakes)
      ensures r == Threw <==> failures > old(failures)
      ensures r == Returned ==> |wakes| == |old(wakes)| + 1 && wakes[..|old(wakes)|] == old(wakes)
      ensures r == Returned ==>
        var wake := wakes[|wakes| - 1];
        && wake.tickMs == old(nextTickMs)
        && (wake.onTime ==>
              wake.atMs <= wake.tickMs + maxLatenessMs && nextTickMs == wake.tickMs + intervalMs + wake.stopMs)
        && (wake.onTime ==> InTime() && supervisor.polls > old(supervisor.polls))
        && (!wake.onTime ==> misses > old(misses))
      ensures r == Threw ==> supervisor.mishaps > old(supervisor.mishaps) || track.answer == Some(Crashed)
    {
      stopMs := 0;
      ghost var tick := nextTickMs;
      var now := ReadClock();
      if now.None? {
        return Threw;
      }
      var threw, onTime := Pass(now.value);
      if threw {
        return Threw;
      }
      wakes := wakes + [Wake(now.value, tick, stopMs, onTime)];
      return Returned;
    }

    method Pass(wokeMs: int) returns (threw: bool, onTime: bool)
      requires Valid() && stopMs == 0 && supervisor.lastPollMs == Some(wokeMs)
      modifies this, protocol, supervisor, supervisor.owner`active, supervisor.owner`moving, supervisor.owner`tally
      ensures !threw && !onTime ==> misses > old(misses)
      ensures threw <==> failures > old(failures)
      ensures Valid() && Keeps(1) && (!threw && old(Answered()) ==> Answered())
      ensures !threw && onTime ==> InTime() && supervisor.polls > old(supervisor.polls)
      ensures !threw && onTime ==>
        wokeMs <= old(nextTickMs) + maxLatenessMs && nextTickMs == old(nextTickMs) + intervalMs + stopMs
      ensures threw ==> supervisor.mishaps > old(supervisor.mishaps) || track.answer == Some(Crashed)
    {
      if wokeMs - nextTickMs > maxLatenessMs {
        threw := ServeFaulted(wokeMs);
        return threw, false;
      }
      threw := Poll();
      if threw {
        return true, false;
      }
      var now := ReadClock();
      if now.None? {
        return true, false;
      }
      if now.value - nextTickMs > maxLatenessMs {
        threw := ServeFaulted(now.value);
        return threw, false;
      }
      threw, onTime := Serve();
    }

    /** Run until shutdown is requested or a pass throws; then close. The wake-ups
        follow the absolute-deadline schedule, and a clean exit is a closed
        supervisor with the motors at rest. */
    method RunForever() returns (closed: bool)
      requires Valid() && wakes == []
      modifies this, protocol, supervisor, supervisor.owner
      ensures Accepted(events)
      ensures exists tick :: Scheduled(wakes, intervalMs, maxLatenessMs, tick)
      ensures supervisor.Valid()
      ensures closed ==> supervisor.closed && !supervisor.owner.moving
    {
      var passes: nat :| true;
      var exit := Returned;
      ghost var tick := nextTickMs;
      while passes > 0 && !shutdown && exit == Returned
        invariant Valid() && Scheduled(wakes, intervalMs, maxLatenessMs, tick)
        invariant exit == Returned ==> tick == nextTickMs
      {
        ghost var before := wakes;
        exit := RunOnce();
        if exit == Returned {
          assert wakes == before + [wakes[|wakes| - 1]];
          ScheduleGrows(before, intervalMs, maxLatenessMs, tick, wakes[|wakes| - 1], nextTickMs);
          tick := nextTickMs;
        }
        passes := passes - 1;
      }
      assert Logged();
      var outcome := supervisor.Close();
      closed := supervisor.state == SupervisorView.Closed;
    }
  }
}
