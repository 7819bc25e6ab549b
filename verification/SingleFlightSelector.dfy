/** The single-flight selector as an interleaving of any number of callers and
    workers (src/robot_agent/autonomy_selector.py).

    Each step is one critical section or one thread event of the source. A call is
    identified by the worker state created for it. */
module SingleFlightSelector {
  import opened Common

  datatype Produced = Bytes(value: int) | Failure

  /** A worker thread: running its selector, holding a result, having stored it,
      having signalled `done`, or gone. */
  datatype Worker = Selecting | Holding(result: Produced) | Stored(result: Produced) | Signalled(result: Produced) | Exited(result: Produced) {
    predicate Alive() {
      !Exited?
    }
  }

  datatype Call = Call(starter: nat, context: int, worker: Worker, done: bool, payload: Option<Produced>, discarded: bool)

  datatype Outcome = Completed(value: int) | Cancelled | DeadlineExpired | Failed | Busy

  datatype Caller =
    | Outside
    | Waiting(call: nat, context: int)
    | Clearing(call: nat, context: int)
    | Reading(call: nat, context: int)
    /** The call that was started for the outcome, if one was. */
    | Returned(outcome: Outcome, started: Option<nat>, context: int)
  {
    function Started(): Option<nat> {
      match this
      case Outside => None
      case Waiting(s, _) => Some(s)
      case Clearing(s, _) => Some(s)
      case Reading(s, _) => Some(s)
      case Returned(_, s, _) => s
    }
  }

  datatype State = State(calls: seq<Call>, active: Option<nat>, callers: seq<Caller>)

  datatype Step =
    /** Cancelled or expired before anything was started. */
    | Refuse(caller: nat, outcome: Outcome)
    | Start(caller: nat, context: int, launches: bool)
    | Select(call: nat, result: Produced)
    | Store(call: nat)
    | Signal(call: nat)
    | Exit(call: nat)
    | Discard(caller: nat, outcome: Outcome)
    | Observe(caller: nat)
    | Clear(caller: nat)
    | Read(caller: nat)
    | Again(caller: nat)
    /** The `busy` property forgets a worker that has exited. */
    | Probe

  predicate GivesUp(o: Outcome) {
    o == Cancelled || o == DeadlineExpired
  }

  predicate Enabled(s: State, e: Step) {
    match e
    case Refuse(c, o) => c < |s.callers| && s.callers[c].Outside? && GivesUp(o)
    case Start(c, _, _) => c < |s.callers| && s.callers[c].Outside?
    case Select(i, _) => i < |s.calls| && s.calls[i].worker.Selecting?
    case Store(i) => i < |s.calls| && s.calls[i].worker.Holding?
    case Signal(i) => i < |s.calls| && s.calls[i].worker.Stored?
    case Exit(i) => i < |s.calls| && s.calls[i].worker.Signalled?
    case Discard(c, o) => c < |s.callers| && s.callers[c].Waiting? && s.callers[c].call < |s.calls| && GivesUp(o)
    case Observe(c) => c < |s.callers| && s.callers[c].Waiting? && s.callers[c].call < |s.calls| && s.calls[s.callers[c].call].done
    case Clear(c) =>
      c < |s.callers| && s.callers[c].Clearing? && s.callers[c].call < |s.calls| && !s.calls[s.callers[c].call].worker.Alive()
    case Read(c) => c < |s.callers| && s.callers[c].Reading? && s.callers[c].call < |s.calls|
    case Again(c) => c < |s.callers| && s.callers[c].Returned?
    case Probe => true
  }

  predicate LiveActive(s: State) {
    s.active.Some? && s.active.value < |s.calls| && s.calls[s.active.value].worker.Alive()
  }

  /** `_SelectorCallState.outcome`. */
  function OutcomeOf(call: Call): Outcome {
    if call.discarded || call.payload.None? || call.payload.value.Failure? then Failed
    else Completed(call.payload.value.value)
  }

  function WithCall(s: State, i: nat, call: Call): State
    requires i < |s.calls|
  {
    s.(calls := s.calls[i := call])
  }

  function WithCaller(s: State, c: nat, caller: Caller): State
    requires c < |s.callers|
  {
    s.(callers := s.callers[c := caller])
  }

  function Next(s: State, e: Step): State
    requires Enabled(s, e)
  {
    match e
    case Refuse(c, o) => WithCaller(s, c, Returned(o, None, 0))
    case Start(c, context, launches) =>
      if LiveActive(s) then WithCaller(s, c, Returned(Busy, None, context))
      else if !launches then WithCaller(s.(active := None), c, Returned(Failed, None, context))
      else
        WithCaller(
          s.(calls := s.calls + [Call(c, context, Selecting, false, None, false)], active := Some(|s.calls|)),
          c, Waiting(|s.calls|, context))
    case Select(i, result) => WithCall(s, i, s.calls[i].(worker := Holding(result)))
    case Store(i) =>
      var call := s.calls[i];
      WithCall(s, i, call.(worker := Stored(call.worker.result),
                           payload := if call.discarded then call.payload else Some(call.worker.result)))
    case Signal(i) => WithCall(s, i, s.calls[i].(worker := Signalled(s.calls[i].worker.result), done := true))
    case Exit(i) => WithCall(s, i, s.calls[i].(worker := Exited(s.calls[i].worker.result)))
    case Discard(c, o) =>
      var i := s.callers[c].call;
      WithCaller(WithCall(s, i, s.calls[i].(discarded := true, payload := None)), c,
                 Returned(o, Some(i), s.callers[c].context))
    case Observe(c) => WithCaller(s, c, Clearing(s.callers[c].call, s.callers[c].context))
    case Clear(c) =>
      var i := s.callers[c].call;
      WithCaller(if s.active == Some(i) then s.(active := None) else s, c, Reading(i, s.callers[c].context))
    case Read(c) =>
      var i := s.callers[c].call;
      WithCaller(s, c, Returned(OutcomeOf(s.calls[i]), Some(i), s.callers[c].context))
    case Again(c) => WithCaller(s, c, Outside)
    case Probe => if LiveActive(s) then s else s.(active := None)
  }

  // --------------------------------------------------------------- invariant

  /** A stored payload is what this call's own worker produced; a discarded call
      has none; a signalled call that was not discarded has its worker's. */
  predicate CallFits(call: Call) {
    && (call.payload.Some? ==> !call.worker.Selecting? && !call.worker.Holding? && call.payload.value == call.worker.result)
    && (call.discarded ==> call.payload.None?)
    && (call.done <==> call.worker.Signalled? || call.worker.Exited?)
  }

  predicate CallFitsAt(s: State, i: nat)
    requires i < |s.calls|
  {
    CallFits(s.calls[i]) && (s.calls[i].worker.Alive() ==> s.active == Some(i))
  }

  /** A caller only ever looks at the call started for it; the call it still waits
      for is not discarded, and what it was given is what that worker produced. */
  predicate CallerFits(s: State, c: nat)
    requires c < |s.callers|
  {
    var caller := s.callers[c];
    && (caller.Started().Some? ==>
          && caller.Started().value < |s.calls|
          && s.calls[caller.Started().value].starter == c
          && s.calls[caller.Started().value].context == caller.context)
    && (caller.Waiting? || caller.Clearing? || caller.Reading? ==> !s.calls[caller.call].discarded)
    && (caller.Returned? && caller.outcome.Completed? ==>
          && caller.started.Some?
          && !s.calls[caller.started.value].discarded
          && !s.calls[caller.started.value].worker.Selecting?
          && s.calls[caller.started.value].worker.result == Bytes(caller.outcome.value))
    && (caller.Returned? && GivesUp(caller.outcome) && caller.started.Some? ==> s.calls[caller.started.value].discarded)
  }

  ghost predicate Sound(s: State) {
    && (s.active.Some? ==> s.active.value < |s.calls|)
    && (forall i: nat :: i < |s.calls| ==> CallFitsAt(s, i))
    && (forall c: nat :: c < |s.callers| ==> CallerFits(s, c))
  }

  /** The worker changed, the call did not: what callers rely on still holds. */
  lemma WorkerStepIsSound(s: State, i: nat, call: Call)
    requires Sound(s) && i < |s.calls| && CallFits(call)
    requires call.starter == s.calls[i].starter && call.context == s.calls[i].context
    requires call.discarded == s.calls[i].discarded
    requires call.worker.Alive() ==> s.calls[i].worker.Alive()
    requires !s.calls[i].worker.Selecting? ==> !call.worker.Selecting? && call.worker.result == s.calls[i].worker.result
    ensures Sound(WithCall(s, i, call))
  {
    var t := WithCall(s, i, call);
    forall j: nat | j < |t.calls|
      ensures CallFitsAt(t, j)
    {
      assert CallFitsAt(s, j);
    }
    forall c: nat | c < |t.callers|
      ensures CallerFits(t, c)
    {
      assert CallerFits(s, c);
    }
  }

  lemma CallerStepIsSound(s: State, c: nat, caller: Caller)
    requires Sound(s) && c < |s.callers| && CallerFits(WithCaller(s, c, caller), c)
    ensures Sound(WithCaller(s, c, caller))
  {
    var t := WithCaller(s, c, caller);
    forall i: nat | i < |t.calls|
      ensures CallFitsAt(t, i)
    {
      assert CallFitsAt(s, i);
    }
    forall d: nat | d < |t.callers|
      ensures CallerFits(t, d)
    {
      assert CallerFits(s, d);
    }
  }

  lemma ForgetIsSound(s: State)
    requires Sound(s) && !LiveActive(s)
    ensures Sound(s.(active := None))
  {
    var t := s.(active := None);
    forall i: nat | i < |t.calls|
      ensures CallFitsAt(t, i)
    {
      assert CallFitsAt(s, i);
    }
    forall c: nat | c < |t.callers|
      ensures CallerFits(t, c)
    {
      assert CallerFits(s, c);
    }
  }

  lemma StartIsSound(s: State, c: nat, context: int)
    requires Sound(s) && c < |s.callers| && s.callers[c].Outside? && !LiveActive(s)
    ensures Sound(Next(s, Start(c, context, true)))
  {
    var t := Next(s, Start(c, context, true));
    forall i: nat | i < |t.calls|
      ensures CallFitsAt(t, i)
    {
      if i < |s.calls| {
        assert CallFitsAt(s, i);
      }
    }
    forall d: nat | d < |t.callers|
      ensures CallerFits(t, d)
    {
      assert CallerFits(s, d);
    }
  }

  lemma DiscardIsSound(s: State, c: nat, o: Outcome)
    requires Sound(s) && Enabled(s, Discard(c, o))
    ensures Sound(Next(s, Discard(c, o)))
  {
    var t := Next(s, Discard(c, o));
    assert CallerFits(s, c);
    forall i: nat | i < |t.calls|
      ensures CallFitsAt(t, i)
    {
      assert CallFitsAt(s, i);
    }
    forall d: nat | d < |t.callers|
      ensures CallerFits(t, d)
    {
      assert CallerFits(s, d);
    }
  }

  lemma StepIsSound(s: State, e: Step)
    requires Sound(s) && Enabled(s, e)
    ensures Sound(Next(s, e))
  {
    match e
    case Refuse(c, o) => CallerStepIsSound(s, c, Returned(o, None, 0));
    case Start(c, context, launches) =>
      if LiveActive(s) {
        CallerStepIsSound(s, c, Returned(Busy, None, context));
      } else if launches {
        StartIsSound(s, c, context);
      } else {
        ForgetIsSound(s);
        CallerStepIsSound(s.(active := None), c, Returned(Failed, None, context));
      }
    case Select(i, result) => WorkerAt(s, i); WorkerStepIsSound(s, i, Next(s, e).calls[i]);
    case Store(i) => WorkerAt(s, i); WorkerStepIsSound(s, i, Next(s, e).calls[i]);
    case Signal(i) => WorkerAt(s, i); WorkerStepIsSound(s, i, Next(s, e).calls[i]);
    case Exit(i) => WorkerAt(s, i); WorkerStepIsSound(s, i, Next(s, e).calls[i]);
    case Discard(c, o) => DiscardIsSound(s, c, o);
    case Observe(c) => CallerAt(s, c); CallerStepIsSound(s, c, Next(s, e).callers[c]);
    case Clear(c) => ClearIsSound(s, c);
    case Read(c) => ReadIsSound(s, c);
    case Again(c) => CallerStepIsSound(s, c, Outside);
    case Probe => if !LiveActive(s) { ForgetIsSound(s); }
  }

  lemma WorkerAt(s: State, i: nat)
    requires Sound(s) && i < |s.calls|
    ensures CallFits(s.calls[i])
  {
    assert CallFitsAt(s, i);
  }

  lemma CallerAt(s: State, c: nat)
    requires Sound(s) && c < |s.callers|
    ensures CallerFits(s, c)
  {
  }

  lemma ClearIsSound(s: State, c: nat)
    requires Sound(s) && Enabled(s, Clear(c))
    ensures Sound(Next(s, Clear(c)))
  {
    CallerAt(s, c);
    var i := s.callers[c].call;
    if s.active == Some(i) {
      ForgetIsSound(s);
      CallerStepIsSound(s.(active := None), c, Reading(i, s.callers[c].context));
    } else {
      CallerStepIsSound(s, c, Reading(i, s.callers[c].context));
    }
  }

  lemma ReadIsSound(s: State, c: nat)
    requires Sound(s) && Enabled(s, Read(c))
    ensures Sound(Next(s, Read(c)))
  {
    CallerAt(s, c);
    WorkerAt(s, s.callers[c].call);
    CallerStepIsSound(s, c, Next(s, Read(c)).callers[c]);
  }

  // -------------------------------------------------------------------- runs

  ghost predicate Run(states: seq<State>, steps: seq<Step>) {
    && |states| == |steps| + 1
    && states[0].calls == [] && states[0].active.None?
    && (forall c :: 0 <= c < |states[0].callers| ==> states[0].callers[c].Outside?)
    && (forall i :: 0 <= i < |steps| ==> Takes(states[i], steps[i], states[i + 1]))
  }

  predicate Takes(s: State, e: Step, t: State) {
    Enabled(s, e) && t == Next(s, e)
  }

  lemma {:induction false} ReachableIsSound(states: seq<State>, steps: seq<Step>, n: nat)
    requires Run(states, steps) && n < |states|
    ensures Sound(states[n])
  {
    if n > 0 {
      ReachableIsSound(states, steps, n - 1);
      assert Takes(states[n - 1], steps[n - 1], states[n]);
      StepIsSound(states[n - 1], steps[n - 1]);
    }
  }

  /** Under any interleaving at most one worker is alive. */
  lemma AtMostOneWorker(states: seq<State>, steps: seq<Step>, n: nat, i: nat, j: nat)
    requires Run(states, steps) && n < |states| && i < |states[n].calls| && j < |states[n].calls|
    requires states[n].calls[i].worker.Alive() && states[n].calls[j].worker.Alive()
    ensures i == j
  {
    ReachableIsSound(states, steps, n);
    assert CallFitsAt(states[n], i) && CallFitsAt(states[n], j);
  }

  /** A delivered payload was produced by the worker started for that very call,
      for that caller and its context, and that call was not discarded. */
  lemma DeliveredIsOwn(states: seq<State>, steps: seq<Step>, n: nat, c: nat)
    requires Run(states, steps) && n < |states| && c < |states[n].callers|
    requires states[n].callers[c].Returned? && states[n].callers[c].outcome.Completed?
    ensures var caller := states[n].callers[c];
      && caller.started.Some? && caller.started.value < |states[n].calls|
      && var call := states[n].calls[caller.started.value];
      && call.starter == c && call.context == caller.context && !call.discarded
      && !call.worker.Selecting? && call.worker.result == Bytes(caller.outcome.value)
  {
    ReachableIsSound(states, steps, n);
    assert CallerFits(states[n], c);
  }

  lemma {:induction false} DiscardedForever(states: seq<State>, steps: seq<Step>, n: nat, m: nat, i: nat)
    requires Run(states, steps) && n <= m < |states| && i < |states[n].calls| && states[n].calls[i].discarded
    ensures i < |states[m].calls| && states[m].calls[i].discarded
  {
    if n < m {
      DiscardedForever(states, steps, n, m - 1, i);
      assert Takes(states[m - 1], steps[m - 1], states[m]);
    }
  }

  /** A result whose call was cancelled or timed out is never delivered to anyone,
      however late its worker finishes. */
  lemma DiscardedIsNeverDelivered(states: seq<State>, steps: seq<Step>, n: nat, m: nat, c: nat, d: nat)
    requires Run(states, steps) && n <= m < |states| && c < |states[n].callers| && d < |states[m].callers|
    requires states[n].callers[c].Returned? && GivesUp(states[n].callers[c].outcome) && states[n].callers[c].started.Some?
    requires states[m].callers[d].Returned? && states[m].callers[d].outcome.Completed?
    ensures states[m].callers[d].started != states[n].callers[c].started
  {
    ReachableIsSound(states, steps, n);
    assert CallerFits(states[n], c);
    DiscardedForever(states, steps, n, m, states[n].callers[c].started.value);
    DeliveredIsOwn(states, steps, m, d);
  }

  /** While an abandoned worker is still alive every new call is told BUSY. */
  lemma AbandonedWorkerKeepsBusy(states: seq<State>, steps: seq<Step>, n: nat, i: nat)
    requires Run(states, steps) && n < |steps| && i < |states[n].calls| && states[n].calls[i].worker.Alive()
    requires steps[n].Start?
    ensures |states[n + 1].calls| == |states[n].calls|
    ensures states[n + 1].callers[steps[n].caller] == Returned(Busy, None, steps[n].context)
  {
    ReachableIsSound(states, steps, n);
    assert CallFitsAt(states[n], i);
    assert Takes(states[n], steps[n], states[n + 1]);
  }
}
