/** What a caller can observe of the EV3 supervisor, and which change each public
    call may make (ev3/supervisor.py, `EV3Supervisor`). */
module SupervisorView {
  import opened Common

  datatype State = Booting | Disarmed | ArmedIdle | Running | FaultLatched | ShuttingDown | Closed {
    predicate InTransit() {
      Booting? || ShuttingDown?
    }

    predicate Idle() {
      Disarmed? || ArmedIdle?
    }

    predicate Armed() {
      ArmedIdle? || Running?
    }

    predicate Live() {
      Disarmed? || ArmedIdle? || Running?
    }

    predicate Ended() {
      FaultLatched? || Closed?
    }
  }

  datatype View = View(
    state: State,
    session: Option<int>,
    sequence: int,
    heartbeat: Option<int>,
    seen: set<int>,
    command: Option<int>)

  predicate Bare(v: View) {
    v.session.None? && v.sequence == 0 && v.heartbeat.None? && v.seen == {} && v.command.None?
  }

  predicate Unclaimed(v: View) {
    v.state == Disarmed && Bare(v)
  }

  predicate Faulted(v: View) {
    v.state == FaultLatched && Bare(v)
  }

  datatype Op =
    | Poll
    | Claim
    | Heartbeat(session: int, sequence: int)
    | Arm(session: int, sequence: int)
    | Drive(session: int, sequence: int, command: int)
    | Stop
    | Release(session: int, sequence: int)
    | ResetFault
    | Close
    /** The polling loop latches a fault when it misses a deadline. */
    | LatchFault
  {
    predicate Authenticated() {
      Heartbeat? || Arm? || Drive? || Release?
    }
  }

  /** The call presents the live session and a sequence number never used in it. */
  predicate Presents(op: Op, v: View) {
    op.Authenticated() && v.session == Some(op.session) && op.sequence > v.sequence
  }

  /** One safety poll: nothing, a latched fault, the end of a motion, or the
      expiry of a lease that was never armed. */
  predicate Polled(v: View, w: View) {
    || w == v
    || (v.state != Closed && Faulted(w))
    || (v.state == Running && w == v.(state := ArmedIdle, command := None))
    || (v.state == Disarmed && v.session.Some? && Unclaimed(w))
  }

  /** Every change a public call may make, whether it returns or raises. */
  predicate Allowed(op: Op, v: View, w: View) {
    match op
    case Poll => Polled(v, w)
    case Claim =>
      if v.state == Disarmed && v.session.None?
      then Faulted(w) || (w == v.(session := w.session) && w.session.Some?)
      else w == v
    case Heartbeat(session, sequence) =>
      if Presents(op, v) && v.state.Live()
      then Faulted(w) || w == v.(sequence := sequence, heartbeat := Some(sequence))
      else w == v
    case Arm(session, sequence) =>
      if Presents(op, v) && v.state == Disarmed
      then Polled(v, w) || (v.heartbeat.Some? && w == v.(state := ArmedIdle, sequence := sequence))
      else w == v
    case Drive(session, sequence, command) =>
      || w == v
      || (Presents(op, v) && v.state == ArmedIdle && command !in v.seen
          && (Faulted(w)
              || w == v.(sequence := sequence, seen := v.seen + {command})
              || w == v.(state := Running, sequence := sequence, seen := v.seen + {command}, command := Some(command))))
    case Stop => if v.state.Ended() then w == v else Unclaimed(w) || Faulted(w)
    case Release(session, sequence) =>
      if Presents(op, v) && v.state.Live() then Unclaimed(w) || Faulted(w) else w == v
    case ResetFault => w == v || (v.state == FaultLatched && (Unclaimed(w) || Faulted(w)))
    case Close => if v.state == Closed then w == v else Faulted(w) || (w.state == Closed && Bare(w))
    case LatchFault => v.state != Closed && Faulted(w)
  }

  /** A run of public calls from a started supervisor. */
  ghost predicate Run(ops: seq<Op>, views: seq<View>) {
    && |views| == |ops| + 1
    && (Unclaimed(views[0]) || Faulted(views[0]))
    && forall i :: 0 <= i < |ops| ==> Allowed(ops[i], views[i], views[i + 1])
  }

  /** The shape of every reachable view. */
  predicate Coherent(v: View) {
    &&! v.state.InTransit()
    && (v.state.Ended() ==> Bare(v))
    && (v.session.None? ==> Bare(v))
    && (v.state.Armed() ==> v.heartbeat.Some?)
    && (v.command.Some? <==> v.state == Running)
    && (v.command.Some? ==> v.command.value in v.seen)
  }

  lemma {:induction false} ReachableIsCoherent(ops: seq<Op>, views: seq<View>, j: nat)
    requires Run(ops, views) && j < |views|
    ensures Coherent(views[j])
  {
    if j > 0 {
      ReachableIsCoherent(ops, views, j - 1);
      assert Allowed(ops[j - 1], views[j - 1], views[j]);
    }
  }

  // ------------------------------------------------- motion needs authority

  /** Calls c, h, a and k of the run are the claim, a heartbeat, the arming and the
      drive that together authorise the motion seen at `j`. */
  ghost predicate Authorises(ops: seq<Op>, views: seq<View>, c: nat, h: nat, a: nat, k: nat, j: nat)
    requires |views| == |ops| + 1
  {
    && c < h < a < k < j < |views|
    && Claims(ops, views, c)
    && ops[h].Heartbeat? && views[j].session == Some(ops[h].session)
    && Arms(ops, views, a)
    && Drives(ops, views, k) && Some(ops[k].command) == views[j].command
    && SameSession(views, c + 1, j)
    && StaysArmed(views, a + 1, j)
    && StaysRunning(views, k + 1, j)
  }

  predicate Claims(ops: seq<Op>, views: seq<View>, i: nat)
    requires |views| == |ops| + 1 && i < |ops|
  {
    ops[i] == Claim && views[i].session.None? && views[i + 1].session.Some? && views[i + 1].heartbeat.None?
  }

  predicate Arms(ops: seq<Op>, views: seq<View>, i: nat)
    requires |views| == |ops| + 1 && i < |ops|
  {
    ops[i].Arm? && Presents(ops[i], views[i]) && views[i].state == Disarmed && views[i + 1].state == ArmedIdle
  }

  predicate Drives(ops: seq<Op>, views: seq<View>, i: nat)
    requires |views| == |ops| + 1 && i < |ops|
  {
    ops[i].Drive? && Presents(ops[i], views[i]) && views[i].state == ArmedIdle && views[i + 1].state == Running
  }

  predicate SameSession(views: seq<View>, from: nat, to: nat)
    requires to < |views|
  {
    forall i :: from <= i <= to ==> views[i].session.Some? && views[i].session == views[to].session
  }

  predicate StaysArmed(views: seq<View>, from: nat, to: nat)
    requires to < |views|
  {
    forall i :: from <= i <= to ==> views[i].state.Armed()
  }

  predicate StaysRunning(views: seq<View>, from: nat, to: nat)
    requires to < |views|
  {
    forall i :: from <= i <= to ==> views[i].state == Running && views[i].command == views[to].command
  }

  /** The claim that opened the session seen at `j`. */
  lemma {:induction false} ClaimOf(ops: seq<Op>, views: seq<View>, j: nat) returns (c: nat)
    requires Run(ops, views) && j < |views| && views[j].session.Some?
    ensures c < j && Claims(ops, views, c) && SameSession(views, c + 1, j)
  {
    ReachableIsCoherent(ops, views, j - 1);
    assert Allowed(ops[j - 1], views[j - 1], views[j]);
    if views[j - 1].session.Some? {
      c := ClaimOf(ops, views, j - 1);
    } else {
      c := j - 1;
    }
  }

  /** A heartbeat of that session, after its claim. */
  lemma {:induction false} HeartbeatOf(ops: seq<Op>, views: seq<View>, c: nat, j: nat) returns (h: nat)
    requires Run(ops, views) && c < j < |views| && Claims(ops, views, c) && SameSession(views, c + 1, j)
    requires views[j].heartbeat.Some?
    ensures c < h < j && ops[h].Heartbeat? && views[j].session == Some(ops[h].session)
  {
    ReachableIsCoherent(ops, views, j - 1);
    assert Allowed(ops[j - 1], views[j - 1], views[j]);
    if views[j - 1].heartbeat.Some? {
      h := HeartbeatOf(ops, views, c, j - 1);
    } else {
      h := j - 1;
    }
  }

  /** The arming since which the supervisor has stayed armed. */
  lemma {:induction false} ArmOf(ops: seq<Op>, views: seq<View>, j: nat) returns (a: nat)
    requires Run(ops, views) && j < |views| && views[j].state.Armed()
    ensures a < j && Arms(ops, views, a) && StaysArmed(views, a + 1, j) && SameSession(views, a + 1, j)
    ensures views[a].heartbeat.Some? && views[a].session == views[j].session
  {
    ReachableIsCoherent(ops, views, j - 1);
    ReachableIsCoherent(ops, views, j);
    assert Allowed(ops[j - 1], views[j - 1], views[j]);
    if views[j - 1].state.Armed() {
      a := ArmOf(ops, views, j - 1);
    } else {
      a := j - 1;
    }
  }

  /** The drive call that started the motion seen at `j`. */
  lemma {:induction false} DriveOf(ops: seq<Op>, views: seq<View>, j: nat) returns (k: nat)
    requires Run(ops, views) && j < |views| && views[j].state == Running
    ensures k < j && Drives(ops, views, k) && StaysRunning(views, k + 1, j)
    ensures Some(ops[k].command) == views[j].command
  {
    ReachableIsCoherent(ops, views, j - 1);
    assert Allowed(ops[j - 1], views[j - 1], views[j]);
    if views[j - 1].state == Running {
      k := DriveOf(ops, views, j - 1);
    } else {
      k := j - 1;
    }
  }

  /** Whatever calls are made in whatever order, the robot only runs under a
      session that was claimed, sent a heartbeat, was armed and then driven, in
      that order, and that has neither ended nor been disarmed since. */
  lemma RunningNeedsAuthority(ops: seq<Op>, views: seq<View>, j: nat)
    requires Run(ops, views) && j < |views| && views[j].state == Running
    ensures exists c: nat, h: nat, a: nat, k: nat :: Authorises(ops, views, c, h, a, k, j)
  {
    ReachableIsCoherent(ops, views, j);
    var k := DriveOf(ops, views, j);
    var a := ArmOf(ops, views, j);
    var c := ClaimOf(ops, views, j);
    var h := HeartbeatOf(ops, views, c, a);
    assert Authorises(ops, views, c, h, a, k, j);
  }

  /** Nothing that ends a motion happened between its drive call and `j`. */
  lemma NoStopWhileRunning(ops: seq<Op>, views: seq<View>, k: nat, j: nat, i: nat)
    requires Run(ops, views) && j < |views| && StaysRunning(views, k, j) && k <= i < j
    ensures !ops[i].Stop? && !ops[i].Close? && !ops[i].LatchFault?
  {
    assert Allowed(ops[i], views[i], views[i + 1]);
  }

  // --------------------------------------------- replay within one session

  /** Sequence numbers never fall within a session, and ids are never forgotten. */
  lemma {:induction false} SequenceNeverFalls(ops: seq<Op>, views: seq<View>, i: nat, j: nat)
    requires Run(ops, views) && i <= j < |views| && SameSession(views, i, j)
    ensures views[i].sequence <= views[j].sequence && views[i].seen <= views[j].seen
  {
    if i < j {
      assert Allowed(ops[j - 1], views[j - 1], views[j]);
      ReachableIsCoherent(ops, views, j - 1);
      SequenceNeverFalls(ops, views, i, j - 1);
    }
  }

  /** No accepted authenticated call of a session can be replayed in it: the
      later one carries a larger sequence number and a new command id. */
  lemma NothingIsReplayed(ops: seq<Op>, views: seq<View>, i: nat, j: nat)
    requires Run(ops, views) && i < j < |ops| && SameSession(views, i, j)
    requires ops[i].Authenticated() && views[i] != views[i + 1] && Presents(ops[j], views[j])
    ensures ops[i].sequence < ops[j].sequence
    ensures ops[i].Drive? && ops[j].Drive? && views[j] != views[j + 1] ==> ops[i].command != ops[j].command
  {
    assert Allowed(ops[i], views[i], views[i + 1]);
    assert Allowed(ops[j], views[j], views[j + 1]);
    ReachableIsCoherent(ops, views, i);
    SequenceNeverFalls(ops, views, i + 1, j);
  }

  // ------------------------------------------------------ leaving a fault

  /** Once a fault is latched, nothing moves until a reset and a new claim. */
  lemma {:induction false} ResetOf(ops: seq<Op>, views: seq<View>, i: nat, j: nat) returns (r: nat)
    requires Run(ops, views) && i < j < |views|
    requires views[i].state == FaultLatched && views[j].state.Live()
    ensures i <= r < j && ops[r] == ResetFault && views[r].state == FaultLatched && Unclaimed(views[r + 1])
    ensures forall l :: r < l <= j ==> views[l].state.Live()
  {
    ReachableIsCoherent(ops, views, j - 1);
    assert Allowed(ops[j - 1], views[j - 1], views[j]);
    if views[j - 1].state.Live() {
      r := ResetOf(ops, views, i, j - 1);
    } else {
      r := j - 1;
    }
  }

  lemma FaultEndsEveryAuthority(ops: seq<Op>, views: seq<View>, i: nat, j: nat) returns (r: nat, c: nat)
    requires Run(ops, views) && i < j < |views|
    requires views[i].state == FaultLatched && views[j].state == Running
    ensures i <= r < c < j
    ensures ops[r] == ResetFault && Unclaimed(views[r + 1])
    ensures Claims(ops, views, c) && SameSession(views, c + 1, j)
  {
    r := ResetOf(ops, views, i, j);
    ReachableIsCoherent(ops, views, j);
    c := ClaimOf(ops, views, j);
  }
}
