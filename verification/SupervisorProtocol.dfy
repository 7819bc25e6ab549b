/** The allowlist dispatcher and its motion budgets (ev3/supervisor_protocol.py). */
module SupervisorProtocol {
  import opened Common
  import opened Supervisor
  import SupervisorView

  const DRIVE_PULSE_DURATION_MS: nat := 150
  const DRIVE_PULSE_MAX_COMMANDS: nat := 20
  const DRIVE_PULSE_MAX_TOTAL_DURATION_MS: nat := 3000

  /** The identity a drive command presents to the supervisor. */
  datatype Ticket = Ticket(session: int, sequence: int, command: int, reference: int)

  datatype Operation =
    | ReadOnly
    | OpClaim
    | OpHeartbeat(session: int, sequence: int)
    | OpArm(session: int, sequence: int)
    | OpDriveTimed(ticket: Ticket, leftSpeed: int, rightSpeed: int, durationMs: int)
    | OpDrivePulse(ticket: Ticket, known: bool, advance: bool)
    | OpRelease(session: int, sequence: int)
    | OpStop
    | OpShutdown

  /** `ours` says the request targets this controller. */
  datatype Request = Request(id: nat, ours: bool, operation: Operation, deadlineMs: int) {
    predicate IsStop() {
      operation == OpStop || operation == OpShutdown
    }

    predicate IsDrive() {
      operation.OpDriveTimed? || operation.OpDrivePulse?
    }
  }

  /** The three process modes and their fixed motion budgets. */
  datatype Profile = MotionFree | OneDrive | Roamer {
    function Budget(): nat {
      match this
      case MotionFree => 0
      case OneDrive => 1
      case Roamer => DRIVE_PULSE_MAX_COMMANDS
    }

    function DurationBudget(): nat {
      if this == Roamer then DRIVE_PULSE_MAX_TOTAL_DURATION_MS else 0
    }
  }

  datatype Reply = Success | Error | Crash

  /** A call that returned is a success and one that raised an error response, unless
      an exception of another kind leaves the dispatcher, as may happen after a call
      that returned. */
  method ReplyTo(outcome: Outcome) returns (r: Reply)
    ensures r == Crash || r == if outcome.Done? then Success else Error
  {
    var crashed: bool := *;
    if crashed {
      return Crash;
    }
    return if outcome.Done? then Success else Error;
  }

  class SupervisorProtocol {
    const supervisor: EV3Supervisor
    const profile: Profile
    const maximumSpeed: nat
    const maximumDurationMs: nat
    var remainingMotionBudget: nat
    var remainingMotionDurationMs: nat
    /** How many drive calls were handed to the supervisor, and for how long. */
    ghost var drives: nat
    ghost var drivenMs: int

    /** Every drive call was paid for before it was made. */
    ghost predicate Valid()
      reads this, supervisor, supervisor.owner
    {
      && supervisor.Valid() && !supervisor.closed
      && drives + remainingMotionBudget == profile.Budget()
      && (profile == Roamer ==> drivenMs + remainingMotionDurationMs == profile.DurationBudget())
      && (profile == OneDrive ==> 0 <= drivenMs <= if drives == 0 then 0 else maximumDurationMs)
      && (profile == MotionFree ==> drivenMs == 0)
    }

    constructor (supervisor: EV3Supervisor, profile: Profile, maximumSpeed: nat, maximumDurationMs: nat)
      requires supervisor.Valid() && !supervisor.closed
      ensures Valid() && this.supervisor == supervisor && this.profile == profile && drives == 0
      ensures this.maximumSpeed == maximumSpeed && this.maximumDurationMs == maximumDurationMs
    {
      this.supervisor, this.profile := supervisor, profile;
      this.maximumSpeed, this.maximumDurationMs := maximumSpeed, maximumDurationMs;
      remainingMotionBudget, remainingMotionDurationMs := profile.Budget(), profile.DurationBudget();
      drives, drivenMs := 0, 0;
    }

    /** The supervisor has no reason of its own to refuse that drive. */
    twostate predicate Startable(ticket: Ticket, forward: bool)
      reads supervisor
    {
      && old(supervisor.state) == SupervisorView.ArmedIdle && old(supervisor.sessionId) == Some(ticket.session)
      && ticket.sequence > old(supervisor.lastSequence) && ticket.command !in old(supervisor.seenCommands)
      && |old(supervisor.seenCommands)| < supervisor.maximumCommands
      && old(supervisor.lastHeartbeatSequence) == Some(ticket.reference)
      && !supervisor.Hindered(forward, old(supervisor.lastHeartbeatMs)) && !supervisor.LateStart(old(supervisor.starts))
    }

    /** Hand one paid drive to the supervisor; its speeds and duration are judged
        outside this model. */
    method Drive(ticket: Ticket, forward: bool, durationMs: nat) returns (r: Outcome)
      requires supervisor.Valid() && !supervisor.closed
      modifies `drives, `drivenMs, supervisor
      modifies supervisor.owner`active, supervisor.owner`moving, supervisor.owner`tally
      ensures supervisor.polls >= old(supervisor.polls)
      ensures r.Done? ==> supervisor.state == SupervisorView.Running && supervisor.activeCommand == Some(ticket.command)
      ensures r.Done? && forward ==> !supervisor.infraredBlocked
      ensures r.Done? ==>
        && supervisor.owner.active.Some? && supervisor.owner.active.value.forward == forward
        && supervisor.owner.active.value.deadlineMs == supervisor.owner.active.value.startedMs + durationMs
      ensures supervisor.Valid() && !supervisor.closed
      ensures drives == old(drives) + 1 && drivenMs == old(drivenMs) + durationMs
      ensures supervisor.mishaps >= old(supervisor.mishaps)
      ensures supervisor.mishaps == old(supervisor.mishaps) && r.Raised? ==> !Startable(ticket, forward)
    {
      drives, drivenMs := drives + 1, drivenMs + durationMs;
      var legal: bool := *;
      supervisor.mishaps := supervisor.mishaps + if legal then 0 else 1;
      r := supervisor.StartDrive(ticket.session, ticket.sequence, ticket.command, ticket.reference, forward, durationMs,
                                 legal);
    }

    method DriveTimed(request: Request) returns (r: Reply)
      requires Valid() && request.operation.OpDriveTimed?
      modifies this, supervisor, supervisor.owner`active, supervisor.owner`moving, supervisor.owner`tally
      ensures r == Success ==>
        && supervisor.state == SupervisorView.Running && supervisor.activeCommand == Some(request.operation.ticket.command)
        && (request.operation.leftSpeed > 0 && request.operation.rightSpeed > 0 ==> !supervisor.infraredBlocked)
        && supervisor.owner.active.Some?
        && var motion := supervisor.owner.active.value;
           && (motion.forward <==> request.operation.leftSpeed > 0 && request.operation.rightSpeed > 0)
           && motion.deadlineMs == motion.startedMs + request.operation.durationMs
      ensures var op := request.operation;
        if profile == OneDrive && old(drives) == 0 && 0 <= op.durationMs <= maximumDurationMs
          && Abs(op.leftSpeed) <= maximumSpeed && Abs(op.rightSpeed) <= maximumSpeed
        then drives == old(drives) + 1 && drivenMs == old(drivenMs) + op.durationMs
        else r == Error && drives == old(drives) && drivenMs == old(drivenMs) && unchanged(supervisor)
      ensures Valid() && supervisor.polls >= old(supervisor.polls)
      ensures supervisor.mishaps >= old(supervisor.mishaps)
      ensures supervisor.mishaps == old(supervisor.mishaps) && r == Error && drives > old(drives) ==>
        !Startable(request.operation.ticket, request.operation.leftSpeed > 0 && request.operation.rightSpeed > 0)
    {
      var op := request.operation;
      if profile != OneDrive || remainingMotionBudget == 0
        || Abs(op.leftSpeed) > maximumSpeed || Abs(op.rightSpeed) > maximumSpeed
        || !(0 <= op.durationMs <= maximumDurationMs)
      {
        return Error;
      }
      remainingMotionBudget := remainingMotionBudget - 1;
      var outcome := Drive(op.ticket, op.leftSpeed > 0 && op.rightSpeed > 0, op.durationMs);
      r := ReplyTo(outcome);
    }

    method DrivePulse(request: Request) returns (r: Reply)
      requires Valid() && request.operation.OpDrivePulse?
      modifies this, supervisor, supervisor.owner`active, supervisor.owner`moving, supervisor.owner`tally
      ensures r == Success ==>
        && supervisor.state == SupervisorView.Running && supervisor.activeCommand == Some(request.operation.ticket.command)
        && (request.operation.advance ==> !supervisor.infraredBlocked)
        && supervisor.owner.active.Some?
        && var motion := supervisor.owner.active.value;
           motion.forward == request.operation.advance && motion.deadlineMs == motion.startedMs + 150
      ensures if profile == Roamer && old(drives) < 20 && old(drivenMs) + 150 <= 3000 && request.operation.known
        then drives == old(drives) + 1 && drivenMs == old(drivenMs) + 150
        else r == Error && drives == old(drives) && drivenMs == old(drivenMs) && unchanged(supervisor)
      ensures Valid() && supervisor.polls >= old(supervisor.polls)
      ensures supervisor.mishaps >= old(supervisor.mishaps)
      ensures supervisor.mishaps == old(supervisor.mishaps) && r == Error && drives > old(drives) ==>
        !Startable(request.operation.ticket, request.operation.advance)
    {
      var op := request.operation;
      if profile != Roamer || remainingMotionBudget == 0
        || remainingMotionDurationMs < DRIVE_PULSE_DURATION_MS || !op.known
      {
        return Error;
      }
      remainingMotionBudget := remainingMotionBudget - 1;
      remainingMotionDurationMs := remainingMotionDurationMs - DRIVE_PULSE_DURATION_MS;
      var outcome := Drive(op.ticket, op.advance, DRIVE_PULSE_DURATION_MS);
      r := ReplyTo(outcome);
    }

    /** What a successful call that neither drives nor stops leaves behind. */
    ghost predicate Effect(operation: Operation)
      reads supervisor
    {
      match operation
      case OpClaim => supervisor.sessionId.Some? && supervisor.claimedAtMs.Some?
      case OpHeartbeat(session, sequence) =>
        supervisor.sessionId == Some(session) && supervisor.lastHeartbeatSequence == Some(sequence)
      case OpArm(session, sequence) =>
        supervisor.state == SupervisorView.ArmedIdle && supervisor.sessionId == Some(session)
      case OpRelease(_, _) => supervisor.sessionId.None? && supervisor.activeCommand.None?
      case _ => true
    }

    /** And none to refuse such a call. */
    twostate predicate Callable(operation: Operation)
      reads supervisor
    {
      match operation
      case OpClaim => old(supervisor.state) == SupervisorView.Disarmed && old(supervisor.sessionId).None?
      case OpHeartbeat(session, sequence) => Presented(session, sequence) && old(supervisor.state).Live()
      case OpArm(session, sequence) =>
        && Presented(session, sequence) && old(supervisor.state) == SupervisorView.Disarmed
        && supervisor.touchValue == Some(0) && supervisor.touchReleasedSamples >= supervisor.touchReleaseSamples
        && supervisor.FreshBy(old(supervisor.lastHeartbeatMs))
      case OpRelease(session, sequence) => Presented(session, sequence) && old(supervisor.state).Live()
      case _ => true
    }

    twostate predicate Presented(session: int, sequence: int)
      reads supervisor
    {
      old(supervisor.sessionId) == Some(session) && sequence > old(supervisor.lastSequence)
    }

    /** Calls that neither drive nor stop. */
    method CallSupervisor(operation: Operation) returns (r: Reply)
      requires Valid() && (operation.OpHeartbeat? || operation.OpArm? || operation.OpRelease? || operation.OpClaim?)
      modifies supervisor, supervisor.owner`active, supervisor.owner`moving, supervisor.owner`tally
      ensures Valid() && supervisor.polls >= old(supervisor.polls)
      ensures r == Success ==> Effect(operation)
      ensures supervisor.mishaps >= old(supervisor.mishaps)
      ensures supervisor.mishaps == old(supervisor.mishaps) && r == Error ==> !Callable(operation)
    {
      var outcome: Outcome;
      match operation {
        case OpClaim =>
          var session: int := *;
          outcome := supervisor.Claim(session);
        case OpHeartbeat(session, sequence) =>
          var now: int := *;
          outcome := supervisor.Heartbeat(session, sequence, now);
        case OpArm(session, sequence) =>
          outcome := supervisor.Arm(session, sequence);
        case OpRelease(session, sequence) =>
          outcome := supervisor.Release(session, sequence);
      }
      r := ReplyTo(outcome);
    }

    /** STOP and SHUTDOWN succeed only on a status that proves a verified stop. */
    method Stop() returns (r: Reply)
      requires Valid()
      modifies supervisor, supervisor.owner`active, supervisor.owner`moving, supervisor.owner`tally
      ensures Valid() && supervisor.polls >= old(supervisor.polls)
      ensures r == Success ==> supervisor.ProvesVerifiedStop() && !supervisor.owner.moving
      ensures supervisor.mishaps >= old(supervisor.mishaps)
      ensures supervisor.mishaps == old(supervisor.mishaps) ==> r != Error
    {
      var outcome := supervisor.Stop();
      if outcome.Done? && !supervisor.ProvesVerifiedStop() {
        return Error;
      }
      if outcome.Done? {
        supervisor.VerifiedStopIsAtRest();
      }
      r := ReplyTo(outcome);
    }

    /** A foreign or stale request changes nothing; stop requests never go stale. An
        exception may leave before the call, in the middle of it, or after it. */
    method Execute(request: Request, dispatchAtMs: int) returns (r: Reply)
      requires Valid()
      modifies this, supervisor, supervisor.owner`active, supervisor.owner`moving, supervisor.owner`tally
      ensures Valid() && supervisor.polls >= old(supervisor.polls)
      ensures r == Success ==> Effect(request.operation)
      ensures r == Success && (request.operation.OpDriveTimed? || request.operation.OpDrivePulse?) ==>
        supervisor.state == SupervisorView.Running && supervisor.activeCommand == Some(request.operation.ticket.command)
      ensures r == Success && (request.operation == OpStop || request.operation == OpShutdown) ==>
        supervisor.ProvesVerifiedStop() && !supervisor.owner.moving
      ensures var stop := request.operation == OpStop || request.operation == OpShutdown;
        !request.ours || (!stop && dispatchAtMs >= request.deadlineMs) ==>
          r == Error && unchanged(this) && unchanged(supervisor) && unchanged(supervisor.owner)
      ensures supervisor.mishaps >= old(supervisor.mishaps)
      ensures var op := request.operation;
        var stale := op != OpStop && op != OpShutdown && dispatchAtMs >= request.deadlineMs;
        request.ours && !stale && r == Error && supervisor.mishaps == old(supervisor.mishaps) ==>
          match op
          case OpDriveTimed(ticket, left, right, _) =>
            drives == old(drives) || !Startable(ticket, left > 0 && right > 0)
          case OpDrivePulse(ticket, _, advance) => drives == old(drives) || !Startable(ticket, advance)
          case _ => !Callable(op)
    {
      if !request.ours || (!request.IsStop() && dispatchAtMs >= request.deadlineMs) {
        return Error;
      }
      var crashed: bool := *;
      if crashed {
        return Crash;
      }
      match request.operation {
        case ReadOnly => r := Success;
        case OpStop => r := Stop();
        case OpShutdown => r := Stop();
        case OpDriveTimed(_, _, _, _) => r := DriveTimed(request);
        case OpDrivePulse(_, _, _) => r := DrivePulse(request);
        case _ => r := CallSupervisor(request.operation);
      }
    }
  }

  /** Over any sequence of requests the drive calls stay within the profile. */
  lemma BudgetIsNeverExceeded(p: SupervisorProtocol)
    requires p.Valid()
    ensures p.drives <= p.profile.Budget() <= DRIVE_PULSE_MAX_COMMANDS
    ensures p.profile == Roamer ==> p.drivenMs <= DRIVE_PULSE_MAX_TOTAL_DURATION_MS
    ensures p.profile == OneDrive ==> p.drives <= 1 && p.drivenMs <= p.maximumDurationMs
    ensures p.profile == MotionFree ==> p.drives == 0 && p.drivenMs == 0
  {
  }
}
