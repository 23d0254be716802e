/** Nothing gets stuck: whatever has happened, the agent can still finish, every
    message and job with its result. */
module TxProgress {
  import Runs
  import opened Helpers
  import opened WrittenIds
  import opened Separators
  import opened TxProtocol
  import opened TxSafety
  import opened TxTheorems

  /** end can be reached from s. */
  ghost predicate LeadsTo(cfg: Config, s: State, end: State) {
    Runs.Reachable(s, StepsOf(cfg), end)
  }

  /** What the intake has still to do for the message in hand. A job it pushes
      is work for the writer. */
  function IntakeWork(intake: Intake): nat {
    match intake
    case Looked(_) => 14
    case Registered(_) => 13
    case Announced(_) => 12
    case Answering(_, _) => 2
    case Idle => 1
    case Left => 0
  }

  function WriterWork(writer: Writer): nat {
    match writer
    case Awaiting(_) => 7
    case Checking(_) => 6
    case Ready(_) => 5
    case Writing(_, _) => 4
    case Reporting(_, _) => 3
    case Clearing(_, _) => 2
    case Waiting => 1
    case Ended => 0
  }

  function Work(s: State): nat {
    IntakeWork(s.intake) + 10 * |s.queue| + WriterWork(s.writer) + (6 - s.phase.Rank())
  }

  function IntakeTurn(intake: Intake): IntakeStep {
    match intake
    case Looked(_) => CheckStopping
    case Registered(_) => Announce
    case Announced(_) => PushJob
    case Answering(_, _) => PushAnswer
    case Idle => Leave
    case Left => Leave
  }

  /** The writer's next step, with a port that ends a write as it stands. */
  function WriterTurn(s: State): WriterStep {
    match s.writer
    case Awaiting(_) => PortAwaited
    case Checking(_) => CheckJob
    case Ready(_) => StartWrite
    case Writing(hand, written) => EndWrite(if written == |hand.job.data| then Complete else Broken)
    case Reporting(_, _) => Report
    case Clearing(_, _) => Clear
    case Waiting => if s.queue != [] then PopJob else End
    case Ended => End
  }

  function ShutdownTurn(phase: Phase): ShutdownStep {
    match phase
    case Running => SetStopping
    case StopSet => CloseQueue
    case QueueClosed => JoinWriters
    case WritersDone => TellIntake
    case IntakeTold => JoinIntake
    case IntakeDone => CloseStatus
    case StatusClosed => CloseStatus
  }

  /** Whose turn it is on the way to the end. */
  function Turn(s: State): Action {
    if !s.intake.Idle? && !s.intake.Left? then ByIntake(IntakeTurn(s.intake))
    else if s.phase.Rank() < 2 then ByShutdown(ShutdownTurn(s.phase))
    else if !s.writer.Ended? then ByWriter(WriterTurn(s))
    else if s.phase.IntakeTold? && s.intake.Idle? then ByIntake(Leave)
    else ByShutdown(ShutdownTurn(s.phase))
  }

  /** Every turn gets on. */
  lemma TurnGetsOn(cfg: Config, s: State)
    requires InvStop(s) && InvBytes(s) && !s.phase.StatusClosed?
    ensures Work(Next(cfg, s, Turn(s))) < Work(s)
  {
    hide NoneAcceptedFrom, BytesOf, Remember;
    if !s.intake.Idle? && !s.intake.Left? {
      hide WriterNext, ShutdownNext;
    } else if s.phase.Rank() < 2 {
      hide WriterNext, IntakeNext;
    } else if !s.writer.Ended? {
      hide ShutdownNext, IntakeNext;
      WriterTurnGetsOn(cfg, s);
    } else {
      hide WriterNext;
    }
  }

  lemma WriterTurnGetsOn(cfg: Config, s: State)
    requires InvStop(s) && InvBytes(s) && s.phase.Rank() >= 2 && !s.writer.Ended?
    requires s.intake.Idle? || s.intake.Left?
    ensures Work(WriterNext(cfg, s, WriterTurn(s))) < Work(s)
  {
    hide NoneAcceptedFrom, BytesOf, Remember;
  }

  lemma {:induction false} Finishes(cfg: Config, s: State) returns (end: State)
    requires cfg.Valid() && Reachable(cfg, s)
    ensures LeadsTo(cfg, s, end) && Reachable(cfg, end) && end.phase.StatusClosed?
    decreases Work(s)
  {
    hide Next, Turn, Work, Inv;
    if s.phase.StatusClosed? {
      Runs.InitialIsReachable(s, StepsOf(cfg));
      end := s;
    } else {
      assert Work(Next(cfg, s, Turn(s))) < Work(s) by {
        ReachableTurns(cfg, s);
      }
      StepIsReachable(cfg, s, Turn(s), Next(cfg, s, Turn(s)));
      end := Finishes(cfg, Next(cfg, s, Turn(s)));
      Runs.ReachableFromNext(StepsOf(cfg), s, Turn(s), end);
    }
  }

  lemma ReachableTurns(cfg: Config, s: State)
    requires cfg.Valid() && Reachable(cfg, s) && !s.phase.StatusClosed?
    ensures Work(Next(cfg, s, Turn(s))) < Work(s)
  {
    hide Reachable, InvOrder, InvActive, InvMemory, InvBytes, InvCalls, InvBehind, InvFresh, InvLossless;
    hide Next, Turn, Work;
    ReachableKeepsInv(cfg, s);
    TurnGetsOn(cfg, s);
  }

  /** Wherever a run has come to, the shutdown can still be completed, with one
      immediate result for every message and one later result for every
      accepted one. */
  lemma ShutdownCanComplete(cfg: Config, s: State) returns (end: State)
    requires cfg.Valid() && Reachable(cfg, s)
    ensures LeadsTo(cfg, s, end) && end.phase.StatusClosed?
    ensures forall serial: nat :: ImmediateCount(end.log, serial) == if serial < end.taken then 1 else 0
    ensures AcceptedJobs(end.log) == FinishedJobs(end.log)
  {
    hide Reachable, LeadsTo;
    end := Finishes(cfg, s);
    forall serial: nat
      ensures ImmediateCount(end.log, serial) == if serial < end.taken then 1 else 0
    {
      NoneOutstandingAtClose(cfg, end, serial);
    }
    NoneOutstandingAtClose(cfg, end, 0);
  }
}
