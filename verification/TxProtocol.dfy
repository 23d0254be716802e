/** One device's tx: the intake goroutine, the device's one writer and the
    agent's shutdown, as a transition system whose steps are cut where a lock
    is taken or released. The port and the broker choose freely, and the clock
    runs on between any two steps. */
module TxProtocol {
  import Runs
  import opened Helpers
  import opened WrittenIds
  import opened Separators

  /** attempts is TxOpenAttempts, limit TxRememberedIDs; writable says whether
      the reader is a device that can be written, and lossless that its port
      never reports an error for a write it has taken to the last byte. */
  datatype Config = Config(attempts: nat, limit: nat, writable: bool, lossless: bool) {
    predicate Valid() { limit >= 1 }
  }

  /** A payload as it was read: what was wrong with it, or its id and data. */
  datatype Message = Unreadable | Tx(id: Id, data: Bytes, deadline: Option<Time>)

  /** serial is the message's place in the order the device's messages came. */
  datatype Job = Job(serial: nat, id: Id, data: Bytes, deadline: Option<Time>) {
    predicate Due(now: Time) { deadline.Some? && now >= deadline.value }
  }

  datatype Outcome = Written | Failed(bytes: nat) | Stopped(bytes: nat) | Expired | PortUnavailable

  /** The answer to a message that is not accepted; at is when the id was
      written. */
  datatype Answer = Invalid | InProgress(id: Id) | AlreadyWritten(id: Id, at: Time) | Refused(id: Id)

  /** What the port ends a write with. */
  datatype Ending = Complete | NotOpen | CutShort | Broken

  /** The last check before a write, what it found, and how that write ended,
      if there was one. */
  datatype Last = Last(checkedAt: Time, stopping: bool, ending: Option<Ending>, endedAt: Time)

  const NEVER := Last(0, false, None, 0)

  /** What is queued for the status topic: the immediate result of a message,
      or the later one of an accepted job. calls is how often the port's Write
      was called for the job, late whether the writer took it after stopping
      was set, and last what led to the outcome. */
  datatype Result =
    | Accepted(job: Job)
    | Answered(serial: nat, answer: Answer)
    | Final(job: Job, outcome: Outcome, calls: nat, late: bool, last: Last)

  // The intake holds txMu while Looked, and intakeMu while Registered or
  // Announced.
  datatype Intake =
    | Idle
    | Looked(job: Job)
    | Registered(job: Job)
    | Announced(job: Job)
    | Answering(serial: nat, answer: Answer)
    | Left

  /** The job in hand: how often the port was found closed, how often Write
      was called, and whether the job was taken after stopping was set. */
  datatype Hand = Hand(job: Job, closed: nat, calls: nat, late: bool, last: Last)

  function FinalOf(hand: Hand, outcome: Outcome): Result {
    Final(hand.job, outcome, hand.calls, hand.late, hand.last)
  }

  datatype Writer =
    | Waiting
    | Checking(hand: Hand)
    | Ready(hand: Hand)
    | Writing(hand: Hand, written: nat)
    | Awaiting(hand: Hand)
    | Reporting(hand: Hand, outcome: Outcome)
    | Clearing(hand: Hand, outcome: Outcome)
    | Ended

  datatype Phase = Running | StopSet | QueueClosed | WritersDone | IntakeTold | IntakeDone | StatusClosed {
    function Rank(): nat {
      match this
      case Running => 0
      case StopSet => 1
      case QueueClosed => 2
      case WritersDone => 3
      case IntakeTold => 4
      case IntakeDone => 5
      case StatusClosed => 6
    }
  }

  /** log is everything pushed to the status queue as a tx result; sent is
      what the device's ports accepted over all sessions. stopAt is how long
      log was when stopping was set, and startsAfterStop counts the writes
      started since. */
  datatype State = State(
    now: Time,
    taken: nat,
    intake: Intake,
    writer: Writer,
    phase: Phase,
    stopping: bool,
    writesCut: bool,
    queue: seq<Job>,
    queueClosed: bool,
    active: map<Id, Job>,
    written: Memory,
    log: seq<Result>,
    sent: Bytes,
    stopAt: nat,
    startsAfterStop: nat)

  const INITIAL := State(0, 0, Idle, Waiting, Running, false, false, [], false, map[], EMPTY, [], [], 0, 0)

  datatype IntakeStep = Take(message: Message) | CheckStopping | Announce | PushJob | PushAnswer | Leave

  datatype WriterStep =
    | PopJob
    | CheckJob
    | StartWrite
    | PortAccepts(count: nat)
    | EndWrite(ending: Ending)
    | PortAwaited
    | Report
    | Clear
    | End

  datatype ShutdownStep = SetStopping | CloseQueue | CutWrites | JoinWriters | TellIntake | JoinIntake | CloseStatus

  datatype Action =
    | ByIntake(intake: IntakeStep)
    | ByWriter(writer: WriterStep)
    | ByShutdown(shutdown: ShutdownStep)
    | ByClock(passes: nat)

  predicate IntakeMuFree(s: State) { !s.intake.Registered? && !s.intake.Announced? }

  predicate TxMuFree(s: State) { !s.intake.Looked? }

  // The intake: admitTxTo.

  function Taken(s: State, message: Message): Intake {
    match message
    case Unreadable => Answering(s.taken, Invalid)
    case Tx(id, data, deadline) =>
      if id in s.active then Answering(s.taken, InProgress(id))
      else if id in s.written.at then Answering(s.taken, AlreadyWritten(id, s.written.at[id]))
      else Looked(Job(s.taken, id, data, deadline))
  }

  function DoTake(s: State, message: Message): State {
    if s.intake.Idle? then s.(taken := s.taken + 1, intake := Taken(s, message)) else s
  }

  /** Takes intakeMu with txMu held; registers the job and releases txMu, or
      releases both. */
  function DoCheckStopping(s: State): State {
    if !s.intake.Looked? then s
    else if s.stopping then s.(intake := Answering(s.intake.job.serial, Refused(s.intake.job.id)))
    else s.(intake := Registered(s.intake.job), active := s.active[s.intake.job.id := s.intake.job])
  }

  function DoAnnounce(s: State): State {
    if !s.intake.Registered? then s
    else s.(intake := Announced(s.intake.job), log := s.log + [Accepted(s.intake.job)])
  }

  function DoPushJob(s: State): State {
    if !s.intake.Announced? then s
    else s.(intake := Idle, queue := s.queue + [s.intake.job])
  }

  function DoPushAnswer(s: State): State {
    if !s.intake.Answering? then s
    else s.(intake := Idle, log := s.log + [Answered(s.intake.serial, s.intake.answer)])
  }

  function DoLeave(s: State): State {
    if s.intake.Idle? && s.phase.Rank() >= IntakeTold.Rank() then s.(intake := Left) else s
  }

  // The writer: writeTxs and writeTx.

  function DoPopJob(s: State): State {
    if s.writer.Waiting? && s.queue != [] then
      s.(writer := Checking(Hand(s.queue[0], 0, 0, s.stopping, NEVER)), queue := s.queue[1..])
    else s
  }

  function DoEnd(s: State): State {
    if s.writer.Waiting? && s.queue == [] && s.queueClosed then s.(writer := Ended) else s
  }

  function Checked(cfg: Config, hand: Hand): Writer {
    if hand.last.stopping then Reporting(hand, Stopped(0))
    else if hand.job.Due(hand.last.checkedAt) then Reporting(hand, Expired)
    else if !cfg.writable then Reporting(hand, PortUnavailable)
    else Ready(hand)
  }

  function DoCheckJob(cfg: Config, s: State): State {
    if s.writer.Checking? then
      s.(writer := Checked(cfg, s.writer.hand.(last := Last(s.now, s.stopping, None, s.now))))
    else s
  }

  function DoStartWrite(s: State): State {
    if !s.writer.Ready? then s
    else
      var hand := s.writer.hand;
      s.(writer := Writing(hand.(calls := hand.calls + 1), 0),
         startsAfterStop := s.startsAfterStop + (if s.stopping then 1 else 0))
  }

  function DoPortAccepts(s: State, count: nat): State {
    if s.writer.Writing? && s.writer.written + count <= |s.writer.hand.job.data| then
      var from, data := s.writer.written, s.writer.hand.job.data;
      s.(writer := Writing(s.writer.hand, from + count), sent := s.sent + data[from..from + count])
    else s
  }

  /** Whether the port can end the write like this: complete only with
      everything out, and otherwise with something left, unless nothing was
      tried yet. A port that is not lossless may fail with everything taken. */
  predicate CanEnd(cfg: Config, s: State, ending: Ending)
    requires s.writer.Writing?
  {
    var written, length := s.writer.written, |s.writer.hand.job.data|;
    match ending
    case Complete => written == length
    case NotOpen => written == 0 || written < length
    case CutShort => s.writesCut && written < length
    case Broken => written < length || !cfg.lossless
  }

  function EndedWith(cfg: Config, was: Hand, written: nat, ending: Ending, now: Time): Writer {
    var hand := was.(last := was.last.(ending := Some(ending), endedAt := now));
    match ending
    case Complete => Reporting(hand, Written)
    case CutShort => Reporting(hand, Stopped(written))
    case Broken => Reporting(hand, Failed(written))
    case NotOpen =>
      if written > 0 then Reporting(hand, Failed(written))
      else if hand.closed >= cfg.attempts then Reporting(hand, PortUnavailable)
      else Awaiting(hand.(closed := hand.closed + 1))
  }

  function DoEndWrite(cfg: Config, s: State, ending: Ending): State {
    if s.writer.Writing? && CanEnd(cfg, s, ending) then
      s.(writer := EndedWith(cfg, s.writer.hand, s.writer.written, ending, s.now))
    else s
  }

  function DoPortAwaited(s: State): State {
    if s.writer.Awaiting? then s.(writer := Checking(s.writer.hand)) else s
  }

  function DoReport(s: State): State {
    if !s.writer.Reporting? then s
    else
      s.(writer := Clearing(s.writer.hand, s.writer.outcome), log := s.log + [FinalOf(s.writer.hand, s.writer.outcome)])
  }

  /** Under txMu the id leaves the active ones and, if it was written, joins
      the written ones, with the time the write ended. */
  function DoClear(cfg: Config, s: State): State {
    if !s.writer.Clearing? || !TxMuFree(s) then s
    else
      var id, at := s.writer.hand.job.id, s.writer.hand.last.endedAt;
      s.(writer := Waiting, active := s.active - {id},
         written := if s.writer.outcome.Written? then Remember(s.written, cfg.limit, id, at) else s.written)
  }

  // The shutdown: Run.

  function DoSetStopping(s: State): State {
    if s.phase.Running? && IntakeMuFree(s) then s.(phase := StopSet, stopping := true, stopAt := |s.log|) else s
  }

  function IntakeNext(s: State, step: IntakeStep): State {
    match step
    case Take(message) => DoTake(s, message)
    case CheckStopping => DoCheckStopping(s)
    case Announce => DoAnnounce(s)
    case PushJob => DoPushJob(s)
    case PushAnswer => DoPushAnswer(s)
    case Leave => DoLeave(s)
  }

  function WriterNext(cfg: Config, s: State, step: WriterStep): State {
    match step
    case PopJob => DoPopJob(s)
    case CheckJob => DoCheckJob(cfg, s)
    case StartWrite => DoStartWrite(s)
    case PortAccepts(count) => DoPortAccepts(s, count)
    case EndWrite(ending) => DoEndWrite(cfg, s, ending)
    case PortAwaited => DoPortAwaited(s)
    case Report => DoReport(s)
    case Clear => DoClear(cfg, s)
    case End => DoEnd(s)
  }

  function ShutdownNext(s: State, step: ShutdownStep): State {
    match step
    case SetStopping => DoSetStopping(s)
    case CloseQueue => if s.phase.StopSet? then s.(phase := QueueClosed, queueClosed := true) else s
    case CutWrites => if s.phase.QueueClosed? then s.(writesCut := true) else s
    case JoinWriters => if s.phase.QueueClosed? && s.writer.Ended? then s.(phase := WritersDone) else s
    case TellIntake => if s.phase.WritersDone? then s.(phase := IntakeTold) else s
    case JoinIntake => if s.phase.IntakeTold? && s.intake.Left? then s.(phase := IntakeDone) else s
    case CloseStatus => if s.phase.IntakeDone? then s.(phase := StatusClosed) else s
  }

  /** One step of one of the actors, or of the clock. A step that cannot happen leaves the
      state alone. */
  function Next(cfg: Config, s: State, action: Action): State {
    match action
    case ByIntake(step) => IntakeNext(s, step)
    case ByWriter(step) => WriterNext(cfg, s, step)
    case ByShutdown(step) => ShutdownNext(s, step)
    case ByClock(passes) => s.(now := s.now + passes)
  }

  function StepsOf(cfg: Config): (State, Action) -> State {
    (s, action) => Next(cfg, s, action)
  }

  /** Some run comes to s, whoever's turn it was at each step: every
      interleaving is one. */
  ghost predicate Reachable(cfg: Config, s: State) {
    Runs.Reachable(INITIAL, StepsOf(cfg), s)
  }

  lemma InitialIsReachable(cfg: Config)
    ensures Reachable(cfg, INITIAL)
  {
    Runs.InitialIsReachable(INITIAL, StepsOf(cfg));
  }

  lemma StepIsReachable(cfg: Config, s: State, action: Action, next: State)
    requires Reachable(cfg, s) && next == Next(cfg, s, action)
    ensures Reachable(cfg, next)
  {
    hide Next;
    Runs.NextIsReachable(INITIAL, StepsOf(cfg), s, action);
  }

  // What a log says.

  /** The serials of the immediate results, in order. */
  function Immediates(log: seq<Result>): seq<nat> {
    if log == [] then []
    else
      var last := log[|log| - 1];
      Immediates(log[..|log| - 1])
      + (match last
         case Accepted(job) => [job.serial]
         case Answered(serial, _) => [serial]
         case Final(_, _, _, _, _) => [])
  }

  function AcceptedJobs(log: seq<Result>): seq<Job> {
    if log == [] then []
    else
      var last := log[|log| - 1];
      AcceptedJobs(log[..|log| - 1]) + (if last.Accepted? then [last.job] else [])
  }

  function FinishedJobs(log: seq<Result>): seq<Job> {
    if log == [] then []
    else
      var last := log[|log| - 1];
      FinishedJobs(log[..|log| - 1]) + (if last.Final? then [last.job] else [])
  }

  /** The ids reported written, in order. */
  function WrittenHistory(log: seq<Result>): seq<Id> {
    if log == [] then []
    else
      var last := log[|log| - 1];
      WrittenHistory(log[..|log| - 1]) + (if last.Final? && last.outcome.Written? then [last.job.id] else [])
  }

  /** The part of a job's data that its result says the port took. */
  function Portion(job: Job, outcome: Outcome): Bytes {
    match outcome
    case Written => job.data
    case Failed(bytes) => if bytes <= |job.data| then job.data[..bytes] else []
    case Stopped(bytes) => if bytes <= |job.data| then job.data[..bytes] else []
    case Expired => []
    case PortUnavailable => []
  }

  /** What the results, in order, say went out. */
  function Portions(log: seq<Result>): Bytes {
    if log == [] then []
    else
      var last := log[|log| - 1];
      Portions(log[..|log| - 1]) + (if last.Final? then Portion(last.job, last.outcome) else [])
  }

  /** The serials 0 to count - 1. */
  function UpTo(count: nat): seq<nat> {
    seq(count, i => i)
  }
}
