/** Wherever a run has come to, the agent can still stop: its parts end one after
    the other, and nothing waits for something that does not come. */
module ShutdownProgress {
  import Runs
  import opened Shutdown

  ghost predicate LeadsTo(s: State, end: State) {
    Runs.Reachable(s, Next, end)
  }

  function StatusWork(status: StatusPublisher): nat {
    match status
    case Holding(_) => 8
    case Settled(_, _) => 7
    case DroppingOne(_) => 4
    case Watching => 3
    case Connecting => 2
    case Dropping => 1
    case StatusGone => 0
  }

  function RxWork(rx: RxPublisher): nat {
    match rx
    case RxHolding(_) => 3
    case RxSettled(_, _) => 2
    case RxIdle => 1
    case RxGone => 0
  }

  function KeepaliveWork(keepalive: Keepalive): nat {
    match keepalive
    case Sending => 2
    case KeepaliveIdle => 1
    case KeepaliveGone => 0
  }

  function ReaderWork(reader: Reader): nat {
    match reader
    case Owing(_) => 2
    case Reading => 1
    case ReaderGone => 0
  }

  /** What is left to do, if nothing more is pushed. */
  function Work(s: State): nat {
    10 * |s.items| + 10 * s.frames + StatusWork(s.status) + RxWork(s.rx) + KeepaliveWork(s.keepalive)
    + ReaderWork(s.reader) + (if s.writing then 1 else 0) + (if s.taking then 1 else 0) + (8 - s.phase.Rank())
  }

  function StatusTurn(status: StatusPublisher): StatusStep {
    match status
    case Holding(_) => PublishItem(true)
    case Settled(_, _) => RecordItem
    case DroppingOne(_) => RecordItem
    case Watching => Watch
    case Connecting => Connect(true)
    case Dropping => DropOne
    case StatusGone => DropOne
  }

  function RxTurn(s: State): RxStep {
    match s.rx
    case RxHolding(_) => PublishFrame(true, true)
    case RxSettled(_, _) => RecordFrame
    case RxIdle => if s.frames > 0 then TakeFrame else EndFrames
    case RxGone => EndFrames
  }

  /** Whose turn it is on the way to the end. */
  function Turn(s: State): Action {
    match s.phase
    case Running => if s.writing then ByPusher(WriterEnds) else ByRun(TellKeepalive)
    case KeepaliveTold =>
      if s.keepalive.Sending? then ByRun(EndKeepalive)
      else if s.keepalive.KeepaliveIdle? then ByRun(StopKeepalive)
      else ByRun(JoinKeepalive)
    case KeepaliveJoined =>
      if s.reader.Owing? then ByPusher(RecordEvicted)
      else if s.reader.Reading? then ByPusher(ReaderEnds)
      else ByRun(JoinReaders)
    case ReadersJoined => if s.taking then ByPusher(IntakeEnds) else ByRun(JoinIntake)
    case IntakeJoined => ByRun(CloseQueues)
    case QueuesClosed =>
      if !s.status.StatusGone? then ByStatus(StatusTurn(s.status))
      else if !s.rx.RxGone? then ByRx(RxTurn(s))
      else ByRun(JoinPublishers)
    case PublishersJoined => ByRun(SendOffline)
    case OfflineSent => ByRun(CloseConnection)
    case Stopped => ByRun(CloseConnection)
  }

  lemma StatusTurnGetsOn(s: State)
    requires InvGaveUp(s) && s.phase.Rank() >= 5 && !s.status.StatusGone?
    ensures Work(StatusNext(s, StatusTurn(s.status))) < Work(s)
  {
  }

  lemma RxTurnGetsOn(s: State)
    requires s.phase.Rank() >= 5 && !s.rx.RxGone?
    ensures Work(RxNext(s, RxTurn(s))) < Work(s)
  {
  }

  lemma PusherTurnGetsOn(s: State)
    requires Turn(s).ByPusher?
    ensures Work(PusherNext(s, Turn(s).pusher)) < Work(s)
  {
    hide DoPushResult, DoPushEvent;
  }

  lemma RunTurnGetsOn(s: State)
    requires Turn(s).ByRun? && !s.phase.Stopped?
    ensures Work(RunNext(s, Turn(s).run)) < Work(s)
  {
  }

  /** Every turn gets on. */
  lemma TurnGetsOn(s: State)
    requires InvGaveUp(s) && !s.phase.Stopped?
    ensures Work(Next(s, Turn(s))) < Work(s)
  {
    hide Work, InvGaveUp, StatusNext, RxNext, PusherNext, RunNext;
    match Turn(s)
    case ByStatus(_) => StatusTurnGetsOn(s);
    case ByRx(_) => RxTurnGetsOn(s);
    case ByPusher(_) => PusherTurnGetsOn(s);
    case ByRun(_) => RunTurnGetsOn(s);
  }

  lemma {:induction false} Finishes(s: State) returns (end: State)
    requires Reachable(s)
    ensures LeadsTo(s, end) && Reachable(end) && end.phase.Stopped?
    decreases Work(s)
  {
    hide Reachable, Next, Turn, Work, InvItems, InvRx, InvOrder, InvGaveUp, InvDrained;
    if s.phase.Stopped? {
      Runs.InitialIsReachable(s, Next);
      end := s;
    } else {
      ReachableKeepsInv(s);
      TurnGetsOn(s);
      StepIsReachable(s, Turn(s), Next(s, Turn(s)));
      end := Finishes(Next(s, Turn(s)));
      Runs.ReachableFromNext(Next, s, Turn(s), end);
    }
  }

  /** Wherever a run has come to, it can be brought to its end, with every
      reading recorded, the offline message attempted and the connection
      closed. */
  lemma StopCanComplete(s: State) returns (end: State)
    requires Reachable(s)
    ensures LeadsTo(s, end) && end.phase.Stopped?
    ensures EndsAs(end.trace, [OfflineAttempt, ConnectionClosed])
    ensures RxRecorded(end.trace) == From(1, end.rxFrames) && end.frames == 0
  {
    hide Reachable, LeadsTo, EndsAs, RxRecorded, RxCount, From;
    end := Finishes(s);
    OfflineIsLastButClose(end);
    ReadingsHaveOneOutcome(end);
  }
}
