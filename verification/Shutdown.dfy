/** The end of a run for one device: the status publisher, the rx publisher,
    the keepalive sender and Run's shutdown, as a transition system. Who still
    pushes (reader, writer, intake), the broker and the clock choose freely. */
module Shutdown {
  import Runs

  datatype Fate = Published | Dropped | Evicted

  datatype Outcome = RxPublished | RxFailed | RxDropped

  /** What can be seen from outside, in the order it happens: the record of
      each status item and each reading, keepalives as their publish starts,
      the offline message as it is attempted, and the connection's close. */
  datatype Trace =
    | ItemRecord(item: nat, fate: Fate)
    | RxRecord(seqNo: nat, outcome: Outcome)
    | KeepaliveStart
    | OfflineAttempt
    | ConnectionClosed

  /** The status publisher has seen an item and waits for the connection, or
      has one in hand, or has tried to publish it and owes the record, or empties
      the queue after it gave up. */
  datatype StatusPublisher =
    | Watching
    | Connecting
    | Holding(item: nat)
    | Settled(item: nat, fate: Fate)
    | Dropping
    | DroppingOne(item: nat)
    | StatusGone

  datatype RxPublisher = RxIdle | RxHolding(seqNo: nat) | RxSettled(seqNo: nat, outcome: Outcome) | RxGone

  /** The reader owes a record for an event its push evicted. */
  datatype Reader = Reading | Owing(item: nat) | ReaderGone

  datatype Keepalive = KeepaliveIdle | Sending | KeepaliveGone

  datatype Phase =
    | Running | KeepaliveTold | KeepaliveJoined | ReadersJoined | IntakeJoined | QueuesClosed | PublishersJoined
    | OfflineSent | Stopped
  {
    function Rank(): nat {
      match this
      case Running => 0
      case KeepaliveTold => 1
      case KeepaliveJoined => 2
      case ReadersJoined => 3
      case IntakeJoined => 4
      case QueuesClosed => 5
      case PublishersJoined => 6
      case OfflineSent => 7
      case Stopped => 8
    }
  }

  /** gaveUp says that the status publisher ended because the connection
      cannot be awaited, and gaveUpAt how many items had been pushed then;
      refusedEarly that it was refused while the intake was still there. evicted
      are the items pushes took from the queue, took those the broker took, and
      rxTried and rxTook the readings it was asked to take and took. */
  datatype State = State(
    phase: Phase,
    writing: bool,
    taking: bool,
    reader: Reader,
    keepalive: Keepalive,
    items: seq<nat>,
    pushed: nat,
    status: StatusPublisher,
    gaveUp: bool,
    gaveUpAt: nat,
    refusedEarly: bool,
    frames: nat,
    rx: RxPublisher,
    seqNo: nat,
    rxFrames: nat,
    published: nat,
    failures: nat,
    evicted: set<nat>,
    took: set<nat>,
    rxTried: set<nat>,
    rxTook: set<nat>,
    trace: seq<Trace>)

  const INITIAL :=
    State(Running, true, true, Reading, KeepaliveIdle, [], 0, Watching, false, 0, false, 0, RxIdle, 0, 0, 0, 0,
          {}, {}, {}, {}, [])

  datatype PusherStep =
    | PushResult(byWriter: bool)
    | PushEvent(evict: int)
    | RecordEvicted
    | SendFrame
    | WriterEnds
    | IntakeEnds
    | ReaderEnds

  datatype StatusStep = Watch | Connect(up: bool) | PublishItem(taken: bool) | RecordItem | DropOne

  datatype RxStep = TakeFrame | PublishFrame(tried: bool, taken: bool) | RecordFrame | EndFrames

  datatype RunStep =
    | StartKeepalive | EndKeepalive | StopKeepalive
    | TellKeepalive | JoinKeepalive | JoinReaders | JoinIntake | CloseQueues | JoinPublishers
    | SendOffline | CloseConnection

  datatype Action = ByPusher(pusher: PusherStep) | ByStatus(status: StatusStep) | ByRx(rx: RxStep) | ByRun(run: RunStep)

  function DoPushResult(s: State, byWriter: bool): State {
    if (if byWriter then s.writing else s.taking) then s.(items := s.items + [s.pushed], pushed := s.pushed + 1)
    else s
  }

  function DoPushEvent(s: State, evict: int): State {
    if s.reader.Reading? && 0 <= evict < |s.items| then
      s.(items := s.items[..evict] + s.items[evict + 1..] + [s.pushed], pushed := s.pushed + 1,
         reader := Owing(s.items[evict]), evicted := s.evicted + {s.items[evict]})
    else if s.reader.Reading? then s.(items := s.items + [s.pushed], pushed := s.pushed + 1)
    else s
  }

  function DoRecordEvicted(s: State): State {
    if s.reader.Owing? then s.(reader := Reading, trace := s.trace + [ItemRecord(s.reader.item, Evicted)]) else s
  }

  function PusherNext(s: State, step: PusherStep): State {
    match step
    case PushResult(byWriter) => DoPushResult(s, byWriter)
    case PushEvent(evict) => DoPushEvent(s, evict)
    case RecordEvicted => DoRecordEvicted(s)
    case SendFrame => if s.reader.Reading? then s.(frames := s.frames + 1) else s
    case WriterEnds => s.(writing := false)
    case IntakeEnds => s.(taking := false)
    case ReaderEnds => if s.reader.Reading? then s.(reader := ReaderGone) else s
  }

  // publishStatusMessages and dropStatusMessages.

  function DoWatch(s: State): State {
    if s.status.Watching? && (s.items != [] || s.phase.Rank() >= 5) then
      s.(status := if s.items != [] then Connecting else StatusGone)
    else s
  }

  function DoConnect(s: State, up: bool): State {
    if s.status.Connecting? && up && s.items != [] then s.(status := Holding(s.items[0]), items := s.items[1..])
    else if s.status.Connecting? then
      s.(status := if up then Watching else Dropping, refusedEarly := s.refusedEarly || (!up && s.phase.Rank() < 4))
    else s
  }

  /** The broker takes the item or not; it is not asked for one that comes too
      late. */
  function DoPublishItem(s: State, taken: bool): State {
    if s.status.Holding? then
      s.(status := Settled(s.status.item, if taken then Published else Dropped),
         took := s.took + (if taken then {s.status.item} else {}))
    else s
  }

  function DoRecordItem(s: State): State {
    if s.status.Settled? || s.status.DroppingOne? then
      s.(status := if s.status.Settled? then Watching else Dropping,
         trace := s.trace + [ItemRecord(s.status.item, if s.status.Settled? then s.status.fate else Dropped)])
    else s
  }

  function DoDropOne(s: State): State {
    if s.status.Dropping? && s.items != [] then s.(status := DroppingOne(s.items[0]), items := s.items[1..])
    else if s.status.Dropping? then s.(status := StatusGone, gaveUp := true, gaveUpAt := s.pushed)
    else s
  }

  function StatusNext(s: State, step: StatusStep): State {
    match step
    case Watch => DoWatch(s)
    case Connect(up) => DoConnect(s, up)
    case PublishItem(taken) => DoPublishItem(s, taken)
    case RecordItem => DoRecordItem(s)
    case DropOne => DoDropOne(s)
  }

  /** publishFrames and publishRx. */
  function RxNext(s: State, step: RxStep): State {
    match step
    case TakeFrame =>
      if s.rx.RxIdle? && s.frames > 0 then
        s.(frames := s.frames - 1, seqNo := s.seqNo + 1, rxFrames := s.rxFrames + 1, rx := RxHolding(s.seqNo + 1))
      else s
    case PublishFrame(tried, taken) =>
      if s.rx.RxHolding? then
        s.(rx := RxSettled(s.rx.seqNo, if !tried then RxDropped else if taken then RxPublished else RxFailed),
           rxTried := s.rxTried + (if tried then {s.rx.seqNo} else {}),
           rxTook := s.rxTook + (if tried && taken then {s.rx.seqNo} else {}))
      else s
    case RecordFrame =>
      if s.rx.RxSettled? then
        s.(rx := RxIdle, trace := s.trace + [RxRecord(s.rx.seqNo, s.rx.outcome)],
           published := s.published + (if s.rx.outcome.RxPublished? then 1 else 0),
           failures := s.failures + (if s.rx.outcome.RxPublished? then 0 else 1))
      else s
    case EndFrames => if s.rx.RxIdle? && s.frames == 0 && s.phase.Rank() >= 5 then s.(rx := RxGone) else s
  }

  /** How far Run gets by a step: each waits for what it joins. */
  function PhaseAfter(s: State, step: RunStep): Phase {
    match step
    case TellKeepalive => if s.phase.Running? && !s.writing then KeepaliveTold else s.phase
    case JoinKeepalive => if s.phase.KeepaliveTold? && s.keepalive.KeepaliveGone? then KeepaliveJoined else s.phase
    case JoinReaders => if s.phase.KeepaliveJoined? && s.reader.ReaderGone? then ReadersJoined else s.phase
    case JoinIntake => if s.phase.ReadersJoined? && !s.taking then IntakeJoined else s.phase
    case CloseQueues => if s.phase.IntakeJoined? then QueuesClosed else s.phase
    case JoinPublishers =>
      if s.phase.QueuesClosed? && s.status.StatusGone? && s.rx.RxGone? then PublishersJoined else s.phase
    case SendOffline => if s.phase.PublishersJoined? then OfflineSent else s.phase
    case CloseConnection => if s.phase.OfflineSent? then Stopped else s.phase
    case _ => s.phase
  }

  function KeepaliveAfter(s: State, step: RunStep): Keepalive {
    match step
    case StartKeepalive => if s.keepalive.KeepaliveIdle? then Sending else s.keepalive
    case EndKeepalive => if s.keepalive.Sending? then KeepaliveIdle else s.keepalive
    case StopKeepalive => if s.keepalive.KeepaliveIdle? && s.phase.Rank() >= 1 then KeepaliveGone else s.keepalive
    case _ => s.keepalive
  }

  function TraceAfter(s: State, step: RunStep): seq<Trace> {
    match step
    case StartKeepalive => if s.keepalive.KeepaliveIdle? then s.trace + [KeepaliveStart] else s.trace
    case SendOffline => if s.phase.PublishersJoined? then s.trace + [OfflineAttempt] else s.trace
    case CloseConnection => if s.phase.OfflineSent? then s.trace + [ConnectionClosed] else s.trace
    case _ => s.trace
  }

  /** The keepalive sender, and Run from the writers' end on. */
  function RunNext(s: State, step: RunStep): State {
    s.(phase := PhaseAfter(s, step), keepalive := KeepaliveAfter(s, step), trace := TraceAfter(s, step))
  }

  function Next(s: State, action: Action): State {
    match action
    case ByPusher(step) => PusherNext(s, step)
    case ByStatus(step) => StatusNext(s, step)
    case ByRx(step) => RxNext(s, step)
    case ByRun(step) => RunNext(s, step)
  }

  /** Some run comes to s, whoever's turn it was at each step: every
      interleaving is one. */
  ghost predicate Reachable(s: State) {
    Runs.Reachable(INITIAL, Next, s)
  }

  lemma InitialIsReachable()
    ensures Reachable(INITIAL)
  {
    Runs.InitialIsReachable(INITIAL, Next);
  }

  lemma StepIsReachable(s: State, action: Action, next: State)
    requires Reachable(s) && next == Next(s, action)
    ensures Reachable(next)
  {
    hide Next;
    Runs.NextIsReachable(INITIAL, Next, s, action);
  }

  // What a trace says.

  /** The status items recorded, in order. */
  function Recorded(trace: seq<Trace>): seq<nat> {
    if trace == [] then []
    else
      var last := trace[|trace| - 1];
      Recorded(trace[..|trace| - 1]) + (if last.ItemRecord? then [last.item] else [])
  }

  /** The sequence numbers of the readings recorded, in order. */
  function RxRecorded(trace: seq<Trace>): seq<nat> {
    if trace == [] then []
    else
      var last := trace[|trace| - 1];
      RxRecorded(trace[..|trace| - 1]) + (if last.RxRecord? then [last.seqNo] else [])
  }

  /** How many readings were recorded with an outcome that passes. */
  function RxCount(trace: seq<Trace>, published: bool): nat {
    if trace == [] then 0
    else
      var last := trace[|trace| - 1];
      RxCount(trace[..|trace| - 1], published)
      + (if last.RxRecord? && last.outcome.RxPublished? == published then 1 else 0)
  }

  lemma TraceOneMore(trace: seq<Trace>, entry: Trace)
    ensures Recorded(trace + [entry]) == Recorded(trace) + (if entry.ItemRecord? then [entry.item] else [])
    ensures RxRecorded(trace + [entry]) == RxRecorded(trace) + (if entry.RxRecord? then [entry.seqNo] else [])
    ensures forall p :: RxCount(trace + [entry], p) == RxCount(trace, p)
              + (if entry.RxRecord? && entry.outcome.RxPublished? == p then 1 else 0)
  {
    assert (trace + [entry])[..|trace|] == trace;
  }

  function From(first: nat, count: nat): seq<nat> {
    seq(count, i => first + i)
  }

  // Every status item has one record, or one place where it waits.

  function InHand(status: StatusPublisher): seq<nat> {
    match status
    case Holding(item) => [item]
    case Settled(item, _) => [item]
    case DroppingOne(item) => [item]
    case _ => []
  }

  function Owed(reader: Reader): seq<nat> {
    if reader.Owing? then [reader.item] else []
  }

  ghost predicate ItemsOf(pushed: nat, items: seq<nat>, hand: seq<nat>, owed: seq<nat>, trace: seq<Trace>) {
    multiset(Recorded(trace)) + multiset(items) + multiset(hand) + multiset(owed) == multiset(From(0, pushed))
  }

  ghost predicate InvItems(s: State) {
    ItemsOf(s.pushed, s.items, InHand(s.status), Owed(s.reader), s.trace)
  }

  lemma ItemsOfPush(pushed: nat, items: seq<nat>, hand: seq<nat>, owed: seq<nat>, trace: seq<Trace>)
    requires ItemsOf(pushed, items, hand, owed, trace)
    ensures ItemsOf(pushed + 1, items + [pushed], hand, owed, trace)
  {
    hide Recorded;
    assert From(0, pushed + 1) == From(0, pushed) + [pushed];
  }

  lemma ItemsOfEvict(pushed: nat, items: seq<nat>, hand: seq<nat>, trace: seq<Trace>, at: nat)
    requires at < |items| && ItemsOf(pushed, items, hand, [], trace)
    ensures ItemsOf(pushed, items[..at] + items[at + 1..], hand, [items[at]], trace)
  {
    hide Recorded, From;
    assert items == items[..at] + ([items[at]] + items[at + 1..]);
  }

  lemma ItemsOfPop(pushed: nat, items: seq<nat>, owed: seq<nat>, trace: seq<Trace>)
    requires items != [] && ItemsOf(pushed, items, [], owed, trace)
    ensures ItemsOf(pushed, items[1..], [items[0]], owed, trace)
  {
    hide Recorded, From;
    assert items == [items[0]] + items[1..];
  }

  lemma ItemsOfRecord(pushed: nat, items: seq<nat>, hand: seq<nat>, owed: seq<nat>, trace: seq<Trace>,
                      entry: Trace, fromHand: bool)
    requires ItemsOf(pushed, items, hand, owed, trace)
    requires entry.ItemRecord? ==> [entry.item] == if fromHand then hand else owed
    ensures ItemsOf(pushed, items, if entry.ItemRecord? && fromHand then [] else hand,
                    if entry.ItemRecord? && !fromHand then [] else owed, trace + [entry])
  {
    hide Recorded, From, RxRecorded, RxCount;
    TraceOneMore(trace, entry);
  }

  lemma ItemsKeptByPusher(s: State, step: PusherStep)
    requires InvItems(s)
    ensures InvItems(PusherNext(s, step))
  {
    hide ItemsOf;
    var hand := InHand(s.status);
    match step
    case PushResult(_) => ItemsOfPush(s.pushed, s.items, hand, Owed(s.reader), s.trace);
    case PushEvent(evict) =>
      if s.reader.Reading? {
        if 0 <= evict < |s.items| {
          ItemsOfEvict(s.pushed, s.items, hand, s.trace, evict);
          ItemsOfPush(s.pushed, s.items[..evict] + s.items[evict + 1..], hand, [s.items[evict]], s.trace);
        } else {
          ItemsOfPush(s.pushed, s.items, hand, [], s.trace);
        }
      }
    case RecordEvicted =>
      if s.reader.Owing? {
        ItemsOfRecord(s.pushed, s.items, hand, [s.reader.item], s.trace, ItemRecord(s.reader.item, Evicted), false);
      }
    case _ =>
  }

  lemma ItemsKeptByStatus(s: State, step: StatusStep)
    requires InvItems(s)
    ensures InvItems(StatusNext(s, step))
  {
    hide ItemsOf;
    match step
    case Connect(up) =>
      if s.status.Connecting? && s.items != [] { ItemsOfPop(s.pushed, s.items, Owed(s.reader), s.trace); }
    case DropOne =>
      if s.status.Dropping? && s.items != [] { ItemsOfPop(s.pushed, s.items, Owed(s.reader), s.trace); }
    case RecordItem =>
      if s.status.Settled? {
        ItemsOfRecord(s.pushed, s.items, [s.status.item], Owed(s.reader), s.trace,
                      ItemRecord(s.status.item, s.status.fate), true);
      } else if s.status.DroppingOne? {
        ItemsOfRecord(s.pushed, s.items, [s.status.item], Owed(s.reader), s.trace,
                      ItemRecord(s.status.item, Dropped), true);
      }
    case _ =>
  }

  lemma ItemsKeptByRx(s: State, step: RxStep)
    requires InvItems(s)
    ensures InvItems(RxNext(s, step))
  {
    hide ItemsOf;
    if step.RecordFrame? && s.rx.RxSettled? {
      ItemsOfRecord(s.pushed, s.items, InHand(s.status), Owed(s.reader), s.trace,
                    RxRecord(s.rx.seqNo, s.rx.outcome), true);
    }
  }

  lemma ItemsKeptByRun(s: State, step: RunStep)
    requires InvItems(s)
    ensures InvItems(RunNext(s, step))
  {
    hide ItemsOf;
    var next := RunNext(s, step);
    if next.trace != s.trace {
      ItemsOfRecord(s.pushed, s.items, InHand(s.status), Owed(s.reader), s.trace, next.trace[|s.trace|], true);
    }
  }

  // The readings.

  ghost predicate RxOf(seqNo: nat, rx: RxPublisher, rxFrames: nat, published: nat, failures: nat, trace: seq<Trace>) {
    var open := rx.RxHolding? || rx.RxSettled?;
    var done := if open then seqNo - 1 else seqNo;
    && done >= 0
    && (open ==> rx.seqNo == seqNo)
    && RxRecorded(trace) == From(1, done)
    && published == RxCount(trace, true) && failures == RxCount(trace, false)
    && done == published + failures
    && rxFrames == seqNo
  }

  ghost predicate InvRx(s: State) {
    RxOf(s.seqNo, s.rx, s.rxFrames, s.published, s.failures, s.trace)
  }

  lemma RxOfRecord(seqNo: nat, rx: RxPublisher, rxFrames: nat, published: nat, failures: nat,
                   trace: seq<Trace>, entry: Trace)
    requires RxOf(seqNo, rx, rxFrames, published, failures, trace)
    requires entry.RxRecord? ==> rx.RxSettled? && entry.seqNo == rx.seqNo
    ensures RxOf(seqNo, if entry.RxRecord? then RxIdle else rx, rxFrames,
                 published + (if entry.RxRecord? && entry.outcome.RxPublished? then 1 else 0),
                 failures + (if entry.RxRecord? && !entry.outcome.RxPublished? then 1 else 0), trace + [entry])
  {
    hide Recorded, RxRecorded, RxCount;
    TraceOneMore(trace, entry);
    if entry.RxRecord? {
      assert From(1, seqNo) == From(1, seqNo - 1) + [seqNo];
    } else {
      assert RxRecorded(trace) + [] == RxRecorded(trace);
    }
  }

  lemma RxKeptByRx(s: State, step: RxStep)
    requires InvRx(s)
    ensures InvRx(RxNext(s, step))
  {
    hide RxRecorded, RxCount, From;
    if step.RecordFrame? && s.rx.RxSettled? {
      hide RxOf;
      RxOfRecord(s.seqNo, s.rx, s.rxFrames, s.published, s.failures, s.trace, RxRecord(s.rx.seqNo, s.rx.outcome));
    }
  }

  lemma RxKeptByPusher(s: State, step: PusherStep)
    requires InvRx(s)
    ensures InvRx(PusherNext(s, step))
  {
    hide RxOf;
    if step.RecordEvicted? && s.reader.Owing? {
      RxOfRecord(s.seqNo, s.rx, s.rxFrames, s.published, s.failures, s.trace, ItemRecord(s.reader.item, Evicted));
    }
  }

  lemma RxKeptByStatus(s: State, step: StatusStep)
    requires InvRx(s)
    ensures InvRx(StatusNext(s, step))
  {
    hide RxOf;
    var next := StatusNext(s, step);
    if step.RecordItem? && next.trace != s.trace {
      RxOfRecord(s.seqNo, s.rx, s.rxFrames, s.published, s.failures, s.trace, next.trace[|s.trace|]);
    }
  }

  lemma RxKeptByRun(s: State, step: RunStep)
    requires InvRx(s)
    ensures InvRx(RunNext(s, step))
  {
    hide RxOf;
    var next := RunNext(s, step);
    if next.trace != s.trace {
      RxOfRecord(s.seqNo, s.rx, s.rxFrames, s.published, s.failures, s.trace, next.trace[|s.trace|]);
    }
  }

  // Who is gone when.

  ghost predicate Quiet(entry: Trace) { !entry.OfflineAttempt? && !entry.ConnectionClosed? }

  /** What the trace ends with: nothing yet, the offline message, or that and
      the close. */
  function Ending(phase: Phase): seq<Trace> {
    if phase.Stopped? then [OfflineAttempt, ConnectionClosed]
    else if phase.OfflineSent? then [OfflineAttempt]
    else []
  }

  /** Everything before the ending is about items, readings and keepalives. */
  ghost predicate EndsAs(trace: seq<Trace>, ending: seq<Trace>) {
    && |ending| <= |trace|
    && trace[|trace| - |ending|..] == ending
    && forall i :: 0 <= i < |trace| - |ending| ==> Quiet(trace[i])
  }

  ghost predicate InvOrder(s: State) {
    && (s.phase.Rank() >= 1 ==> !s.writing)
    && (s.phase.Rank() >= 2 ==> s.keepalive.KeepaliveGone?)
    && (s.keepalive.KeepaliveGone? ==> s.phase.Rank() >= 1)
    && (s.phase.Rank() >= 3 ==> s.reader.ReaderGone?)
    && (s.phase.Rank() >= 4 ==> !s.taking)
    && (s.phase.Rank() >= 6 ==> s.status.StatusGone? && s.rx.RxGone?)
    && (s.rx.RxGone? ==> s.frames == 0 && s.phase.Rank() >= 5)
    && EndsAs(s.trace, Ending(s.phase))
  }

  /** The publisher that gave up leaves what is pushed later where it is. */
  ghost predicate InvGaveUp(s: State) {
    && (s.gaveUp ==> s.status.StatusGone? && s.gaveUpAt <= s.pushed)
    && (s.gaveUp ==> (s.items == [] <==> s.pushed == s.gaveUpAt))
    && (s.status.StatusGone? && !s.gaveUp ==> s.items == [] && s.phase.Rank() >= 5)
    && (s.status.Connecting? ==> s.items != [])
  }

  lemma EndsAsOneMore(trace: seq<Trace>, ending: seq<Trace>, entry: Trace)
    requires EndsAs(trace, ending)
    ensures Quiet(entry) && ending == [] ==> EndsAs(trace + [entry], [])
    ensures EndsAs(trace + [entry], ending + [entry])
  {
    assert (trace + [entry])[|trace| - |ending|..] == ending + [entry];
  }

  lemma OrderKeptByPusher(s: State, step: PusherStep)
    requires InvOrder(s)
    ensures InvOrder(PusherNext(s, step))
  {
    hide EndsAs;
    if step.RecordEvicted? && s.reader.Owing? {
      EndsAsOneMore(s.trace, Ending(s.phase), ItemRecord(s.reader.item, Evicted));
    }
  }

  lemma OrderKeptByWatch(s: State)
    requires InvOrder(s)
    ensures InvOrder(DoWatch(s))
  {
    hide EndsAs, Ending;
  }

  lemma OrderKeptByConnect(s: State, up: bool)
    requires InvOrder(s)
    ensures InvOrder(DoConnect(s, up))
  {
    hide EndsAs, Ending;
  }

  lemma OrderKeptByDropOne(s: State)
    requires InvOrder(s)
    ensures InvOrder(DoDropOne(s))
  {
    hide EndsAs, Ending;
  }

  lemma OrderKeptByRecord(s: State)
    requires InvOrder(s)
    ensures InvOrder(DoRecordItem(s))
  {
    hide EndsAs;
    if s.status.Settled? || s.status.DroppingOne? {
      assert Ending(s.phase) == [];
      EndsAsOneMore(s.trace, [], ItemRecord(s.status.item, if s.status.Settled? then s.status.fate else Dropped));
    }
  }

  lemma OrderKeptByPublish(s: State, taken: bool)
    requires InvOrder(s)
    ensures InvOrder(DoPublishItem(s, taken))
  {
    hide EndsAs, Ending;
  }

  lemma OrderKeptByStatus(s: State, step: StatusStep)
    requires InvOrder(s)
    ensures InvOrder(StatusNext(s, step))
  {
    hide InvOrder, DoWatch, DoConnect, DoPublishItem, DoRecordItem, DoDropOne;
    match step
    case Watch => OrderKeptByWatch(s);
    case Connect(up) => OrderKeptByConnect(s, up);
    case PublishItem(taken) => OrderKeptByPublish(s, taken);
    case RecordItem => OrderKeptByRecord(s);
    case DropOne => OrderKeptByDropOne(s);
  }

  lemma OrderKeptByRx(s: State, step: RxStep)
    requires InvOrder(s)
    ensures InvOrder(RxNext(s, step))
  {
    hide EndsAs;
    if step.RecordFrame? && s.rx.RxSettled? {
      EndsAsOneMore(s.trace, Ending(s.phase), RxRecord(s.rx.seqNo, s.rx.outcome));
    }
  }

  lemma OrderKeptByRun(s: State, step: RunStep)
    requires InvOrder(s)
    ensures InvOrder(RunNext(s, step))
  {
    hide EndsAs;
    match step
    case StartKeepalive => EndsAsOneMore(s.trace, Ending(s.phase), KeepaliveStart);
    case SendOffline =>
      EndsAsOneMore(s.trace, Ending(s.phase), OfflineAttempt);
      assert [] + [OfflineAttempt] == [OfflineAttempt];
    case CloseConnection =>
      EndsAsOneMore(s.trace, Ending(s.phase), ConnectionClosed);
      assert [OfflineAttempt] + [ConnectionClosed] == [OfflineAttempt, ConnectionClosed];
    case _ =>
  }

  lemma GaveUpKeptByPusher(s: State, step: PusherStep)
    requires InvOrder(s) && InvGaveUp(s)
    ensures InvGaveUp(PusherNext(s, step))
  {
    hide EndsAs, Ending;
  }

  lemma GaveUpKeptByStatus(s: State, step: StatusStep)
    requires InvGaveUp(s)
    ensures InvGaveUp(StatusNext(s, step))
  {
  }

  lemma GaveUpKeptByRx(s: State, step: RxStep)
    requires InvGaveUp(s)
    ensures InvGaveUp(RxNext(s, step))
  {
  }

  lemma GaveUpKeptByRun(s: State, step: RunStep)
    requires InvGaveUp(s)
    ensures InvGaveUp(RunNext(s, step))
  {
  }

  /** Refused only once nobody pushes any more, the publisher leaves nothing. */
  ghost predicate InvDrained(s: State) {
    && ((s.status.Dropping? || s.status.DroppingOne? || s.gaveUp) && !s.refusedEarly ==> s.phase.Rank() >= 4)
    && (s.gaveUp && !s.refusedEarly ==> s.pushed == s.gaveUpAt)
  }

  lemma DrainedKeptByPusher(s: State, step: PusherStep)
    requires InvOrder(s) && InvDrained(s)
    ensures InvDrained(PusherNext(s, step))
  {
    hide EndsAs;
  }

  lemma DrainedKeptByStatus(s: State, step: StatusStep)
    requires InvDrained(s)
    ensures InvDrained(StatusNext(s, step))
  {
  }

  lemma DrainedKeptByRx(s: State, step: RxStep)
    requires InvDrained(s)
    ensures InvDrained(RxNext(s, step))
  {
  }

  lemma DrainedKeptByRun(s: State, step: RunStep)
    requires InvDrained(s)
    ensures InvDrained(RunNext(s, step))
  {
  }

  ghost predicate Inv(s: State) {
    InvItems(s) && InvRx(s) && InvOrder(s) && InvGaveUp(s) && InvDrained(s)
  }

  lemma InvKept(s: State, action: Action)
    requires Inv(s)
    ensures Inv(Next(s, action))
  {
    hide InvItems, InvRx, InvOrder, InvGaveUp, InvDrained, PusherNext, StatusNext, RxNext, RunNext;
    match action
    case ByPusher(step) =>
      ItemsKeptByPusher(s, step);
      RxKeptByPusher(s, step);
      OrderKeptByPusher(s, step);
      GaveUpKeptByPusher(s, step);
      DrainedKeptByPusher(s, step);
    case ByStatus(step) =>
      ItemsKeptByStatus(s, step);
      RxKeptByStatus(s, step);
      OrderKeptByStatus(s, step);
      GaveUpKeptByStatus(s, step);
      DrainedKeptByStatus(s, step);
    case ByRx(step) =>
      ItemsKeptByRx(s, step);
      RxKeptByRx(s, step);
      OrderKeptByRx(s, step);
      GaveUpKeptByRx(s, step);
      DrainedKeptByRx(s, step);
    case ByRun(step) =>
      ItemsKeptByRun(s, step);
      RxKeptByRun(s, step);
      OrderKeptByRun(s, step);
      GaveUpKeptByRun(s, step);
      DrainedKeptByRun(s, step);
  }

  lemma InvInitially()
    ensures Inv(INITIAL)
  {
    assert From(0, 0) == [] && From(1, 0) == [];
  }

  lemma ReachableKeepsInv(s: State)
    requires Reachable(s)
    ensures Inv(s)
  {
    hide Inv, Next;
    forall t, action | Inv(t)
      ensures Inv(Next(t, action))
    {
      InvKept(t, action);
    }
    InvInitially();
    Runs.InvariantHolds(INITIAL, Next, Inv, s);
  }

  // That records are true.

  /** No place holds what another one holds. */
  lemma OnePlace(s: State, item: nat)
    requires InvItems(s)
    ensures multiset(s.items)[item] + multiset(InHand(s.status))[item] + multiset(Owed(s.reader))[item] <= 1
    ensures item in s.items || item in InHand(s.status) || item in Owed(s.reader) ==> item < s.pushed
  {
    hide Recorded, InHand, Owed;
    var waiting := multiset(s.items) + multiset(InHand(s.status)) + multiset(Owed(s.reader));
    var places := multiset(Recorded(s.trace)) + waiting;
    assert places == multiset(From(0, s.pushed));
    NumberedOnce(s.pushed, item);
  }

  lemma {:induction false} NumberedOnce(count: nat, item: nat)
    ensures multiset(From(0, count))[item] == if item < count then 1 else 0
  {
    if count > 0 {
      NumberedOnce(count - 1, item);
      assert From(0, count) == From(0, count - 1) + [count - 1];
    }
  }

  /** What happened to items and readings. */
  datatype Deeds = Deeds(evicted: set<nat>, took: set<nat>, rxTried: set<nat>, rxTook: set<nat>) {
    /** Neither taken by the broker nor evicted. */
    predicate Untouched(item: nat) { item !in took && item !in evicted }
  }

  function DeedsOf(s: State): Deeds { Deeds(s.evicted, s.took, s.rxTried, s.rxTook) }

  /** A record's fate is what happened to the item. */
  ghost predicate IsTrue(deeds: Deeds, entry: Trace) {
    match entry
    case ItemRecord(item, fate) =>
      (fate.Published? <==> item in deeds.took) && (fate.Evicted? <==> item in deeds.evicted)
    case RxRecord(seqNo, outcome) =>
      (outcome.RxPublished? <==> seqNo in deeds.rxTook) && (outcome.RxDropped? <==> seqNo !in deeds.rxTried)
    case _ => true
  }

  ghost predicate AllTrue(deeds: Deeds, trace: seq<Trace>) {
    forall k :: 0 <= k < |trace| ==> IsTrue(deeds, trace[k])
  }

  ghost predicate AllUntouched(deeds: Deeds, items: seq<nat>) {
    forall k :: 0 <= k < |items| ==> deeds.Untouched(items[k])
  }

  /** Nothing has happened to what is still to come. */
  ghost predicate OnlyPast(deeds: Deeds, pushed: nat, seqNo: nat) {
    && (forall item :: item in deeds.took || item in deeds.evicted ==> item < pushed)
    && (forall n :: n in deeds.rxTried || n in deeds.rxTook ==> n <= seqNo)
  }

  /** What is in hand is untouched, or settled truly. */
  ghost predicate StatusTrue(deeds: Deeds, status: StatusPublisher) {
    && (status.Holding? || status.DroppingOne? ==> deeds.Untouched(status.item))
    && (status.Settled? ==> !status.fate.Evicted? && IsTrue(deeds, ItemRecord(status.item, status.fate)))
  }

  ghost predicate OwedTrue(deeds: Deeds, reader: Reader) {
    reader.Owing? ==> reader.item in deeds.evicted && reader.item !in deeds.took
  }

  ghost predicate RxTrue(deeds: Deeds, rx: RxPublisher, seqNo: nat) {
    && (rx.RxHolding? ==> rx.seqNo == seqNo && rx.seqNo !in deeds.rxTried && rx.seqNo !in deeds.rxTook)
    && (rx.RxSettled? ==> IsTrue(deeds, RxRecord(rx.seqNo, rx.outcome)))
  }

  /** What is waiting is untouched, what is settled is settled truly, and so is
      every record. */
  ghost predicate InvTruth(s: State) {
    && AllTrue(DeedsOf(s), s.trace)
    && AllUntouched(DeedsOf(s), s.items)
    && OnlyPast(DeedsOf(s), s.pushed, s.seqNo)
    && StatusTrue(DeedsOf(s), s.status)
    && OwedTrue(DeedsOf(s), s.reader)
    && RxTrue(DeedsOf(s), s.rx, s.seqNo)
  }

  lemma WaitingIsUnrecorded(s: State, item: nat)
    requires InvItems(s) && (item in s.items || item in InHand(s.status) || item in Owed(s.reader))
    ensures item !in Recorded(s.trace)
  {
    hide Recorded, InHand, Owed, From;
    var waiting := multiset(s.items) + multiset(InHand(s.status)) + multiset(Owed(s.reader));
    assert item in waiting;
    assert (multiset(Recorded(s.trace)) + waiting)[item] <= 1 by {
      assert multiset(Recorded(s.trace)) + waiting == multiset(From(0, s.pushed));
      NumberedOnce(s.pushed, item);
    }
  }

  /** An item still waiting has no record yet. */
  lemma WaitingHasNoRecord(s: State, item: nat)
    requires InvItems(s) && (item in s.items || item in InHand(s.status) || item in Owed(s.reader))
    ensures forall k :: 0 <= k < |s.trace| && s.trace[k].ItemRecord? ==> s.trace[k].item != item
  {
    hide Recorded, InHand, Owed;
    WaitingIsUnrecorded(s, item);
    forall k | 0 <= k < |s.trace| && s.trace[k].ItemRecord?
      ensures s.trace[k].item != item
    {
      RecordIsCounted(s.trace, k);
    }
  }

  /** The reading in hand has no record yet. */
  lemma ReadingHasNoRecord(s: State)
    requires InvRx(s) && s.rx.RxHolding?
    ensures forall k :: 0 <= k < |s.trace| && s.trace[k].RxRecord? ==> s.trace[k].seqNo != s.rx.seqNo
  {
    hide RxRecorded, RxCount;
    forall k | 0 <= k < |s.trace| && s.trace[k].RxRecord?
      ensures s.trace[k].seqNo != s.rx.seqNo
    {
      RxRecordIsCounted(s.trace, k);
    }
  }

  lemma {:induction false} RecordIsCounted(trace: seq<Trace>, k: nat)
    requires k < |trace| && trace[k].ItemRecord?
    ensures trace[k].item in Recorded(trace)
  {
    if k < |trace| - 1 {
      RecordIsCounted(trace[..|trace| - 1], k);
    }
  }

  lemma {:induction false} RxRecordIsCounted(trace: seq<Trace>, k: nat)
    requires k < |trace| && trace[k].RxRecord?
    ensures trace[k].seqNo in RxRecorded(trace)
  {
    if k < |trace| - 1 {
      RxRecordIsCounted(trace[..|trace| - 1], k);
    }
  }

  lemma AllTrueOneMore(deeds: Deeds, trace: seq<Trace>, entry: Trace)
    requires AllTrue(deeds, trace) && IsTrue(deeds, entry)
    ensures AllTrue(deeds, trace + [entry])
  {
    hide IsTrue;
  }

  /** One deed more, to an item that has no record and no other place. */
  lemma TrueWithItemTouched(s: State, after: Deeds, item: nat)
    requires InvItems(s) && InvTruth(s) && (item in s.items || item in InHand(s.status))
    requires after.rxTried == s.rxTried && after.rxTook == s.rxTook
    requires after.took == s.took || after.took == s.took + {item}
    requires after.evicted == s.evicted || after.evicted == s.evicted + {item}
    ensures AllTrue(after, s.trace) && OnlyPast(after, s.pushed, s.seqNo)
    ensures forall other :: other != item && DeedsOf(s).Untouched(other) ==> after.Untouched(other)
    ensures RxTrue(after, s.rx, s.seqNo)
    ensures item !in InHand(s.status) ==> StatusTrue(after, s.status)
    ensures OwedTrue(after, s.reader)
  {
    hide ItemsOf;
    WaitingHasNoRecord(s, item);
    OnePlace(s, item);
    assert item in multiset(s.items) || item in multiset(InHand(s.status));
    assert item !in Owed(s.reader) by { assert multiset(Owed(s.reader))[item] == 0; }
    forall k | 0 <= k < |s.trace|
      ensures IsTrue(after, s.trace[k])
    {
      assert IsTrue(DeedsOf(s), s.trace[k]);
    }
  }

  /** What is left once an item that is there only once is gone. */
  lemma LeftWithout(items: seq<nat>, at: nat, k: nat)
    requires at < |items| && multiset(items)[items[at]] <= 1
    requires k < |items[..at] + items[at + 1..]|
    ensures (items[..at] + items[at + 1..])[k] in items && (items[..at] + items[at + 1..])[k] != items[at]
  {
    var left := items[..at] + items[at + 1..];
    assert items == items[..at] + ([items[at]] + items[at + 1..]);
    assert multiset(items) == multiset(left) + multiset{items[at]};
    assert left[k] in multiset(left);
  }

  lemma UntouchedAfterEviction(before: Deeds, after: Deeds, items: seq<nat>, at: nat, more: nat)
    requires AllUntouched(before, items) && at < |items| && multiset(items)[items[at]] <= 1
    requires forall other :: other != items[at] && before.Untouched(other) ==> after.Untouched(other)
    requires after.Untouched(more)
    ensures AllUntouched(after, items[..at] + items[at + 1..] + [more])
  {
    var left := items[..at] + items[at + 1..];
    forall k | 0 <= k < |left|
      ensures after.Untouched(left[k])
    {
      LeftWithout(items, at, k);
    }
  }

  lemma TruthKeptByEviction(s: State, evict: nat)
    requires InvItems(s) && InvTruth(s) && s.reader.Reading? && evict < |s.items|
    ensures InvTruth(PusherNext(s, PushEvent(evict)))
  {
    var item, next := s.items[evict], PusherNext(s, PushEvent(evict));
    assert item in multiset(s.items);
    OnePlace(s, item);
    assert item !in InHand(s.status) by { assert multiset(InHand(s.status))[item] == 0; }
    assert multiset(s.items)[item] <= 1;
    hide ItemsOf, AllTrue, OnlyPast, RxTrue, StatusTrue, AllUntouched, InHand, Owed;
    TrueWithItemTouched(s, DeedsOf(next), item);
    OnePushMore(DeedsOf(next), s.pushed, s.seqNo);
    UntouchedAfterEviction(DeedsOf(s), DeedsOf(next), s.items, evict, s.pushed);
  }

  lemma OnePushMore(deeds: Deeds, pushed: nat, seqNo: nat)
    requires OnlyPast(deeds, pushed, seqNo)
    ensures OnlyPast(deeds, pushed + 1, seqNo) && OnlyPast(deeds, pushed, seqNo + 1) && deeds.Untouched(pushed)
    ensures seqNo + 1 !in deeds.rxTried && seqNo + 1 !in deeds.rxTook
  {
  }

  lemma TruthKeptByPusher(s: State, step: PusherStep)
    requires InvItems(s) && InvTruth(s)
    ensures InvTruth(PusherNext(s, step))
  {
    hide AllTrue, ItemsOf, OnlyPast, RxTrue, StatusTrue;
    if step.PushEvent? && s.reader.Reading? && 0 <= step.evict < |s.items| {
      hide InvTruth;
      TruthKeptByEviction(s, step.evict);
    } else {
      OnePushMore(DeedsOf(s), s.pushed, s.seqNo);
      if step.RecordEvicted? && s.reader.Owing? {
        AllTrueOneMore(DeedsOf(s), s.trace, ItemRecord(s.reader.item, Evicted));
      }
    }
  }

  lemma TruthKeptByPublish(s: State, taken: bool)
    requires InvItems(s) && InvTruth(s)
    ensures InvTruth(DoPublishItem(s, taken))
  {
    hide ItemsOf, AllTrue, OnlyPast, RxTrue, OwedTrue;
    if s.status.Holding? {
      var item, next := s.status.item, DoPublishItem(s, taken);
      TrueWithItemTouched(s, DeedsOf(next), item);
      OnePlace(s, item);
      assert multiset(InHand(s.status))[item] == 1;
      assert item !in s.items by { assert multiset(s.items)[item] == 0; }
      forall k | 0 <= k < |s.items|
        ensures DeedsOf(next).Untouched(s.items[k])
      {
        assert s.items[k] in s.items;
      }
    }
  }

  lemma TruthKeptByRecord(s: State)
    requires InvTruth(s)
    ensures InvTruth(DoRecordItem(s))
  {
    hide AllTrue, AllUntouched, OnlyPast, RxTrue, OwedTrue;
    if s.status.Settled? || s.status.DroppingOne? {
      AllTrueOneMore(DeedsOf(s), s.trace,
                     ItemRecord(s.status.item, if s.status.Settled? then s.status.fate else Dropped));
    }
  }

  lemma UntouchedRest(deeds: Deeds, items: seq<nat>)
    requires AllUntouched(deeds, items) && items != []
    ensures AllUntouched(deeds, items[1..]) && deeds.Untouched(items[0])
  {
  }

  lemma TruthKeptByTake(s: State, up: bool)
    requires InvTruth(s)
    ensures InvTruth(DoConnect(s, up)) && InvTruth(DoDropOne(s)) && InvTruth(DoWatch(s))
  {
    hide AllTrue, AllUntouched, OnlyPast, RxTrue, OwedTrue;
    if s.items != [] {
      UntouchedRest(DeedsOf(s), s.items);
    }
  }

  lemma TruthKeptByStatus(s: State, step: StatusStep)
    requires InvItems(s) && InvTruth(s)
    ensures InvTruth(StatusNext(s, step))
  {
    hide InvTruth, InvItems, DoWatch, DoConnect, DoPublishItem, DoRecordItem, DoDropOne;
    match step
    case PublishItem(taken) => TruthKeptByPublish(s, taken);
    case RecordItem => TruthKeptByRecord(s);
    case Connect(up) => TruthKeptByTake(s, up);
    case Watch => TruthKeptByTake(s, true);
    case DropOne => TruthKeptByTake(s, true);
  }

  lemma TruthKeptByPublishFrame(s: State, tried: bool, taken: bool)
    requires InvRx(s) && InvTruth(s)
    ensures InvTruth(RxNext(s, PublishFrame(tried, taken)))
  {
    hide RxOf;
    if s.rx.RxHolding? {
      ReadingHasNoRecord(s);
      var next := RxNext(s, PublishFrame(tried, taken));
      forall k | 0 <= k < |s.trace|
        ensures IsTrue(DeedsOf(next), s.trace[k])
      {
        assert IsTrue(DeedsOf(s), s.trace[k]);
      }
    }
  }

  lemma TruthKeptByRx(s: State, step: RxStep)
    requires InvRx(s) && InvTruth(s)
    ensures InvTruth(RxNext(s, step))
  {
    if step.PublishFrame? {
      hide InvTruth, InvRx, RxNext;
      TruthKeptByPublishFrame(s, step.tried, step.taken);
    } else {
      hide AllTrue, AllUntouched, OnlyPast, StatusTrue, OwedTrue, RxOf;
      OnePushMore(DeedsOf(s), s.pushed, s.seqNo);
      if step.RecordFrame? && s.rx.RxSettled? {
        AllTrueOneMore(DeedsOf(s), s.trace, RxRecord(s.rx.seqNo, s.rx.outcome));
      }
    }
  }

  lemma TruthKeptByRun(s: State, step: RunStep)
    requires InvTruth(s)
    ensures InvTruth(RunNext(s, step))
  {
    hide AllTrue, AllUntouched, OnlyPast, StatusTrue, OwedTrue, RxTrue;
    match step
    case StartKeepalive => AllTrueOneMore(DeedsOf(s), s.trace, KeepaliveStart);
    case SendOffline => AllTrueOneMore(DeedsOf(s), s.trace, OfflineAttempt);
    case CloseConnection => AllTrueOneMore(DeedsOf(s), s.trace, ConnectionClosed);
    case _ =>
  }

  lemma ReachableKeepsTruth(s: State)
    requires Reachable(s)
    ensures Inv(s) && InvTruth(s)
  {
    hide Inv, InvTruth;
    forall t, action | Inv(t) && InvTruth(t)
      ensures Inv(Next(t, action)) && InvTruth(Next(t, action))
    {
      InvKept(t, action);
      TruthKept(t, action);
    }
    hide Next;
    InvInitially();
    assert InvTruth(INITIAL) by { TruthInitially(); }
    Runs.InvariantHolds(INITIAL, Next, (t: State) => Inv(t) && InvTruth(t), s);
  }

  lemma TruthKept(s: State, action: Action)
    requires Inv(s) && InvTruth(s)
    ensures InvTruth(Next(s, action))
  {
    hide InvItems, InvRx, InvOrder, InvGaveUp, InvDrained, InvTruth, PusherNext, StatusNext, RxNext, RunNext;
    match action
    case ByPusher(step) => TruthKeptByPusher(s, step);
    case ByStatus(step) => TruthKeptByStatus(s, step);
    case ByRx(step) => TruthKeptByRx(s, step);
    case ByRun(step) => TruthKeptByRun(s, step);
  }

  lemma TruthInitially()
    ensures InvTruth(INITIAL)
  {
  }

  // What a run promises.

  /** The trace of every run that has come to its end is records and keepalives
      and then the offline attempt and the close, in that order: no keepalive
      starts after the offline message, and nothing is recorded after it. */
  lemma OfflineIsLastButClose(s: State)
    requires Reachable(s)
    ensures EndsAs(s.trace, Ending(s.phase))
    ensures s.keepalive.KeepaliveGone? ==> s.phase.Rank() >= 1
    ensures s.phase.Rank() >= 7 ==> s.keepalive.KeepaliveGone? && s.status.StatusGone? && s.rx.RxGone?
  {
    ReachableKeepsInv(s);
  }

  /** Every reading taken is numbered without a gap from 1, and each has exactly
      one outcome, before the offline message. */
  lemma ReadingsHaveOneOutcome(s: State)
    requires Reachable(s)
    ensures var open := if s.rx.RxHolding? || s.rx.RxSettled? then 1 else 0;
            && s.rxFrames == s.published + s.failures + open
            && RxRecorded(s.trace) == From(1, s.published + s.failures)
            && s.published == RxCount(s.trace, true) && s.failures == RxCount(s.trace, false)
            && (s.phase.Rank() >= 6 ==> open == 0 && s.frames == 0)
  {
    hide RxRecorded, RxCount, From, InvItems, InvGaveUp, EndsAs;
    ReachableKeepsInv(s);
  }

  /** Once the publishers are done, every status item pushed has exactly one
      record, published, dropped or evicted - if and only if none was pushed
      after the publisher gave up waiting for the connection. */
  lemma ItemsHaveOneRecordUnlessStranded(s: State)
    requires Reachable(s) && s.phase.Rank() >= 6
    ensures multiset(Recorded(s.trace)) == multiset(From(0, s.pushed)) <==> !(s.gaveUp && s.pushed > s.gaveUpAt)
  {
    hide Recorded, From;
    ReachableKeepsInv(s);
    assert multiset(Recorded(s.trace)) + multiset(s.items) == multiset(From(0, s.pushed));
    if s.items != [] {
      assert s.items[0] in multiset(s.items);
      assert |multiset(s.items)| > 0;
    }
  }

  /** If the connection was refused, if at all, only once the intake was gone,
      every status item pushed has exactly one record. */
  lemma ItemsHaveOneRecordIfOnlyTheDrainRefuses(s: State)
    requires Reachable(s) && s.phase.Rank() >= 6 && !s.refusedEarly
    ensures multiset(Recorded(s.trace)) == multiset(From(0, s.pushed))
  {
    hide Reachable, InvItems, InvRx, InvOrder, InvGaveUp;
    ReachableKeepsInv(s);
    ItemsHaveOneRecordUnlessStranded(s);
  }

  /** Every record says what became of its item or reading: published exactly
      if the broker took it, evicted exactly if a push took it from the queue,
      and for a reading dropped exactly if the broker was never asked. */
  lemma RecordsAreTrue(s: State, k: nat)
    requires Reachable(s) && k < |s.trace|
    ensures s.trace[k].ItemRecord? ==>
              && (s.trace[k].fate.Published? <==> s.trace[k].item in s.took)
              && (s.trace[k].fate.Evicted? <==> s.trace[k].item in s.evicted)
    ensures s.trace[k].RxRecord? ==>
              && (s.trace[k].outcome.RxPublished? <==> s.trace[k].seqNo in s.rxTook)
              && (s.trace[k].outcome.RxDropped? <==> s.trace[k].seqNo !in s.rxTried)
  {
    hide Reachable, Inv;
    ReachableKeepsTruth(s);
    assert IsTrue(DeedsOf(s), s.trace[k]);
  }

  /** A publisher that gave up with its queue emptied strands the next event,
      the reader's port closed for one. */
  lemma StrandedItem() returns (s: State)
    ensures Reachable(s) && s.gaveUp && s.items == [1] && Recorded(s.trace) == [0]
  {
    hide Reachable;
    var pushed := INITIAL.(items := [0], pushed := 1);
    var refused := pushed.(status := Dropping, refusedEarly := true);
    var popped := refused.(status := DroppingOne(0), items := []);
    var dropped := popped.(status := Dropping, trace := [ItemRecord(0, Dropped)]);
    var gone := dropped.(status := StatusGone, gaveUp := true, gaveUpAt := 1);
    s := gone.(items := [1], pushed := 2);
    InitialIsReachable();
    StepIsReachable(INITIAL, ByPusher(PushEvent(-1)), pushed);
    StepIsReachable(pushed, ByStatus(Watch), pushed.(status := Connecting));
    StepIsReachable(pushed.(status := Connecting), ByStatus(Connect(false)), refused);
    StepIsReachable(refused, ByStatus(DropOne), popped);
    StepIsReachable(popped, ByStatus(RecordItem), dropped);
    StepIsReachable(dropped, ByStatus(DropOne), gone);
    StepIsReachable(gone, ByPusher(PushEvent(-1)), s);
    TraceOneMore([], ItemRecord(0, Dropped));
    assert [] + [ItemRecord(0, Dropped)] == [ItemRecord(0, Dropped)];
  }
}
