/** What every run of the tx protocol keeps. Each invariant is stated on the
    parts of the state it is about, so that a step that touches none of them
    keeps it at once. */
module TxSafety {
  import Runs
  import opened Helpers
  import opened WrittenIds
  import opened Separators
  import opened TxProtocol

  /** A log one result longer, read in each of the ways it is read. */
  lemma LogOneMore(log: seq<Result>, result: Result)
    ensures Immediates(log + [result])
         == Immediates(log)
            + (match result
               case Accepted(job) => [job.serial]
               case Answered(serial, _) => [serial]
               case Final(_, _, _, _, _) => [])
    ensures AcceptedJobs(log + [result]) == AcceptedJobs(log) + (if result.Accepted? then [result.job] else [])
    ensures FinishedJobs(log + [result]) == FinishedJobs(log) + (if result.Final? then [result.job] else [])
    ensures WrittenHistory(log + [result])
         == WrittenHistory(log) + (if result.Final? && result.outcome.Written? then [result.job.id] else [])
    ensures Portions(log + [result])
         == Portions(log) + (if result.Final? then Portion(result.job, result.outcome) else [])
  {
    assert (log + [result])[..|log|] == log;
  }

  // One immediate result each, one later result each, in order.

  /** The job in hand that has no result yet. */
  function InHand(writer: Writer): seq<Job> {
    match writer
    case Checking(hand) => [hand.job]
    case Ready(hand) => [hand.job]
    case Writing(hand, _) => [hand.job]
    case Awaiting(hand) => [hand.job]
    case Reporting(hand, _) => [hand.job]
    case _ => []
  }

  /** The accepted jobs that have no later result yet, oldest first: the one in
      hand, the queued ones, and the one announced but not pushed. */
  function Outstanding(hand: seq<Job>, queue: seq<Job>, intake: Intake): seq<Job> {
    hand + queue + (if intake.Announced? then [intake.job] else [])
  }

  /** How many messages have their immediate result. */
  function AnsweredCount(taken: nat, intake: Intake): int {
    if intake.Looked? || intake.Registered? || intake.Answering? then taken - 1 else taken
  }

  ghost predicate OrderOf(taken: nat, intake: Intake, hand: seq<Job>, queue: seq<Job>, log: seq<Result>) {
    && AnsweredCount(taken, intake) >= 0
    && Immediates(log) == UpTo(AnsweredCount(taken, intake))
    && (intake.Looked? || intake.Registered? ==> intake.job.serial == taken - 1)
    && (intake.Answering? ==> intake.serial == taken - 1)
    && AcceptedJobs(log) == FinishedJobs(log) + Outstanding(hand, queue, intake)
  }

  ghost predicate InvOrder(s: State) {
    OrderOf(s.taken, s.intake, InHand(s.writer), s.queue, s.log)
  }

  lemma UpToOneMore(count: nat)
    ensures UpTo(count + 1) == UpTo(count) + [count]
  {
  }

  lemma OrderOfAnnounce(taken: nat, job: Job, hand: seq<Job>, queue: seq<Job>, log: seq<Result>)
    requires OrderOf(taken, Registered(job), hand, queue, log)
    ensures OrderOf(taken, Announced(job), hand, queue, log + [Accepted(job)])
  {
    hide UpTo, Immediates, AcceptedJobs, FinishedJobs;
    LogOneMore(log, Accepted(job));
    UpToOneMore(taken - 1);
    assert FinishedJobs(log) + (hand + queue + []) + [job] == FinishedJobs(log) + (hand + queue + [job]);
  }

  lemma OrderOfAnswer(taken: nat, serial: nat, answer: Answer, hand: seq<Job>, queue: seq<Job>, log: seq<Result>)
    requires OrderOf(taken, Answering(serial, answer), hand, queue, log)
    ensures OrderOf(taken, Idle, hand, queue, log + [Answered(serial, answer)])
  {
    hide UpTo, Immediates, AcceptedJobs, FinishedJobs;
    LogOneMore(log, Answered(serial, answer));
    UpToOneMore(taken - 1);
    assert AcceptedJobs(log) + [] == AcceptedJobs(log) && FinishedJobs(log) + [] == FinishedJobs(log);
  }

  lemma OrderOfPushJob(taken: nat, job: Job, hand: seq<Job>, queue: seq<Job>, log: seq<Result>)
    requires OrderOf(taken, Announced(job), hand, queue, log)
    ensures OrderOf(taken, Idle, hand, queue + [job], log)
  {
    hide UpTo, Immediates, AcceptedJobs, FinishedJobs;
    assert hand + (queue + [job]) + [] == hand + queue + [job];
  }

  lemma OrderOfPopJob(taken: nat, intake: Intake, queue: seq<Job>, log: seq<Result>)
    requires queue != [] && OrderOf(taken, intake, [], queue, log)
    ensures OrderOf(taken, intake, [queue[0]], queue[1..], log)
  {
    hide UpTo, Immediates, AcceptedJobs, FinishedJobs;
    var rest := if intake.Announced? then [intake.job] else [];
    assert [] + queue + rest == [queue[0]] + queue[1..] + rest;
  }

  lemma OrderOfReport(taken: nat, intake: Intake, job: Job, queue: seq<Job>, log: seq<Result>, final: Result)
    requires OrderOf(taken, intake, [job], queue, log) && final.Final? && final.job == job
    ensures OrderOf(taken, intake, [], queue, log + [final])
  {
    hide UpTo, Immediates, AcceptedJobs, FinishedJobs;
    LogOneMore(log, final);
    var rest := if intake.Announced? then [intake.job] else [];
    assert FinishedJobs(log) + ([job] + queue + rest) == FinishedJobs(log) + [job] + ([] + queue + rest);
  }

  /** The intake's steps that only move it along. */
  lemma OrderOfMove(taken: nat, from: Intake, to: Intake, hand: seq<Job>, queue: seq<Job>, log: seq<Result>)
    requires OrderOf(taken, from, hand, queue, log)
    requires || (from.Looked? && to == Registered(from.job))
             || (from.Looked? && to == Answering(from.job.serial, Refused(from.job.id)))
             || (from.Idle? && to.Left?)
    ensures OrderOf(taken, to, hand, queue, log)
  {
    hide UpTo, Immediates, AcceptedJobs, FinishedJobs;
  }

  lemma OrderOfTake(taken: nat, to: Intake, hand: seq<Job>, queue: seq<Job>, log: seq<Result>)
    requires OrderOf(taken, Idle, hand, queue, log)
    requires (to.Looked? && to.job.serial == taken) || (to.Answering? && to.serial == taken)
    ensures OrderOf(taken + 1, to, hand, queue, log)
  {
    hide UpTo, Immediates, AcceptedJobs, FinishedJobs;
  }

  lemma OrderKeptByIntake(cfg: Config, s: State, step: IntakeStep)
    requires InvOrder(s)
    ensures InvOrder(IntakeNext(s, step))
  {
    hide OrderOf, Remember;
    match step
    case Take(message) =>
      if s.intake.Idle? { OrderOfTake(s.taken, DoTake(s, message).intake, InHand(s.writer), s.queue, s.log); }
    case CheckStopping =>
      if s.intake.Looked? {
        OrderOfMove(s.taken, s.intake, DoCheckStopping(s).intake, InHand(s.writer), s.queue, s.log);
      }
    case Announce =>
      if s.intake.Registered? { OrderOfAnnounce(s.taken, s.intake.job, InHand(s.writer), s.queue, s.log); }
    case PushJob =>
      if s.intake.Announced? { OrderOfPushJob(s.taken, s.intake.job, InHand(s.writer), s.queue, s.log); }
    case PushAnswer =>
      if s.intake.Answering? {
        OrderOfAnswer(s.taken, s.intake.serial, s.intake.answer, InHand(s.writer), s.queue, s.log);
      }
    case Leave =>
      if s.intake.Idle? { OrderOfMove(s.taken, Idle, Left, InHand(s.writer), s.queue, s.log); }
  }

  lemma OrderKeptByWriter(cfg: Config, s: State, step: WriterStep)
    requires InvOrder(s)
    ensures InvOrder(WriterNext(cfg, s, step))
  {
    hide OrderOf, Remember;
    match step
    case PopJob =>
      if s.writer.Waiting? && s.queue != [] { OrderOfPopJob(s.taken, s.intake, s.queue, s.log); }
    case Report =>
      if s.writer.Reporting? {
        var hand := s.writer.hand;
        OrderOfReport(s.taken, s.intake, hand.job, s.queue, s.log,
                        FinalOf(hand, s.writer.outcome));
      }
    case _ =>
  }

  lemma OrderKeptByShutdown(cfg: Config, s: State, step: ShutdownStep)
    requires InvOrder(s)
    ensures InvOrder(ShutdownNext(s, step))
  {
    hide OrderOf, Remember;
  }

  lemma OrderKept(cfg: Config, s: State, action: Action)
    requires InvOrder(s)
    ensures InvOrder(Next(cfg, s, action))
  {
    hide InvOrder, IntakeNext, WriterNext, ShutdownNext;
    match action
    case ByIntake(step) => OrderKeptByIntake(cfg, s, step);
    case ByWriter(step) => OrderKeptByWriter(cfg, s, step);
    case ByShutdown(step) => OrderKeptByShutdown(cfg, s, step);
    case ByClock(passes) => KeptByClock(cfg, s, passes);
  }

  // The ids in txActive and the ones remembered.

  function Ids(jobs: seq<Job>): seq<Id> {
    seq(|jobs|, i requires 0 <= i < |jobs| => jobs[i].id)
  }

  /** The job the writer has taken and not yet cleared. */
  function Uncleared(writer: Writer): seq<Job> {
    if writer.Clearing? then [writer.hand.job] else InHand(writer)
  }

  /** The jobs whose ids are active, oldest first. */
  function ActiveJobs(uncleared: seq<Job>, queue: seq<Job>, intake: Intake): seq<Job> {
    uncleared + queue + (if intake.Registered? || intake.Announced? then [intake.job] else [])
  }

  /** The active ids are exactly those of the job taken, the queued ones and
      the one being pushed, and no two of these share one. */
  ghost predicate ActiveOf(uncleared: seq<Job>, queue: seq<Job>, intake: Intake, active: map<Id, Job>) {
    && Distinct(Ids(ActiveJobs(uncleared, queue, intake)))
    && (forall id :: id in active <==> id in Ids(ActiveJobs(uncleared, queue, intake)))
    && (intake.Looked? ==> intake.job.id !in active)
  }

  ghost predicate InvActive(s: State) {
    ActiveOf(Uncleared(s.writer), s.queue, s.intake, s.active)
  }

  lemma IdsOfSplit(a: seq<Job>, b: seq<Job>)
    ensures Ids(a + b) == Ids(a) + Ids(b)
    ensures |a| == 1 ==> Ids(a) == [a[0].id]
  {
  }

  lemma ActiveOfRegister(uncleared: seq<Job>, queue: seq<Job>, job: Job, active: map<Id, Job>)
    requires ActiveOf(uncleared, queue, Looked(job), active)
    ensures ActiveOf(uncleared, queue, Registered(job), active[job.id := job])
  {
    hide Ids;
    var jobs := uncleared + queue + [];
    assert uncleared + queue + [job] == jobs + [job];
    IdsOfSplit(jobs, [job]);
    IdsOfSplit([job], []);
  }

  lemma ActiveOfPushJob(uncleared: seq<Job>, queue: seq<Job>, job: Job, active: map<Id, Job>)
    requires ActiveOf(uncleared, queue, Announced(job), active)
    ensures ActiveOf(uncleared, queue + [job], Idle, active)
  {
    assert uncleared + (queue + [job]) + [] == uncleared + queue + [job];
  }

  lemma ActiveOfPopJob(queue: seq<Job>, intake: Intake, active: map<Id, Job>)
    requires queue != [] && ActiveOf([], queue, intake, active)
    ensures ActiveOf([queue[0]], queue[1..], intake, active)
  {
    var rest := if intake.Registered? || intake.Announced? then [intake.job] else [];
    assert [] + queue + rest == [queue[0]] + queue[1..] + rest;
  }

  lemma ActiveOfClear(job: Job, queue: seq<Job>, intake: Intake, active: map<Id, Job>)
    requires ActiveOf([job], queue, intake, active) && !intake.Looked?
    ensures ActiveOf([], queue, intake, active - {job.id})
  {
    hide Ids;
    var rest := if intake.Registered? || intake.Announced? then [intake.job] else [];
    var left := [] + queue + rest;
    assert [job] + queue + rest == [job] + left;
    IdsOfSplit([job], left);
    var ids := Ids([job] + left);
    assert ids[0] == job.id && ids[1..] == Ids(left);
    assert job.id !in Ids(left);
  }

  lemma ActiveKeptByIntake(cfg: Config, s: State, step: IntakeStep)
    requires InvActive(s)
    ensures InvActive(IntakeNext(s, step))
  {
    hide Ids, Remember, Distinct;
    match step
    case CheckStopping =>
      if s.intake.Looked? { ActiveOfRegister(Uncleared(s.writer), s.queue, s.intake.job, s.active); }
    case PushJob =>
      if s.intake.Announced? { ActiveOfPushJob(Uncleared(s.writer), s.queue, s.intake.job, s.active); }
    case _ =>
  }

  lemma ActiveKeptByWriter(cfg: Config, s: State, step: WriterStep)
    requires InvActive(s)
    ensures InvActive(WriterNext(cfg, s, step))
  {
    hide Ids, Remember, Distinct;
    match step
    case PopJob =>
      if s.writer.Waiting? && s.queue != [] { ActiveOfPopJob(s.queue, s.intake, s.active); }
    case Clear =>
      if s.writer.Clearing? && TxMuFree(s) { ActiveOfClear(s.writer.hand.job, s.queue, s.intake, s.active); }
    case _ =>
  }

  lemma ActiveKeptByShutdown(cfg: Config, s: State, step: ShutdownStep)
    requires InvActive(s)
    ensures InvActive(ShutdownNext(s, step))
  {
    hide Ids, Remember, Distinct;
  }

  lemma ActiveKept(cfg: Config, s: State, action: Action)
    requires InvActive(s)
    ensures InvActive(Next(cfg, s, action))
  {
    hide InvActive, IntakeNext, WriterNext, ShutdownNext;
    match action
    case ByIntake(step) => ActiveKeptByIntake(cfg, s, step);
    case ByWriter(step) => ActiveKeptByWriter(cfg, s, step);
    case ByShutdown(step) => ActiveKeptByShutdown(cfg, s, step);
    case ByClock(passes) => KeptByClock(cfg, s, passes);
  }

  // What is remembered of the ids written.

  /** The id reported written and not yet moved from active to remembered. */
  function Unmoved(writer: Writer): seq<Id> {
    if writer.Clearing? && writer.outcome.Written? then [writer.hand.job.id] else []
  }

  /** The same id comes back only after limit others. */
  ghost predicate FarApart(history: seq<Id>, limit: nat) {
    forall i, j :: 0 <= i < j < |history| && j - i <= limit ==> history[i] != history[j]
  }

  /** The memory is the last limit ids written and moved, and shares none with
      the active ones; no id was written again within limit others. */
  ghost predicate MemoryOf(limit: nat, history: seq<Id>, unmoved: seq<Id>, written: Memory, active: set<Id>) {
    && Coherent(written, limit)
    && |unmoved| <= |history| && history == history[..|history| - |unmoved|] + unmoved
    && written.order == Recent(history[..|history| - |unmoved|], limit)
    && FarApart(history, limit)
    && active !! written.at.Keys
  }

  ghost predicate InvMemory(cfg: Config, s: State) {
    && MemoryOf(cfg.limit, WrittenHistory(s.log), Unmoved(s.writer), s.written, s.active.Keys)
    && (s.intake.Looked? ==> s.intake.job.id !in s.written.at)
  }

  lemma FarApartOneMore(history: seq<Id>, limit: nat, id: Id)
    requires limit >= 1 && FarApart(history, limit) && id !in Recent(history, limit)
    ensures FarApart(history + [id], limit)
  {
    var more := history + [id];
    forall i, j | 0 <= i < j < |more| && j - i <= limit
      ensures more[i] != more[j]
    {
      if j == |history| {
        var recent := Recent(history, limit);
        assert history[i] == recent[i - (|history| - |recent|)];
      }
    }
  }

  lemma MemoryOfReport(limit: nat, history: seq<Id>, id: Id, written: Memory, active: set<Id>)
    requires limit >= 1 && MemoryOf(limit, history, [], written, active) && id in active
    ensures MemoryOf(limit, history + [id], [id], written, active)
  {
    hide FarApart, Recent;
    assert history[..|history|] == history;
    assert (history + [id])[..|history|] == history;
    FarApartOneMore(history, limit, id) by {
      assert id !in written.at;
    }
  }

  lemma MemoryOfMove(limit: nat, history: seq<Id>, id: Id, at: Time, written: Memory, active: set<Id>)
    requires limit >= 1 && MemoryOf(limit, history, [id], written, active) && id in active
    ensures MemoryOf(limit, history, [], Remember(written, limit, id, at), active - {id})
  {
    hide FarApart, Recent;
    var earlier := history[..|history| - 1];
    RememberCoherent(written, limit, id, at);
    RememberTracksRecent(written, limit, id, at, earlier);
    assert history[..|history|] == history == earlier + [id];
    assert forall x :: x in Remember(written, limit, id, at).at ==> x == id || x in written.at;
  }

  lemma MemoryOfFewer(limit: nat, history: seq<Id>, unmoved: seq<Id>, written: Memory, active: set<Id>, fewer: set<Id>)
    requires MemoryOf(limit, history, unmoved, written, active) && fewer <= active
    ensures MemoryOf(limit, history, unmoved, written, fewer)
  {
    hide FarApart, Recent, Coherent;
  }

  lemma MemoryOfRegister(limit: nat, history: seq<Id>, unmoved: seq<Id>, written: Memory, active: map<Id, Job>,
                         job: Job)
    requires MemoryOf(limit, history, unmoved, written, active.Keys) && job.id !in written.at
    ensures MemoryOf(limit, history, unmoved, written, active[job.id := job].Keys)
  {
    hide FarApart, Recent, Coherent;
    assert active[job.id := job].Keys == active.Keys + {job.id};
  }

  lemma UnclearedIsActive(s: State)
    requires InvActive(s) && Uncleared(s.writer) != []
    ensures Uncleared(s.writer)[0].id in s.active
  {
    assert Ids(ActiveJobs(Uncleared(s.writer), s.queue, s.intake))[0] == Uncleared(s.writer)[0].id;
  }

  lemma HistoryUnchanged(log: seq<Result>, result: Result)
    requires !(result.Final? && result.outcome.Written?)
    ensures WrittenHistory(log + [result]) == WrittenHistory(log)
  {
    LogOneMore(log, result);
    assert WrittenHistory(log) + [] == WrittenHistory(log);
  }

  lemma MemoryKeptByIntake(cfg: Config, s: State, step: IntakeStep)
    requires cfg.Valid() && InvActive(s) && InvMemory(cfg, s)
    ensures InvMemory(cfg, IntakeNext(s, step))
  {
    hide MemoryOf, Remember, WrittenHistory, ActiveOf;
    var history := WrittenHistory(s.log);
    match step
    case CheckStopping =>
      if s.intake.Looked? {
        MemoryOfRegister(cfg.limit, history, Unmoved(s.writer), s.written, s.active, s.intake.job);
      }
    case Announce => if s.intake.Registered? { HistoryUnchanged(s.log, Accepted(s.intake.job)); }
    case PushAnswer => if s.intake.Answering? { HistoryUnchanged(s.log, Answered(s.intake.serial, s.intake.answer)); }
    case _ =>
  }

  lemma MemoryKeptByReport(cfg: Config, s: State)
    requires cfg.Valid() && InvActive(s) && InvMemory(cfg, s)
    ensures InvMemory(cfg, DoReport(s))
  {
    hide MemoryOf, WrittenHistory, ActiveOf;
    if s.writer.Reporting? {
      var hand := s.writer.hand;
      var final := FinalOf(hand, s.writer.outcome);
      if s.writer.outcome.Written? {
        LogOneMore(s.log, final);
        UnclearedIsActive(s);
        MemoryOfReport(cfg.limit, WrittenHistory(s.log), hand.job.id, s.written, s.active.Keys);
      } else {
        HistoryUnchanged(s.log, final);
      }
    }
  }

  lemma MemoryKeptByClear(cfg: Config, s: State)
    requires cfg.Valid() && InvActive(s) && InvMemory(cfg, s)
    ensures InvMemory(cfg, DoClear(cfg, s))
  {
    hide MemoryOf, Remember, WrittenHistory, ActiveOf;
    if s.writer.Clearing? && TxMuFree(s) {
      var history, id := WrittenHistory(s.log), s.writer.hand.job.id;
      assert (s.active - {id}).Keys == s.active.Keys - {id};
      if s.writer.outcome.Written? {
        UnclearedIsActive(s);
        MemoryOfMove(cfg.limit, history, id, s.writer.hand.last.endedAt, s.written, s.active.Keys);
      } else {
        MemoryOfFewer(cfg.limit, history, [], s.written, s.active.Keys, s.active.Keys - {id});
      }
    }
  }

  /** Only a report changes the log, and only a clearing what is active and
      remembered. */
  lemma WriterLeaves(cfg: Config, s: State, step: WriterStep)
    ensures WriterNext(cfg, s, step).intake == s.intake
    ensures !step.Report? ==> WriterNext(cfg, s, step).log == s.log
    ensures !step.Clear? ==>
              WriterNext(cfg, s, step).active == s.active && WriterNext(cfg, s, step).written == s.written
  {
    hide Remember, Checked, CanEnd, EndedWith;
  }

  /** A report puts the result of the job in hand at the end of the log. */
  lemma WriterReports(cfg: Config, s: State, step: WriterStep)
    requires step.Report?
    ensures WriterNext(cfg, s, step).log == s.log + (if !s.writer.Reporting? then [] else
              [FinalOf(s.writer.hand, s.writer.outcome)])
  {
  }

  lemma UnmovedStays(cfg: Config, s: State, step: WriterStep)
    requires !step.Report? && !step.Clear?
    ensures Unmoved(WriterNext(cfg, s, step).writer) == Unmoved(s.writer)
  {
    hide CanEnd, DoReport, DoClear;
  }

  /** Nothing else than these parts of a state matters to what is remembered. */
  lemma MemoryStays(cfg: Config, s: State, next: State)
    requires InvMemory(cfg, s)
    requires next.log == s.log && next.intake == s.intake && next.active == s.active && next.written == s.written
    requires Unmoved(next.writer) == Unmoved(s.writer)
    ensures InvMemory(cfg, next)
  {
  }

  lemma MemoryKept(cfg: Config, s: State, action: Action)
    requires cfg.Valid() && InvActive(s) && InvMemory(cfg, s)
    ensures InvMemory(cfg, Next(cfg, s, action))
  {
    hide InvMemory, InvActive, IntakeNext, Unmoved;
    hide DoPopJob, DoCheckJob, DoStartWrite, DoPortAccepts, DoEndWrite, DoPortAwaited, DoReport, DoClear, DoEnd;
    match action
    case ByIntake(step) => MemoryKeptByIntake(cfg, s, step);
    case ByWriter(Report) => MemoryKeptByReport(cfg, s);
    case ByWriter(Clear) => MemoryKeptByClear(cfg, s);
    case ByWriter(step) =>
      WriterLeaves(cfg, s, step);
      UnmovedStays(cfg, s, step);
      MemoryStays(cfg, s, WriterNext(cfg, s, step));
    case ByShutdown(step) => MemoryStays(cfg, s, ShutdownNext(s, step));
    case ByClock(passes) => MemoryStays(cfg, s, s.(now := s.now + passes));
  }

  // The bytes that went out.

  /** What the ports took of the job in hand, before its result says so. */
  function HandPortion(writer: Writer): Bytes {
    match writer
    case Writing(hand, written) => if written <= |hand.job.data| then hand.job.data[..written] else []
    case Reporting(hand, outcome) => Portion(hand.job, outcome)
    case _ => []
  }

  ghost predicate BytesOf(log: seq<Result>, hand: Bytes, sent: Bytes) {
    sent == Portions(log) + hand
  }

  ghost predicate InvBytes(s: State) {
    && (s.writer.Writing? ==> s.writer.written <= |s.writer.hand.job.data|)
    && BytesOf(s.log, HandPortion(s.writer), s.sent)
  }

  lemma BytesOfAccept(log: seq<Result>, data: Bytes, from: nat, to: nat, sent: Bytes)
    requires from <= to <= |data| && BytesOf(log, data[..from], sent)
    ensures BytesOf(log, data[..to], sent + data[from..to])
  {
    hide Portions;
    assert data[..from] + data[from..to] == data[..to];
    assert Portions(log) + data[..to] == Portions(log) + data[..from] + data[from..to];
  }

  lemma BytesOfResult(log: seq<Result>, hand: Bytes, sent: Bytes, result: Result)
    requires BytesOf(log, hand, sent)
    requires result.Final? ==> Portion(result.job, result.outcome) == hand
    ensures BytesOf(log + [result], if result.Final? then [] else hand, sent)
  {
    LogOneMore(log, result);
    assert Portions(log) + [] == Portions(log);
    assert Portions(log) + hand + [] == Portions(log) + hand;
  }

  lemma BytesKeptByIntake(cfg: Config, s: State, step: IntakeStep)
    requires InvBytes(s)
    ensures InvBytes(IntakeNext(s, step))
  {
    hide BytesOf, Remember;
    match step
    case Announce =>
      if s.intake.Registered? { BytesOfResult(s.log, HandPortion(s.writer), s.sent, Accepted(s.intake.job)); }
    case PushAnswer =>
      if s.intake.Answering? {
        BytesOfResult(s.log, HandPortion(s.writer), s.sent, Answered(s.intake.serial, s.intake.answer));
      }
    case _ =>
  }

  lemma BytesKeptByWriter(cfg: Config, s: State, step: WriterStep)
    requires InvBytes(s)
    ensures InvBytes(WriterNext(cfg, s, step))
  {
    hide BytesOf, Remember;
    match step
    case Report =>
      if s.writer.Reporting? {
        var hand := s.writer.hand;
        BytesOfResult(s.log, HandPortion(s.writer), s.sent, FinalOf(hand, s.writer.outcome));
      }
    case PortAccepts(count) =>
      if s.writer.Writing? && s.writer.written + count <= |s.writer.hand.job.data| {
        BytesOfAccept(s.log, s.writer.hand.job.data, s.writer.written, s.writer.written + count, s.sent);
      }
    case StartWrite =>
      if s.writer.Ready? { assert s.writer.hand.job.data[..0] == []; }
    case EndWrite(ending) =>
      if s.writer.Writing? {
        var data := s.writer.hand.job.data;
        assert data[..|data|] == data && data[..0] == [];
      }
    case _ =>
  }

  lemma BytesKeptByShutdown(cfg: Config, s: State, step: ShutdownStep)
    requires InvBytes(s)
    ensures InvBytes(ShutdownNext(s, step))
  {
    hide BytesOf, Remember;
  }

  lemma BytesKept(cfg: Config, s: State, action: Action)
    requires InvBytes(s)
    ensures InvBytes(Next(cfg, s, action))
  {
    hide InvBytes, IntakeNext, WriterNext, ShutdownNext;
    match action
    case ByIntake(step) => BytesKeptByIntake(cfg, s, step);
    case ByWriter(step) => BytesKeptByWriter(cfg, s, step);
    case ByShutdown(step) => BytesKeptByShutdown(cfg, s, step);
    case ByClock(passes) => KeptByClock(cfg, s, passes);
  }

  // Stopping, and how often the port is written to.

  ghost predicate NoneAcceptedFrom(log: seq<Result>, from: nat) {
    forall i :: from <= i < |log| ==> !log[i].Accepted?
  }

  ghost predicate InvStop(s: State) {
    && (s.stopping <==> s.phase.Rank() >= 1)
    && (s.queueClosed <==> s.phase.Rank() >= 2)
    && (s.stopping ==> IntakeMuFree(s))
    && (s.writer.Ended? ==> s.queueClosed && s.queue == [])
    && (s.phase.Rank() >= 3 ==> s.writer.Ended?)
    && (s.intake.Left? ==> s.phase.Rank() >= 4)
    && (s.phase.Rank() >= 5 ==> s.intake.Left?)
    && (s.stopping ==> s.stopAt <= |s.log| && NoneAcceptedFrom(s.log, s.stopAt))
    && s.startsAfterStop <= 1
    && (!s.stopping || s.writer.Ready? ==> s.startsAfterStop == 0)
  }

  lemma NoneAcceptedOneMore(log: seq<Result>, from: nat, result: Result)
    requires NoneAcceptedFrom(log, from) && !result.Accepted?
    ensures NoneAcceptedFrom(log + [result], from)
  {
  }

  lemma NoneAcceptedYet(log: seq<Result>)
    ensures NoneAcceptedFrom(log, |log|)
  {
  }

  lemma StopKeptByIntake(cfg: Config, s: State, step: IntakeStep)
    requires InvStop(s)
    ensures InvStop(IntakeNext(s, step))
  {
    hide Remember, NoneAcceptedFrom;
    match step
    case PushAnswer =>
      if s.intake.Answering? && s.stopping {
        NoneAcceptedOneMore(s.log, s.stopAt, Answered(s.intake.serial, s.intake.answer));
      }
    case _ =>
  }

  lemma StopKeptByWriter(cfg: Config, s: State, step: WriterStep)
    requires InvStop(s)
    ensures InvStop(WriterNext(cfg, s, step))
  {
    hide Remember, NoneAcceptedFrom;
    match step
    case Report =>
      if s.writer.Reporting? && s.stopping {
        var hand := s.writer.hand;
        NoneAcceptedOneMore(s.log, s.stopAt, FinalOf(hand, s.writer.outcome));
      }
    case _ =>
  }

  lemma StopKeptByShutdown(cfg: Config, s: State, step: ShutdownStep)
    requires InvStop(s)
    ensures InvStop(ShutdownNext(s, step))
  {
    hide Remember, NoneAcceptedFrom;
    match step
    case SetStopping =>
      NoneAcceptedYet(s.log);
    case _ =>
  }

  lemma StopKept(cfg: Config, s: State, action: Action)
    requires InvStop(s)
    ensures InvStop(Next(cfg, s, action))
  {
    hide InvStop, IntakeNext, WriterNext, ShutdownNext;
    match action
    case ByIntake(step) => StopKeptByIntake(cfg, s, step);
    case ByWriter(step) => StopKeptByWriter(cfg, s, step);
    case ByShutdown(step) => StopKeptByShutdown(cfg, s, step);
    case ByClock(passes) => KeptByClock(cfg, s, passes);
  }

  /** What a later result can say, and what led to it: which outcome belongs to
      what the last check found and to how the last write ended. */
  ghost predicate ResultAllowed(cfg: Config, job: Job, outcome: Outcome, calls: nat, late: bool, last: Last) {
    && calls <= cfg.attempts + 1
    && (late ==> last.stopping && calls == 0)
    && (last.stopping ==> outcome == Stopped(0))
    && (outcome.Expired? <==> !last.stopping && job.Due(last.checkedAt))
    && (last.ending.Some? ==> cfg.writable && calls >= 1 && !last.stopping && !outcome.Expired?)
    && (outcome.Written? <==> last.ending == Some(Complete))
    && (outcome.Failed? ==>
          || (last.ending == Some(Broken) && outcome.bytes <= |job.data|)
          || (last.ending == Some(NotOpen) && 0 < outcome.bytes < |job.data|))
    && (outcome.Stopped? && !last.stopping ==> last.ending == Some(CutShort) && outcome.bytes < |job.data|)
    && (last.ending == Some(CutShort) ==> outcome.Stopped?)
    && (outcome.PortUnavailable? ==>
          if cfg.writable then last.ending == Some(NotOpen) && calls == cfg.attempts + 1
          else last.ending.None? && calls == 0)
  }

  /** Every Write but the last one found the port closed, and a job taken after
      stopping was set gets none. */
  ghost predicate HandOf(cfg: Config, writer: Writer, stopping: bool) {
    match writer
    case Checking(hand) =>
      && hand.closed <= cfg.attempts && hand.calls == hand.closed
      && (hand.calls > 0 ==> cfg.writable) && (hand.late ==> stopping && hand.calls == 0)
    case Ready(hand) => hand.closed <= cfg.attempts && hand.calls == hand.closed && Passed(cfg, hand)
    case Writing(hand, _) => hand.closed <= cfg.attempts && hand.calls == hand.closed + 1 && Passed(cfg, hand)
    case Awaiting(hand) => hand.closed <= cfg.attempts && hand.calls == hand.closed && cfg.writable && !hand.late
    case Reporting(hand, outcome) => ResultAllowed(cfg, hand.job, outcome, hand.calls, hand.late, hand.last)
    case _ => true
  }

  /** The check before the write found nothing against it. */
  ghost predicate Passed(cfg: Config, hand: Hand) {
    && cfg.writable && !hand.late
    && !hand.last.stopping && !hand.job.Due(hand.last.checkedAt) && hand.last.ending.None?
  }

  ghost predicate AllAllowed(cfg: Config, log: seq<Result>) {
    forall i :: 0 <= i < |log| && log[i].Final? ==>
      ResultAllowed(cfg, log[i].job, log[i].outcome, log[i].calls, log[i].late, log[i].last)
  }

  ghost predicate InvCalls(cfg: Config, s: State) {
    && (s.writer.Writing? ==> s.writer.written <= |s.writer.hand.job.data|)
    && HandOf(cfg, s.writer, s.stopping)
    && AllAllowed(cfg, s.log)
  }

  lemma AllAllowedOneMore(cfg: Config, log: seq<Result>, result: Result)
    requires AllAllowed(cfg, log)
    requires result.Final? ==> ResultAllowed(cfg, result.job, result.outcome, result.calls, result.late, result.last)
    ensures AllAllowed(cfg, log + [result])
  {
    hide ResultAllowed;
  }

  lemma CallsKeptByIntake(cfg: Config, s: State, step: IntakeStep)
    requires InvCalls(cfg, s)
    ensures InvCalls(cfg, IntakeNext(s, step))
  {
    hide Remember, AllAllowed;
    match step
    case Announce => if s.intake.Registered? { AllAllowedOneMore(cfg, s.log, Accepted(s.intake.job)); }
    case PushAnswer =>
      if s.intake.Answering? { AllAllowedOneMore(cfg, s.log, Answered(s.intake.serial, s.intake.answer)); }
    case _ =>
  }

  lemma CallsKeptByWriter(cfg: Config, s: State, step: WriterStep)
    requires InvCalls(cfg, s)
    ensures InvCalls(cfg, WriterNext(cfg, s, step))
  {
    hide Remember, AllAllowed;
    match step
    case Report =>
      if s.writer.Reporting? {
        var hand := s.writer.hand;
        AllAllowedOneMore(cfg, s.log, FinalOf(hand, s.writer.outcome));
      }
    case _ =>
  }

  lemma CallsKeptByShutdown(cfg: Config, s: State, step: ShutdownStep)
    requires InvCalls(cfg, s)
    ensures InvCalls(cfg, ShutdownNext(s, step))
  {
    hide Remember, AllAllowed;
  }

  lemma CallsKept(cfg: Config, s: State, action: Action)
    requires InvCalls(cfg, s)
    ensures InvCalls(cfg, Next(cfg, s, action))
  {
    hide InvCalls, IntakeNext, WriterNext, ShutdownNext;
    match action
    case ByIntake(step) => CallsKeptByIntake(cfg, s, step);
    case ByWriter(step) => CallsKeptByWriter(cfg, s, step);
    case ByShutdown(step) => CallsKeptByShutdown(cfg, s, step);
    case ByClock(passes) => KeptByClock(cfg, s, passes);
  }

  // Every later result stands behind its accepted.

  ghost predicate InvBehind(log: seq<Result>) {
    forall i :: 0 <= i < |log| && log[i].Final? ==> exists j :: 0 <= j < i && log[j] == Accepted(log[i].job)
  }

  lemma {:induction false} AcceptedIsLogged(log: seq<Result>, job: Job)
    requires job in AcceptedJobs(log)
    ensures exists j :: 0 <= j < |log| && log[j] == Accepted(job)
  {
    var last := log[|log| - 1];
    if last == Accepted(job) {
      assert log[|log| - 1] == Accepted(job);
    } else {
      AcceptedIsLogged(log[..|log| - 1], job);
    }
  }

  lemma BehindOneMore(log: seq<Result>, result: Result)
    requires InvBehind(log)
    requires result.Final? ==> result.job in AcceptedJobs(log)
    ensures InvBehind(log + [result])
  {
    hide AcceptedJobs;
    var more := log + [result];
    if result.Final? {
      AcceptedIsLogged(log, result.job);
    }
    forall i | 0 <= i < |more| && more[i].Final?
      ensures exists j :: 0 <= j < i && more[j] == Accepted(more[i].job)
    {
      var j :| 0 <= j < |log| && j < i && log[j] == Accepted(more[i].job);
      assert more[j] == Accepted(more[i].job);
    }
  }

  lemma BehindKeptByIntake(cfg: Config, s: State, step: IntakeStep)
    requires InvOrder(s) && InvBehind(s.log)
    ensures InvBehind(IntakeNext(s, step).log)
  {
    hide Remember, AcceptedJobs, FinishedJobs, Immediates, InvBehind;
    match step
    case Announce => if s.intake.Registered? { BehindOneMore(s.log, Accepted(s.intake.job)); }
    case PushAnswer => if s.intake.Answering? { BehindOneMore(s.log, Answered(s.intake.serial, s.intake.answer)); }
    case _ =>
  }

  lemma BehindKeptByWriter(cfg: Config, s: State, step: WriterStep)
    requires InvOrder(s) && InvBehind(s.log)
    ensures InvBehind(WriterNext(cfg, s, step).log)
  {
    hide Remember, AcceptedJobs, FinishedJobs, Immediates, InvBehind;
    match step
    case Report =>
      if s.writer.Reporting? {
        var hand := s.writer.hand;
        assert hand.job in AcceptedJobs(s.log) by {
          assert Outstanding([hand.job], s.queue, s.intake)[0] == hand.job;
        }
        BehindOneMore(s.log, FinalOf(hand, s.writer.outcome));
      }
    case _ =>
  }

  lemma BehindKeptByShutdown(cfg: Config, s: State, step: ShutdownStep)
    requires InvOrder(s) && InvBehind(s.log)
    ensures InvBehind(ShutdownNext(s, step).log)
  {
    hide Remember, AcceptedJobs, FinishedJobs, Immediates, InvBehind;
  }

  lemma BehindKept(cfg: Config, s: State, action: Action)
    requires InvOrder(s) && InvBehind(s.log)
    ensures InvBehind(Next(cfg, s, action).log)
  {
    hide InvBehind, InvOrder, IntakeNext, WriterNext, ShutdownNext;
    match action
    case ByIntake(step) => BehindKeptByIntake(cfg, s, step);
    case ByWriter(step) => BehindKeptByWriter(cfg, s, step);
    case ByShutdown(step) => BehindKeptByShutdown(cfg, s, step);
    case ByClock(passes) => KeptByClock(cfg, s, passes);
  }

  // No accepted id is outstanding or remembered.

  /** An accepted result after the log before: its id is none of the last limit
      ones reported written, and every earlier job with it has its result. */
  ghost predicate FreshAfter(before: seq<Result>, limit: nat, result: Result) {
    result.Accepted? ==>
      && result.job.id !in Recent(WrittenHistory(before), limit)
      && forall m :: 0 <= m < |before| && before[m].Accepted? && before[m].job.id == result.job.id ==>
           before[m].job in FinishedJobs(before)
  }

  ghost predicate InvFresh(limit: nat, log: seq<Result>) {
    forall k :: 0 <= k < |log| ==> FreshAfter(log[..k], limit, log[k])
  }

  lemma FreshOneMore(limit: nat, log: seq<Result>, result: Result)
    requires InvFresh(limit, log) && FreshAfter(log, limit, result)
    ensures InvFresh(limit, log + [result])
  {
    hide FreshAfter;
    var more := log + [result];
    forall k | 0 <= k < |more|
      ensures FreshAfter(more[..k], limit, more[k])
    {
      assert more[..k] == log[..k];
      assert k == |log| ==> log[..k] == log;
    }
  }

  lemma {:induction false} LoggedIsAccepted(log: seq<Result>, m: nat)
    requires m < |log| && log[m].Accepted?
    ensures log[m].job in AcceptedJobs(log)
  {
    if m < |log| - 1 {
      LoggedIsAccepted(log[..|log| - 1], m);
    }
  }

  lemma RecentOneMore(history: seq<Id>, id: Id, limit: nat, other: Id)
    requires other in Recent(history + [id], limit)
    ensures other == id || other in Recent(history, limit)
  {
    var all := history + [id];
    var recent, more := Recent(history, limit), Recent(all, limit);
    var k :| 0 <= k < |more| && more[k] == other;
    var at := |all| - |more| + k;
    if at < |history| {
      assert more[k] == all[at] == history[at];
      assert recent[at - (|history| - |recent|)] == history[at];
    }
  }

  /** No other active job has the id of the one about to be pushed. */
  lemma RegisteredIsAlone(s: State, job: Job)
    requires InvActive(s) && s.intake.Registered? && job in Uncleared(s.writer) + s.queue
    ensures job.id != s.intake.job.id
  {
    var others := Uncleared(s.writer) + s.queue;
    var k :| 0 <= k < |others| && others[k] == job;
    var ids := Ids(ActiveJobs(Uncleared(s.writer), s.queue, s.intake));
    assert ids[k] == job.id && ids[|others|] == s.intake.job.id;
  }

  lemma RegisteredIsForgotten(cfg: Config, s: State)
    requires InvActive(s) && InvMemory(cfg, s) && s.intake.Registered?
    ensures s.intake.job.id !in Recent(WrittenHistory(s.log), cfg.limit)
  {
    hide WrittenHistory, Recent, FarApart;
    var id, history := s.intake.job.id, WrittenHistory(s.log);
    assert id in s.active by {
      assert Ids(ActiveJobs(Uncleared(s.writer), s.queue, s.intake))[|Uncleared(s.writer)| + |s.queue|] == id;
    }
    assert id !in s.written.at;
    var earlier := history[..|history| - |Unmoved(s.writer)|];
    assert id !in Recent(earlier, cfg.limit);
    if Unmoved(s.writer) == [] {
      assert earlier == history;
    } else {
      var moving := s.writer.hand.job;
      RegisteredIsAlone(s, moving);
      if id in Recent(history, cfg.limit) {
        RecentOneMore(earlier, moving.id, cfg.limit, id);
      }
    }
  }

  lemma RegisteredIsFresh(cfg: Config, s: State)
    requires InvOrder(s) && InvActive(s) && InvMemory(cfg, s) && s.intake.Registered?
    ensures FreshAfter(s.log, cfg.limit, Accepted(s.intake.job))
  {
    hide AcceptedJobs, FinishedJobs, Immediates, WrittenHistory, Recent, InvActive, InvMemory;
    RegisteredIsForgotten(cfg, s);
    forall m | 0 <= m < |s.log| && s.log[m].Accepted? && s.log[m].job.id == s.intake.job.id
      ensures s.log[m].job in FinishedJobs(s.log)
    {
      LoggedIsAccepted(s.log, m);
      if s.log[m].job in InHand(s.writer) + s.queue {
        assert s.log[m].job in Uncleared(s.writer) + s.queue;
        RegisteredIsAlone(s, s.log[m].job);
      }
    }
  }

  lemma FreshKeptByIntake(cfg: Config, s: State, step: IntakeStep)
    requires InvOrder(s) && InvActive(s) && InvMemory(cfg, s) && InvFresh(cfg.limit, s.log)
    ensures InvFresh(cfg.limit, IntakeNext(s, step).log)
  {
    hide InvOrder, InvActive, InvMemory, InvFresh, Taken;
    match step
    case Announce =>
      if s.intake.Registered? {
        RegisteredIsFresh(cfg, s);
        FreshOneMore(cfg.limit, s.log, Accepted(s.intake.job));
      }
    case PushAnswer =>
      if s.intake.Answering? { FreshOneMore(cfg.limit, s.log, Answered(s.intake.serial, s.intake.answer)); }
    case _ =>
  }

  lemma FreshKept(cfg: Config, s: State, action: Action)
    requires InvOrder(s) && InvActive(s) && InvMemory(cfg, s) && InvFresh(cfg.limit, s.log)
    ensures InvFresh(cfg.limit, Next(cfg, s, action).log)
  {
    hide InvOrder, InvActive, InvMemory, InvFresh, IntakeNext, WriterNext;
    match action
    case ByIntake(step) => FreshKeptByIntake(cfg, s, step);
    case ByWriter(step) =>
      WriterLeaves(cfg, s, step);
      if step.Report? {
        WriterReports(cfg, s, step);
        assert s.log + [] == s.log;
      }
      if step.Report? && s.writer.Reporting? {
        var hand := s.writer.hand;
        FreshOneMore(cfg.limit, s.log, FinalOf(hand, s.writer.outcome));
      }
    case ByShutdown(step) =>
    case ByClock(passes) => KeptByClock(cfg, s, passes);
  }

  // A lossless port.

  /** The port took a whole tx, and the tx is reported failed. */
  predicate TakenYetFailed(job: Job, outcome: Outcome) {
    job.data != [] && outcome == Failed(|job.data|)
  }

  ghost predicate NoneTakenYetFailed(log: seq<Result>) {
    forall i :: 0 <= i < |log| && log[i].Final? ==> !TakenYetFailed(log[i].job, log[i].outcome)
  }

  ghost predicate InvLossless(cfg: Config, s: State) {
    cfg.lossless ==>
      && NoneTakenYetFailed(s.log)
      && (s.writer.Reporting? ==> !TakenYetFailed(s.writer.hand.job, s.writer.outcome))
  }

  lemma LosslessKeptByIntake(cfg: Config, s: State, step: IntakeStep)
    requires InvLossless(cfg, s)
    ensures InvLossless(cfg, IntakeNext(s, step))
  {
    hide Taken, TakenYetFailed;
  }

  lemma LosslessKeptByWriter(cfg: Config, s: State, step: WriterStep)
    requires InvLossless(cfg, s)
    ensures InvLossless(cfg, WriterNext(cfg, s, step))
  {
    hide Remember;
    match step
    case Report => hide TakenYetFailed;
    case _ => WriterLeaves(cfg, s, step);
  }

  lemma LosslessKeptByShutdown(cfg: Config, s: State, step: ShutdownStep)
    requires InvLossless(cfg, s)
    ensures InvLossless(cfg, ShutdownNext(s, step))
  {
    hide NoneTakenYetFailed, TakenYetFailed;
  }

  lemma LosslessKept(cfg: Config, s: State, action: Action)
    requires InvLossless(cfg, s)
    ensures InvLossless(cfg, Next(cfg, s, action))
  {
    hide InvLossless, IntakeNext, WriterNext;
    match action
    case ByIntake(step) => LosslessKeptByIntake(cfg, s, step);
    case ByWriter(step) => LosslessKeptByWriter(cfg, s, step);
    case ByShutdown(step) => LosslessKeptByShutdown(cfg, s, step);
    case ByClock(passes) => KeptByClock(cfg, s, passes);
  }

  // The clock.

  /** None of this is about the time it is. */
  lemma KeptByClock(cfg: Config, s: State, passes: nat)
    ensures var next := s.(now := s.now + passes);
            && (InvOrder(s) ==> InvOrder(next)) && (InvActive(s) ==> InvActive(next))
            && (InvMemory(cfg, s) ==> InvMemory(cfg, next)) && (InvBytes(s) ==> InvBytes(next))
            && (InvStop(s) ==> InvStop(next)) && (InvCalls(cfg, s) ==> InvCalls(cfg, next))
            && (InvLossless(cfg, s) ==> InvLossless(cfg, next)) && next.log == s.log
  {
    hide OrderOf, ActiveOf, MemoryOf, BytesOf, AllAllowed, HandOf, NoneAcceptedFrom, NoneTakenYetFailed;
  }

  // All of it, over every run.

  ghost predicate Inv(cfg: Config, s: State) {
    && InvOrder(s) && InvActive(s) && InvMemory(cfg, s) && InvBytes(s) && InvStop(s) && InvCalls(cfg, s)
    && InvBehind(s.log) && InvFresh(cfg.limit, s.log) && InvLossless(cfg, s)
  }

  lemma InvInitially(cfg: Config)
    ensures Inv(cfg, INITIAL)
  {
    assert Ids([]) == [];
  }

  lemma InvKept(cfg: Config, s: State, action: Action)
    requires cfg.Valid() && Inv(cfg, s)
    ensures Inv(cfg, Next(cfg, s, action))
  {
    hide InvOrder, InvActive, InvMemory, InvBytes, InvStop, InvCalls, InvBehind, InvFresh, InvLossless, Next;
    OrderKept(cfg, s, action);
    ActiveKept(cfg, s, action);
    MemoryKept(cfg, s, action);
    BytesKept(cfg, s, action);
    StopKept(cfg, s, action);
    CallsKept(cfg, s, action);
    BehindKept(cfg, s, action);
    FreshKept(cfg, s, action);
    LosslessKept(cfg, s, action);
  }

  lemma ReachableKeepsInv(cfg: Config, s: State)
    requires cfg.Valid() && Reachable(cfg, s)
    ensures Inv(cfg, s)
  {
    hide Inv, Next;
    forall t, action | Inv(cfg, t)
      ensures Inv(cfg, Next(cfg, t, action))
    {
      InvKept(cfg, t, action);
    }
    InvInitially(cfg);
    Runs.InvariantHolds(INITIAL, StepsOf(cfg), (t: State) => Inv(cfg, t), s);
  }
}
