/** What the intake answers at once, and that every answer and every result is
    true: of the message, of what went before, and of the time. */
module TxAnswers {
  import Runs
  import opened Helpers
  import opened WrittenIds
  import opened Separators
  import opened TxProtocol
  import opened TxSafety

  // What stands behind an answer.

  ghost predicate WasAccepted(log: seq<Result>, id: Id) {
    exists m :: 0 <= m < |log| && log[m].Accepted? && log[m].job.id == id
  }

  ghost predicate WasWritten(log: seq<Result>, id: Id, at: Time) {
    exists m :: 0 <= m < |log| && log[m].Final? && log[m].outcome.Written? && log[m].job.id == id
             && log[m].last.endedAt == at
  }

  /** What an answer says of the log before it. */
  ghost predicate Fits(log: seq<Result>, answer: Answer) {
    match answer
    case Invalid => true
    case InProgress(id) => WasAccepted(log, id)
    case AlreadyWritten(id, at) => WasWritten(log, id, at)
    case Refused(_) => true
  }

  /** Only behind the moment at which stopping was set is a message refused. */
  ghost predicate InTime(stopping: bool, stopAt: nat, place: nat, answer: Answer) {
    answer.Refused? ==> stopping && place >= stopAt
  }

  ghost predicate AllFit(log: seq<Result>, stopping: bool, stopAt: nat) {
    forall i :: 0 <= i < |log| && log[i].Answered? ==>
      Fits(log[..i], log[i].answer) && InTime(stopping, stopAt, i, log[i].answer)
  }

  ghost predicate TimesOf(log: seq<Result>, at: map<Id, Time>) {
    forall id :: id in at ==> WasWritten(log, id, at[id])
  }

  /** The answer to come fits already, each id is remembered with the time it
      was written, and the job being cleared has its result. */
  ghost predicate InvAnswers(s: State) {
    && AllFit(s.log, s.stopping, s.stopAt)
    && (s.intake.Answering? ==>
          Fits(s.log, s.intake.answer) && InTime(s.stopping, s.stopAt, |s.log|, s.intake.answer))
    && TimesOf(s.log, s.written.at)
    && (s.writer.Clearing? ==> FinalOf(s.writer.hand, s.writer.outcome) in s.log)
  }

  lemma StillFits(log: seq<Result>, result: Result, answer: Answer)
    requires Fits(log, answer)
    ensures Fits(log + [result], answer)
  {
    var more := log + [result];
    match answer
    case InProgress(id) =>
      var m :| 0 <= m < |log| && log[m].Accepted? && log[m].job.id == id;
      assert more[m].Accepted?;
    case AlreadyWritten(id, at) => StillWritten(log, result, id, at);
    case _ =>
  }

  lemma StillWritten(log: seq<Result>, result: Result, id: Id, at: Time)
    requires WasWritten(log, id, at)
    ensures WasWritten(log + [result], id, at)
  {
    var more := log + [result];
    var m :| 0 <= m < |log| && log[m].Final? && log[m].outcome.Written? && log[m].job.id == id
          && log[m].last.endedAt == at;
    assert more[m].Final?;
  }

  lemma AllFitOneMore(log: seq<Result>, stopping: bool, stopAt: nat, result: Result)
    requires AllFit(log, stopping, stopAt)
    requires result.Answered? ==> Fits(log, result.answer) && InTime(stopping, stopAt, |log|, result.answer)
    ensures AllFit(log + [result], stopping, stopAt)
  {
    hide Fits, InTime;
    var more := log + [result];
    forall i | 0 <= i < |more| && more[i].Answered?
      ensures Fits(more[..i], more[i].answer) && InTime(stopping, stopAt, i, more[i].answer)
    {
      assert more[..i] == log[..i];
      assert i == |log| ==> log[..i] == log;
    }
  }

  lemma TimesOneMore(log: seq<Result>, result: Result, at: map<Id, Time>)
    requires TimesOf(log, at)
    ensures TimesOf(log + [result], at)
  {
    hide WasWritten;
    forall id | id in at
      ensures WasWritten(log + [result], id, at[id])
    {
      StillWritten(log, result, id, at[id]);
    }
  }

  /** One result more, whatever it is, keeps what is said of the log. */
  lemma LogGrows(s: State, result: Result)
    requires InvAnswers(s)
    requires result.Answered? ==> Fits(s.log, result.answer) && InTime(s.stopping, s.stopAt, |s.log|, result.answer)
    ensures AllFit(s.log + [result], s.stopping, s.stopAt) && TimesOf(s.log + [result], s.written.at)
    ensures s.intake.Answering? ==>
              && Fits(s.log + [result], s.intake.answer)
              && InTime(s.stopping, s.stopAt, |s.log| + 1, s.intake.answer)
    ensures s.writer.Clearing? ==> FinalOf(s.writer.hand, s.writer.outcome) in s.log + [result]
  {
    hide Fits, AllFit, TimesOf;
    AllFitOneMore(s.log, s.stopping, s.stopAt, result);
    TimesOneMore(s.log, result, s.written.at);
    if s.intake.Answering? {
      StillFits(s.log, result, s.intake.answer);
    }
  }

  /** While the intake pushes nothing, an active id is that of an accepted
      job. */
  lemma ActiveWasAccepted(s: State, id: Id)
    requires InvOrder(s) && InvActive(s) && InvBehind(s.log) && InvAnswers(s)
    requires s.intake.Idle? && id in s.active
    ensures WasAccepted(s.log, id)
  {
    hide AllFit, TimesOf, Fits, AcceptedJobs, FinishedJobs, Immediates;
    var jobs := ActiveJobs(Uncleared(s.writer), s.queue, s.intake);
    var k :| 0 <= k < |Ids(jobs)| && Ids(jobs)[k] == id;
    if s.writer.Clearing? && jobs[k] == s.writer.hand.job {
      var final := FinalOf(s.writer.hand, s.writer.outcome);
      var i :| 0 <= i < |s.log| && s.log[i] == final;
      var j :| 0 <= j < i && s.log[j] == Accepted(s.log[i].job);
      assert s.log[j].Accepted? && s.log[j].job.id == id;
    } else {
      assert jobs[k] in InHand(s.writer) + s.queue;
      assert jobs[k] in AcceptedJobs(s.log);
      AcceptedIsLogged(s.log, jobs[k]);
    }
  }

  lemma AnswersKeptByTake(s: State, message: Message)
    requires InvOrder(s) && InvActive(s) && InvBehind(s.log) && InvAnswers(s)
    ensures InvAnswers(DoTake(s, message))
  {
    hide InvOrder, InvActive, InvBehind, AllFit, WasAccepted, WasWritten;
    if s.intake.Idle? && message.Tx? && message.id in s.active {
      ActiveWasAccepted(s, message.id);
    }
  }

  lemma AnswersKeptByIntake(cfg: Config, s: State, step: IntakeStep)
    requires InvOrder(s) && InvActive(s) && InvBehind(s.log) && InvStop(s) && InvAnswers(s)
    ensures InvAnswers(IntakeNext(s, step))
  {
    hide InvOrder, InvActive, InvBehind, AllFit, TimesOf, Fits, NoneAcceptedFrom, Taken;
    match step
    case Take(message) => AnswersKeptByTake(s, message);
    case CheckStopping => if s.intake.Looked? { RefusedFits(s.log, s.intake.job.id); }
    case Announce => if s.intake.Registered? { LogGrows(s, Accepted(s.intake.job)); }
    case PushAnswer => if s.intake.Answering? { LogGrows(s, Answered(s.intake.serial, s.intake.answer)); }
    case _ =>
  }

  lemma RefusedFits(log: seq<Result>, id: Id)
    ensures Fits(log, Refused(id))
  {
  }

  lemma AnswersKeptByReport(s: State)
    requires InvAnswers(s)
    ensures InvAnswers(DoReport(s))
  {
    hide AllFit, TimesOf, Fits;
    if s.writer.Reporting? {
      LogGrows(s, FinalOf(s.writer.hand, s.writer.outcome));
    }
  }

  lemma AnswersKeptByClear(cfg: Config, s: State)
    requires cfg.Valid() && InvMemory(cfg, s) && InvAnswers(s)
    ensures InvAnswers(DoClear(cfg, s))
  {
    hide AllFit, Fits, Remember, FarApart, Recent, WrittenHistory;
    if s.writer.Clearing? && TxMuFree(s) && s.writer.outcome.Written? {
      var hand := s.writer.hand;
      RememberCoherent(s.written, cfg.limit, hand.job.id, hand.last.endedAt);
      var i :| 0 <= i < |s.log| && s.log[i] == FinalOf(hand, s.writer.outcome);
      assert WasWritten(s.log, hand.job.id, hand.last.endedAt);
    }
  }

  lemma AnswersKeptByRest(cfg: Config, s: State, step: WriterStep)
    requires InvAnswers(s) && !step.Report? && !step.Clear?
    ensures InvAnswers(WriterNext(cfg, s, step))
  {
    hide AllFit, Fits, TimesOf, WriterNext, InTime;
    WriterLeaves(cfg, s, step);
    ClearingStays(cfg, s, step);
  }

  lemma ClearingStays(cfg: Config, s: State, step: WriterStep)
    requires !step.Report? && !step.Clear?
    ensures var next := WriterNext(cfg, s, step);
            && (next.writer.Clearing? ==> next.writer == s.writer)
            && next.stopping == s.stopping && next.stopAt == s.stopAt
  {
    hide CanEnd, DoReport, DoClear;
  }

  lemma AnswersKeptByWriter(cfg: Config, s: State, step: WriterStep)
    requires cfg.Valid() && InvMemory(cfg, s) && InvAnswers(s)
    ensures InvAnswers(WriterNext(cfg, s, step))
  {
    hide InvMemory, InvAnswers;
    hide DoPopJob, DoCheckJob, DoStartWrite, DoPortAccepts, DoEndWrite, DoPortAwaited, DoReport, DoClear, DoEnd;
    match step
    case Report => AnswersKeptByReport(s);
    case Clear => AnswersKeptByClear(cfg, s);
    case _ => AnswersKeptByRest(cfg, s, step);
  }

  lemma AnswersKeptByShutdown(cfg: Config, s: State, step: ShutdownStep)
    requires InvStop(s) && InvAnswers(s)
    ensures InvAnswers(ShutdownNext(s, step))
  {
    hide Fits, TimesOf, NoneAcceptedFrom;
    forall i | 0 <= i < |s.log| && s.log[i].Answered? && !s.stopping
      ensures !s.log[i].answer.Refused?
    {
    }
  }

  lemma AnswersKept(cfg: Config, s: State, action: Action)
    requires cfg.Valid() && Inv(cfg, s) && InvAnswers(s)
    ensures InvAnswers(Next(cfg, s, action))
  {
    hide InvOrder, InvActive, InvMemory, InvBytes, InvStop, InvCalls, InvBehind, InvFresh, InvLossless;
    hide InvAnswers, IntakeNext, WriterNext, ShutdownNext;
    match action
    case ByIntake(step) => AnswersKeptByIntake(cfg, s, step);
    case ByWriter(step) => AnswersKeptByWriter(cfg, s, step);
    case ByShutdown(step) => AnswersKeptByShutdown(cfg, s, step);
    case ByClock(passes) => AnswersKeptByClock(s, passes);
  }

  lemma AnswersKeptByClock(s: State, passes: nat)
    requires InvAnswers(s)
    ensures InvAnswers(s.(now := s.now + passes))
  {
    hide AllFit, Fits, TimesOf, InTime;
  }

  lemma ReachableKeepsAnswers(cfg: Config, s: State)
    requires cfg.Valid() && Reachable(cfg, s)
    ensures Inv(cfg, s) && InvAnswers(s)
  {
    hide Inv, InvAnswers, Next;
    forall t, action | Inv(cfg, t) && InvAnswers(t)
      ensures Inv(cfg, Next(cfg, t, action)) && InvAnswers(Next(cfg, t, action))
    {
      InvKept(cfg, t, action);
      AnswersKept(cfg, t, action);
    }
    InvInitially(cfg);
    AnswersInitially();
    Runs.InvariantHolds(INITIAL, StepsOf(cfg), (t: State) => Inv(cfg, t) && InvAnswers(t), s);
  }

  lemma AnswersInitially()
    ensures InvAnswers(INITIAL)
  {
  }

  // What the answers say.

  /** The ids of the jobs in hand or waiting. */
  function InHandOrWaiting(s: State): seq<Id> {
    Ids(ActiveJobs(Uncleared(s.writer), s.queue, s.intake))
  }

  /** The ids reported written and moved, as far back as they are remembered. */
  function LastWritten(cfg: Config, s: State): seq<Id> {
    var history := WrittenHistory(s.log);
    if |Unmoved(s.writer)| <= |history| then Recent(history[..|history| - |Unmoved(s.writer)|], cfg.limit) else []
  }

  /** Which answer a message gets, in every state it can come in: the message
      alone, the jobs in hand or waiting, and the results already given decide. */
  lemma AnswerIsRight(cfg: Config, s: State, message: Message)
    requires cfg.Valid() && Reachable(cfg, s) && s.intake.Idle?
    ensures var taken := Next(cfg, s, ByIntake(Take(message))).intake;
            && (taken.Answering? && taken.answer == Invalid <==> message.Unreadable?)
            && (taken.Answering? && taken.answer.InProgress? <==> message.Tx? && message.id in InHandOrWaiting(s))
            && (taken.Answering? && taken.answer.AlreadyWritten? <==>
                  message.Tx? && message.id !in InHandOrWaiting(s) && message.id in LastWritten(cfg, s))
            && (taken.Answering? && message.Tx? && !taken.answer.Invalid? ==> taken.answer.id == message.id)
            && (taken.Looked? <==>
                  message.Tx? && message.id !in InHandOrWaiting(s) && message.id !in LastWritten(cfg, s))
            && (taken.Looked? ==> taken.job == Job(s.taken, message.id, message.data, message.deadline))
            && (taken.Looked? || taken.Answering?)
  {
    hide Reachable, InvOrder, InvBytes, InvStop, InvCalls, InvBehind, InvFresh, InvLossless, WrittenHistory, FarApart;
    ReachableKeepsInv(cfg, s);
  }

  /** What becomes of a message that is looked at: accepted unless the agent
      stops, and refused only if it does. */
  lemma LookedIsAcceptedUnlessStopping(cfg: Config, s: State)
    requires cfg.Valid() && Reachable(cfg, s) && s.intake.Looked?
    ensures var next := Next(cfg, s, ByIntake(CheckStopping));
            if s.stopping then next.intake == Answering(s.intake.job.serial, Refused(s.intake.job.id))
            else
              var announced := Next(cfg, next, ByIntake(Announce));
              var pushed := Next(cfg, announced, ByIntake(PushJob));
              && announced.log == s.log + [Accepted(s.intake.job)]
              && pushed.intake.Idle? && pushed.queue == s.queue + [s.intake.job]
  {
  }

  /** Every answer given is true of what was reported before it: in_progress
      stands behind an accepted of its id, already_written behind a written of
      its id with its time, and agent_stopping behind the stop. */
  lemma AnswersAreTrue(cfg: Config, s: State, i: nat)
    requires cfg.Valid() && Reachable(cfg, s) && i < |s.log| && s.log[i].Answered?
    ensures match s.log[i].answer
            case Invalid => true
            case InProgress(id) => exists m :: 0 <= m < i && s.log[m].Accepted? && s.log[m].job.id == id
            case AlreadyWritten(id, at) =>
              exists m :: 0 <= m < i && s.log[m].Final? && s.log[m].outcome.Written? && s.log[m].job.id == id
                       && s.log[m].last.endedAt == at
            case Refused(_) => s.stopping && i >= s.stopAt
  {
    hide Reachable, Inv, TimesOf;
    ReachableKeepsAnswers(cfg, s);
    var answer := s.log[i].answer;
    assert Fits(s.log[..i], answer) && InTime(s.stopping, s.stopAt, i, answer);
    match answer
    case InProgress(id) =>
      var m :| 0 <= m < i && s.log[..i][m].Accepted? && s.log[..i][m].job.id == id;
      assert s.log[m].Accepted?;
    case AlreadyWritten(id, at) =>
      var m :| 0 <= m < i && s.log[..i][m].Final? && s.log[..i][m].outcome.Written? && s.log[..i][m].job.id == id
            && s.log[..i][m].last.endedAt == at;
      assert s.log[m].Final?;
    case _ =>
  }

  // What led to a result.

  /** The causes of a result lie in the run: the stop, the cut of the writes,
      and times that have come. */
  ghost predicate Happened(last: Last, stopping: bool, writesCut: bool, now: Time) {
    && (last.stopping ==> stopping)
    && (last.ending == Some(CutShort) ==> writesCut)
    && last.checkedAt <= last.endedAt <= now
  }

  ghost predicate AllHappened(log: seq<Result>, stopping: bool, writesCut: bool, now: Time) {
    forall i :: 0 <= i < |log| && log[i].Final? ==> Happened(log[i].last, stopping, writesCut, now)
  }

  ghost predicate InvCauses(s: State) {
    && s.now >= 0
    && AllHappened(s.log, s.stopping, s.writesCut, s.now)
    && (!s.writer.Waiting? && !s.writer.Ended? ==> Happened(s.writer.hand.last, s.stopping, s.writesCut, s.now))
  }

  lemma HappenedOneMore(log: seq<Result>, stopping: bool, writesCut: bool, now: Time, result: Result)
    requires AllHappened(log, stopping, writesCut, now)
    requires result.Final? ==> Happened(result.last, stopping, writesCut, now)
    ensures AllHappened(log + [result], stopping, writesCut, now)
  {
    hide Happened;
  }

  lemma CausesKeptByIntake(s: State, step: IntakeStep)
    requires InvCauses(s)
    ensures InvCauses(IntakeNext(s, step))
  {
    hide AllHappened, Happened, Taken;
    match step
    case Announce =>
      if s.intake.Registered? { HappenedOneMore(s.log, s.stopping, s.writesCut, s.now, Accepted(s.intake.job)); }
    case PushAnswer =>
      if s.intake.Answering? {
        HappenedOneMore(s.log, s.stopping, s.writesCut, s.now, Answered(s.intake.serial, s.intake.answer));
      }
    case _ =>
  }

  lemma CausesKeptByWriter(cfg: Config, s: State, step: WriterStep)
    requires InvCauses(s)
    ensures InvCauses(WriterNext(cfg, s, step))
  {
    hide AllHappened, Remember;
    if step.Report? && s.writer.Reporting? {
      HappenedOneMore(s.log, s.stopping, s.writesCut, s.now, FinalOf(s.writer.hand, s.writer.outcome));
    }
  }

  lemma CausesKeptByRest(s: State, step: ShutdownStep, passes: nat)
    requires InvCauses(s)
    ensures InvCauses(ShutdownNext(s, step)) && InvCauses(s.(now := s.now + passes))
  {
  }

  lemma ReachableKeepsCauses(cfg: Config, s: State)
    requires Reachable(cfg, s)
    ensures InvCauses(s)
  {
    hide InvCauses;
    forall t, action | InvCauses(t)
      ensures InvCauses(Next(cfg, t, action))
    {
      hide IntakeNext, WriterNext, ShutdownNext;
      match action
      case ByIntake(step) => CausesKeptByIntake(t, step);
      case ByWriter(step) => CausesKeptByWriter(cfg, t, step);
      case ByShutdown(step) => CausesKeptByRest(t, step, 0);
      case ByClock(passes) => CausesKeptByRest(t, CloseQueue, passes);
    }
    assert InvCauses(INITIAL) by { CausesInitially(); }
    hide Next;
    Runs.InvariantHolds(INITIAL, StepsOf(cfg), InvCauses, s);
  }

  lemma CausesInitially()
    ensures InvCauses(INITIAL)
  {
  }

  /** Every later result says what led to it: written exactly if its write
      completed, expired exactly if the deadline had passed at the last check
      and the agent was not stopping, write_failed only for a port that broke or
      that was closed with bytes out, port_unavailable only after every attempt
      found the port closed or for a device that cannot be written, and
      agent_stopping only if the agent was stopping or the writes were cut. */
  lemma OutcomesAreTrue(cfg: Config, s: State, i: nat)
    requires cfg.Valid() && Reachable(cfg, s) && i < |s.log| && s.log[i].Final?
    ensures var final := s.log[i];
            var job, outcome, last := final.job, final.outcome, final.last;
            && last.checkedAt <= last.endedAt <= s.now
            && (outcome.Written? <==> last.ending == Some(Complete))
            && (outcome.Expired? <==> !last.stopping && job.deadline.Some? && job.deadline.value <= last.checkedAt)
            && (outcome.Failed? ==> last.ending == Some(Broken) || (last.ending == Some(NotOpen) && outcome.bytes > 0))
            && (outcome.PortUnavailable? ==>
                  if cfg.writable then last.ending == Some(NotOpen) && final.calls == cfg.attempts + 1
                  else final.calls == 0)
            && (outcome.Stopped? ==> s.stopping || s.writesCut)
            && (last.stopping ==> outcome == Stopped(0))
  {
    hide Reachable, InvOrder, InvActive, InvMemory, InvBytes, InvStop, InvBehind, InvFresh, InvLossless;
    ReachableKeepsInv(cfg, s);
    ReachableKeepsCauses(cfg, s);
    var final := s.log[i];
    assert ResultAllowed(cfg, final.job, final.outcome, final.calls, final.late, final.last);
    assert Happened(final.last, s.stopping, s.writesCut, s.now);
  }
}
