/** What the tx protocol promises, over every run. */
module TxTheorems {
  import opened Helpers
  import opened WrittenIds
  import opened Separators
  import opened TxProtocol
  import opened TxSafety

  // Exactly one result each.

  /** How many immediate results message serial has. */
  function ImmediateCount(log: seq<Result>, serial: nat): nat {
    if log == [] then 0
    else
      var last := log[|log| - 1];
      ImmediateCount(log[..|log| - 1], serial)
      + (if (last.Accepted? && last.job.serial == serial) || (last.Answered? && last.serial == serial) then 1 else 0)
  }

  function AcceptedCount(log: seq<Result>, serial: nat): nat {
    if log == [] then 0
    else
      var last := log[|log| - 1];
      AcceptedCount(log[..|log| - 1], serial) + (if last.Accepted? && last.job.serial == serial then 1 else 0)
  }

  /** How many later results message serial has. */
  function FinalCount(log: seq<Result>, serial: nat): nat {
    if log == [] then 0
    else
      var last := log[|log| - 1];
      FinalCount(log[..|log| - 1], serial) + (if last.Final? && last.job.serial == serial then 1 else 0)
  }

  function Serials(jobs: seq<Job>): seq<nat> {
    seq(|jobs|, i requires 0 <= i < |jobs| => jobs[i].serial)
  }

  lemma SerialsOneMore(jobs: seq<Job>, job: Job)
    ensures Serials(jobs + [job]) == Serials(jobs) + [job.serial]
  {
  }

  lemma {:induction false} CountsAreMultiplicities(log: seq<Result>, serial: nat)
    ensures ImmediateCount(log, serial) == multiset(Immediates(log))[serial]
    ensures AcceptedCount(log, serial) == multiset(Serials(AcceptedJobs(log)))[serial]
    ensures FinalCount(log, serial) == multiset(Serials(FinishedJobs(log)))[serial]
    ensures AcceptedCount(log, serial) <= ImmediateCount(log, serial)
  {
    if log != [] {
      var earlier, last := log[..|log| - 1], log[|log| - 1];
      hide Serials;
      CountsAreMultiplicities(earlier, serial);
      match last
      case Accepted(job) =>
        SerialsOneMore(AcceptedJobs(earlier), job);
        assert FinishedJobs(log) == FinishedJobs(earlier);
      case Answered(_, _) =>
        assert FinishedJobs(log) == FinishedJobs(earlier) && AcceptedJobs(log) == AcceptedJobs(earlier);
      case Final(job, _, _, _, _) =>
        SerialsOneMore(FinishedJobs(earlier), job);
        assert AcceptedJobs(log) == AcceptedJobs(earlier) && Immediates(log) == Immediates(earlier);
    } else {
      assert Serials([]) == [];
    }
  }

  lemma {:induction false} UpToMultiplicity(count: nat, serial: nat)
    ensures multiset(UpTo(count))[serial] == if serial < count then 1 else 0
  {
    if count > 0 {
      UpToOneMore(count - 1);
      UpToMultiplicity(count - 1, serial);
    } else {
      assert UpTo(0) == [];
    }
  }

  /** At any moment of any run each message taken has exactly one immediate
      result, except that the one the intake has in hand may have none yet; a
      message has at most one later result, only after its accepted; and later
      results come in the order of acceptance. */
  lemma ResultsSoFar(cfg: Config, s: State, serial: nat)
    requires cfg.Valid() && Reachable(cfg, s)
    ensures AnsweredCount(s.taken, s.intake) <= s.taken <= AnsweredCount(s.taken, s.intake) + 1
    ensures ImmediateCount(s.log, serial) == (if serial < AnsweredCount(s.taken, s.intake) then 1 else 0)
    ensures FinalCount(s.log, serial) <= AcceptedCount(s.log, serial) <= 1
    ensures FinishedJobs(s.log) <= AcceptedJobs(s.log)
    ensures InvBehind(s.log)
  {
    hide Immediates, AcceptedJobs, FinishedJobs, ImmediateCount, AcceptedCount, FinalCount, UpTo, Serials, Outstanding;
    hide InvBehind, InvActive, InvMemory, InvBytes, InvCalls;
    ReachableKeepsInv(cfg, s);
    CountsAreMultiplicities(s.log, serial);
    UpToMultiplicity(AnsweredCount(s.taken, s.intake), serial);
    var done, open := FinishedJobs(s.log), Outstanding(InHand(s.writer), s.queue, s.intake);
    SerialsOfSplit(done, open);
  }

  lemma SerialsOfSplit(a: seq<Job>, b: seq<Job>)
    ensures Serials(a + b) == Serials(a) + Serials(b)
  {
  }

  /** When the status queue closes, every message taken has exactly one
      immediate result, every accepted one exactly one later result, and no
      result is outstanding. */
  lemma NoneOutstandingAtClose(cfg: Config, s: State, serial: nat)
    requires cfg.Valid() && Reachable(cfg, s) && s.phase.StatusClosed?
    ensures ImmediateCount(s.log, serial) == (if serial < s.taken then 1 else 0)
    ensures FinalCount(s.log, serial) == AcceptedCount(s.log, serial) <= 1
    ensures AcceptedJobs(s.log) == FinishedJobs(s.log)
    ensures s.active == map[] && s.queue == []
  {
    hide Inv, ImmediateCount, AcceptedCount, FinalCount, Serials;
    ReachableKeepsInv(cfg, s);
    ResultsSoFar(cfg, s, serial);
    CountsAreMultiplicities(s.log, serial);
    NothingLeftAtClose(cfg, s);
  }

  lemma NothingLeftAtClose(cfg: Config, s: State)
    requires Inv(cfg, s) && s.phase.StatusClosed?
    ensures AcceptedJobs(s.log) == FinishedJobs(s.log)
    ensures AnsweredCount(s.taken, s.intake) == s.taken
    ensures s.active == map[] && s.queue == []
    ensures HandPortion(s.writer) == []
  {
    hide InvMemory, InvBytes, InvCalls, InvBehind, Immediates, AcceptedJobs, FinishedJobs, Distinct;
    assert s.writer.Ended? && s.intake.Left?;
    assert Outstanding(InHand(s.writer), s.queue, s.intake) == [];
    assert FinishedJobs(s.log) + [] == FinishedJobs(s.log);
    assert ActiveJobs(Uncleared(s.writer), s.queue, s.intake) == [];
    assert s.active.Keys == {};
  }

  lemma QueuesStayClosed(cfg: Config, s: State, action: Action)
    requires InvStop(s)
    ensures s.phase.StatusClosed? ==> Next(cfg, s, action).log == s.log && Next(cfg, s, action).taken == s.taken
    ensures var next := Next(cfg, s, action);
            s.queueClosed ==> next.queue == s.queue || (s.queue != [] && next.queue == s.queue[1..])
  {
    hide NoneAcceptedFrom, Remember, Taken, Checked, CanEnd, EndedWith;
    match action
    case ByIntake(step) =>
    case ByWriter(step) =>
    case ByShutdown(step) =>
    case ByClock(_) =>
  }

  /** Nothing is pushed to a queue once it is closed: no result to the status
      queue, and no job to the tx queue. */
  lemma ClosedQueuesTakeNothing(cfg: Config, s: State, action: Action)
    requires cfg.Valid() && Reachable(cfg, s)
    ensures var next := Next(cfg, s, action);
            && (s.phase.StatusClosed? ==> next.log == s.log && next.taken == s.taken)
            && (s.queueClosed ==> next.queue == s.queue || (s.queue != [] && next.queue == s.queue[1..]))
  {
    hide Reachable, InvOrder, InvActive, InvMemory, InvBytes, InvStop, InvCalls, InvBehind, Next;
    ReachableKeepsInv(cfg, s);
    QueuesStayClosed(cfg, s, action);
  }

  // No double print.

  function Elements(ids: seq<Id>): set<Id> {
    set id | id in ids
  }

  /** The ids of a history strictly between two places, without one of them. */
  function Between(history: seq<Id>, i: nat, j: nat, id: Id): set<Id>
    requires i < j <= |history|
  {
    Elements(history[i + 1..j]) - {id}
  }

  lemma {:induction false} DistinctHasAll(ids: seq<Id>)
    requires Distinct(ids)
    ensures |Elements(ids)| == |ids|
  {
    if ids != [] {
      var fewer, last := ids[..|ids| - 1], ids[|ids| - 1];
      DistinctHasAll(fewer);
      assert ids == fewer + [last];
      assert Elements(ids) == Elements(fewer) + {last};
      assert last !in fewer;
    }
  }

  lemma SubsetIsSmaller(a: set<Id>, b: set<Id>)
    requires a <= b
    ensures |a| <= |b|
  {
    if a != {} {
      var x :| x in a;
      SubsetIsSmaller(a - {x}, b - {x});
    }
  }

  lemma OthersBetween(history: seq<Id>, limit: nat, i: nat, j: nat)
    requires FarApart(history, limit) && i < j < |history| && history[i] == history[j]
    ensures |Between(history, i, j, history[i])| >= limit
  {
    assert j - i > limit;
    var window := history[i + 1..i + 1 + limit];
    assert Distinct(window);
    DistinctHasAll(window);
    forall id | id in window
      ensures id in Between(history, i, j, history[i])
    {
      var k :| 0 <= k < |window| && window[k] == id;
      assert history[i + 1..j][k] == id;
      assert history[i + 1 + k] == id;
    }
    SubsetIsSmaller(Elements(window), Between(history, i, j, history[i]));
  }

  /** If an id was reported written twice to a device in one run, at least
      TxRememberedIDs different other ids were reported written in between. */
  lemma NoDoubleWrite(cfg: Config, s: State, i: nat, j: nat)
    requires cfg.Valid() && Reachable(cfg, s) && i < j < |WrittenHistory(s.log)|
    requires WrittenHistory(s.log)[i] == WrittenHistory(s.log)[j]
    ensures var history := WrittenHistory(s.log);
            |Between(history, i, j, history[i])| >= cfg.limit
  {
    var history := WrittenHistory(s.log);
    hide WrittenHistory, InvOrder, InvActive, InvBytes, InvStop, InvCalls, InvBehind, Recent, Coherent;
    ReachableKeepsInv(cfg, s);
    OthersBetween(history, cfg.limit, i, j);
  }

  /** What the device remembers is exactly the ids last reported written, up
      to the one whose result is out but which the writer has still to move;
      and none of them is in hand. */
  lemma RemembersTheLast(cfg: Config, s: State)
    requires cfg.Valid() && Reachable(cfg, s)
    ensures var history := WrittenHistory(s.log);
            && Coherent(s.written, cfg.limit)
            && |Unmoved(s.writer)| <= |history|
            && s.written.order == Recent(history[..|history| - |Unmoved(s.writer)|], cfg.limit)
            && s.active.Keys !! s.written.at.Keys
            && (forall id :: id in s.active <==> id in Ids(ActiveJobs(Uncleared(s.writer), s.queue, s.intake)))
            && Distinct(Ids(ActiveJobs(Uncleared(s.writer), s.queue, s.intake)))
  {
    ReachableKeepsInv(cfg, s);
  }

  // What went out.

  /** Over all sessions, what the device's ports accepted is one prefix per
      finished job, in the order of acceptance, and what is out of the job in
      hand: the whole data of one reported written, the bytes a failed or a
      stopped one says, nothing of an expired one or one that found no port. */
  lemma SentIsTheResults(cfg: Config, s: State)
    requires cfg.Valid() && Reachable(cfg, s)
    ensures s.sent == Portions(s.log) + HandPortion(s.writer)
    ensures FinishedJobs(s.log) <= AcceptedJobs(s.log)
    ensures s.phase.StatusClosed? ==> s.sent == Portions(s.log) && FinishedJobs(s.log) == AcceptedJobs(s.log)
  {
    hide InvOrder, InvActive, InvMemory, InvStop, InvCalls, InvBehind;
    ReachableKeepsInv(cfg, s);
    ResultsSoFar(cfg, s, 0);
    if s.phase.StatusClosed? {
      NothingLeftAtClose(cfg, s);
      assert Portions(s.log) + [] == Portions(s.log);
    }
  }

  // Stopping.

  /** Once stopping is set no tx is accepted, the writer starts at most one
      more write, and a job it takes from then on ends as agent_stopping
      without one; and no job gets more than TxOpenAttempts + 1 writes. */
  lemma StoppingEndsWriting(cfg: Config, s: State)
    requires cfg.Valid() && Reachable(cfg, s)
    ensures s.stopping ==> forall i :: s.stopAt <= i < |s.log| ==> !s.log[i].Accepted?
    ensures s.startsAfterStop <= 1
    ensures forall i :: 0 <= i < |s.log| && s.log[i].Final? ==> s.log[i].calls <= cfg.attempts + 1
    ensures forall i :: 0 <= i < |s.log| && s.log[i].Final? && s.log[i].late ==>
              s.log[i].outcome == Stopped(0) && s.log[i].calls == 0
  {
    hide InvOrder, InvActive, InvMemory, InvBytes, InvBehind;
    ReachableKeepsInv(cfg, s);
  }
}
