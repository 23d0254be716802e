/** How far apart a device prints one id twice. */
module TxPrints {
  import opened Helpers
  import opened WrittenIds
  import opened Separators
  import opened TxProtocol
  import opened TxSafety
  import opened TxTheorems

  // Which results mean that everything went out.

  /** The whole of a job's data went out exactly when the job is reported
      written, or its write failed with every byte already taken. The second
      is a port that reports an error together with the last bytes; its id is
      not remembered, so a resend of it prints again. */
  lemma WholeDataOut(cfg: Config, s: State, i: nat)
    requires cfg.Valid() && Reachable(cfg, s) && i < |s.log| && s.log[i].Final?
    requires s.log[i].job.data != []
    ensures var final := s.log[i];
            Portion(final.job, final.outcome) == final.job.data
            <==> final.outcome.Written? || final.outcome == Failed(|final.job.data|)
  {
    hide InvOrder, InvActive, InvMemory, InvBytes, InvBehind, InvStop;
    ReachableKeepsInv(cfg, s);
    var final := s.log[i];
    assert ResultAllowed(cfg, final.job, final.outcome, final.calls, final.late, final.last);
    assert final.job.data[..|final.job.data|] == final.job.data;
  }

  // Two prints of one id.

  lemma HistoryOneMore(log: seq<Result>, result: Result)
    ensures WrittenHistory(log + [result])
         == WrittenHistory(log) + (if result.Final? && result.outcome.Written? then [result.job.id] else [])
  {
    LogOneMore(log, result);
  }

  lemma {:induction false} HistoryConcat(a: seq<Result>, b: seq<Result>)
    ensures WrittenHistory(a + b) == WrittenHistory(a) + WrittenHistory(b)
  {
    if b == [] {
      assert a + b == a;
    } else {
      hide WrittenHistory;
      var before, last := b[..|b| - 1], b[|b| - 1];
      var added := if last.Final? && last.outcome.Written? then [last.job.id] else [];
      HistoryConcat(a, before);
      assert a + b == (a + before) + [last] && b == before + [last];
      HistoryOneMore(a + before, last);
      HistoryOneMore(before, last);
      assert WrittenHistory(a) + WrittenHistory(before) + added == WrittenHistory(a) + (WrittenHistory(before) + added);
    }
  }

  lemma {:induction false} FinishedIsLogged(log: seq<Result>, job: Job) returns (n: nat)
    requires job in FinishedJobs(log)
    ensures n < |log| && log[n].Final? && log[n].job == job
  {
    n := |log| - 1;
    if !(log[n].Final? && log[n].job == job) {
      n := FinishedIsLogged(log[..|log| - 1], job);
    }
  }

  lemma {:induction false} FinalIsCounted(log: seq<Result>, i: nat)
    requires i < |log| && log[i].Final?
    ensures FinalCount(log, log[i].job.serial) >= 1
  {
    if i < |log| - 1 {
      FinalIsCounted(log[..|log| - 1], i);
    }
  }

  lemma {:induction false} TwoFinalsAreCounted(log: seq<Result>, i: nat, j: nat)
    requires i < j < |log| && log[i].Final? && log[j].Final? && log[i].job.serial == log[j].job.serial
    ensures FinalCount(log, log[i].job.serial) >= 2
  {
    if j < |log| - 1 {
      TwoFinalsAreCounted(log[..|log| - 1], i, j);
    } else {
      FinalIsCounted(log[..|log| - 1], i);
    }
  }

  /** No job has two later results. */
  lemma FinalsAreOfDifferentJobs(cfg: Config, s: State, i: nat, j: nat)
    requires cfg.Valid() && Reachable(cfg, s)
    requires i < j < |s.log| && s.log[i].Final? && s.log[j].Final?
    ensures s.log[i].job != s.log[j].job
  {
    hide Reachable, FinalCount, ImmediateCount, AcceptedCount, FinishedJobs, AcceptedJobs;
    if s.log[i].job == s.log[j].job {
      TwoFinalsAreCounted(s.log, i, j);
      ResultsSoFar(cfg, s, s.log[i].job.serial);
    }
  }

  /** An id is accepted again only after the result of its earlier job. */
  lemma AcceptedAfterResult(cfg: Config, s: State, i: nat, j: nat) returns (k: nat)
    requires cfg.Valid() && Reachable(cfg, s)
    requires i < j < |s.log| && s.log[i].Final? && s.log[j].Final? && s.log[i].job.id == s.log[j].job.id
    ensures i < k < j && s.log[k] == Accepted(s.log[j].job)
    ensures s.log[j].job.id !in Recent(WrittenHistory(s.log[..k]), cfg.limit)
  {
    hide Reachable, FinishedJobs, WrittenHistory, Recent, InvOrder, InvActive, InvMemory, InvBytes, InvStop, InvCalls;
    ReachableKeepsInv(cfg, s);
    var log := s.log;
    var m: nat :| m < i && log[m] == Accepted(log[i].job);
    k :| 0 <= k < j && log[k] == Accepted(log[j].job);
    FinalsAreOfDifferentJobs(cfg, s, i, j);
    assert FreshAfter(log[..k], cfg.limit, log[k]);
    if k < i && m < k {
      assert log[..k][m].job.id == log[k].job.id;
      var n := FinishedIsLogged(log[..k], log[i].job);
      FinalsAreOfDifferentJobs(cfg, s, n, i);
    } else if k < i {
      assert FreshAfter(log[..m], cfg.limit, log[m]) && log[..m][k].job.id == log[m].job.id;
      var n := FinishedIsLogged(log[..m], log[j].job);
      FinalsAreOfDifferentJobs(cfg, s, n, j);
    }
  }

  /** The other ids reported written after one result and before a later one. */
  function OthersWritten(log: seq<Result>, i: nat, j: nat, id: Id): set<Id>
    requires i < j <= |log|
  {
    Elements(WrittenHistory(log[i + 1..j])) - {id}
  }

  lemma RecentHolds(history: seq<Id>, limit: nat, at: nat)
    requires at < |history| <= at + limit
    ensures history[at] in Recent(history, limit)
  {
    var recent := Recent(history, limit);
    assert recent[at - (|history| - |recent|)] == history[at];
  }

  /** What of a history follows an id that is not among its last limit ones. */
  lemma ForgottenIsFarBack(earlier: seq<Id>, id: Id, later: seq<Id>, limit: nat)
    requires id !in Recent(earlier + [id] + later, limit)
    ensures |later| >= limit
    ensures Recent(earlier + [id] + later, limit) == later[|later| - limit..]
  {
    var all := earlier + [id] + later;
    assert all[|earlier|] == id;
    if |later| < limit {
      RecentHolds(all, limit, |earlier|);
    }
  }

  lemma LastAreDistinct(cfg: Config, s: State, k: nat)
    requires cfg.Valid() && Reachable(cfg, s) && k <= |s.log|
    ensures Distinct(Recent(WrittenHistory(s.log[..k]), cfg.limit))
  {
    hide Reachable, WrittenHistory, InvOrder, InvActive, InvBytes, InvStop, InvCalls, InvBehind, InvFresh, Coherent;
    ReachableKeepsInv(cfg, s);
    assert s.log == s.log[..k] + s.log[k..];
    HistoryConcat(s.log[..k], s.log[k..]);
    var part, all := WrittenHistory(s.log[..k]), WrittenHistory(s.log);
    var recent := Recent(part, cfg.limit);
    forall a, b | 0 <= a < b < |recent|
      ensures recent[a] != recent[b]
    {
      var from := |part| - |recent|;
      assert all[from + a] == recent[a] && all[from + b] == recent[b];
    }
  }

  /** After a tx is reported written, its id gets no other result before limit
      different other ids were reported written, whatever that result says. */
  lemma NoResultAfterWritten(cfg: Config, s: State, i: nat, j: nat)
    requires cfg.Valid() && Reachable(cfg, s)
    requires i < j < |s.log| && s.log[i].Final? && s.log[j].Final? && s.log[i].job.id == s.log[j].job.id
    requires s.log[i].outcome.Written?
    ensures |OthersWritten(s.log, i, j, s.log[i].job.id)| >= cfg.limit
  {
    hide Reachable, WrittenHistory;
    var log, id := s.log, s.log[i].job.id;
    var k := AcceptedAfterResult(cfg, s, i, j);
    var earlier, later := WrittenHistory(log[..i]), WrittenHistory(log[i + 1..k]);
    HistoryUpTo(log, i, k);
    ForgottenIsFarBack(earlier, id, later, cfg.limit);
    LastAreDistinct(cfg, s, k);
    var window := later[|later| - cfg.limit..];
    DistinctHasAll(window);
    assert log[i + 1..j] == log[i + 1..k] + log[k..j];
    HistoryConcat(log[i + 1..k], log[k..j]);
    SubsetIsSmaller(Elements(window), OthersWritten(log, i, j, id));
  }

  lemma HistoryUpTo(log: seq<Result>, i: nat, k: nat)
    requires i < k <= |log| && log[i].Final? && log[i].outcome.Written?
    ensures WrittenHistory(log[..k]) == WrittenHistory(log[..i]) + [log[i].job.id] + WrittenHistory(log[i + 1..k])
  {
    LogOneMore(log[..i], log[i]);
    assert log[..k] == (log[..i] + [log[i]]) + log[i + 1..k];
    HistoryConcat(log[..i] + [log[i]], log[i + 1..k]);
  }

  /** The result says that all of its data, and there was some, went out. */
  predicate Whole(result: Result) {
    result.Final? && result.job.data != [] && Portion(result.job, result.outcome) == result.job.data
  }

  /** A tx printed whole is followed by a result of its id with fewer than limit
      others written in between only if its own write failed with every byte
      taken. */
  lemma TooSoonOnlyIfTakenYetFailed(cfg: Config, s: State, i: nat, j: nat)
    requires cfg.Valid() && Reachable(cfg, s)
    requires i < j < |s.log| && Whole(s.log[i]) && s.log[j].Final? && s.log[i].job.id == s.log[j].job.id
    requires |OthersWritten(s.log, i, j, s.log[i].job.id)| < cfg.limit
    ensures TakenYetFailed(s.log[i].job, s.log[i].outcome)
  {
    hide Reachable, OthersWritten;
    WholeDataOut(cfg, s, i);
    if s.log[i].outcome.Written? {
      NoResultAfterWritten(cfg, s, i, j);
    }
  }

  /** Between any two whole prints of one id, limit others were written. */
  ghost predicate Spaced(log: seq<Result>, limit: nat) {
    forall i, j :: 0 <= i < j < |log| && Whole(log[i]) && Whole(log[j]) && log[i].job.id == log[j].job.id ==>
      |OthersWritten(log, i, j, log[i].job.id)| >= limit
  }

  /** No double print in a run in which no write failed with every byte taken. */
  lemma NoDoublePrint(cfg: Config, s: State)
    requires cfg.Valid() && Reachable(cfg, s) && NoneTakenYetFailed(s.log)
    ensures Spaced(s.log, cfg.limit)
  {
    hide Reachable, OthersWritten, TakenYetFailed;
    forall i, j | 0 <= i < j < |s.log| && Whole(s.log[i]) && Whole(s.log[j]) && s.log[i].job.id == s.log[j].job.id
      ensures |OthersWritten(s.log, i, j, s.log[i].job.id)| >= cfg.limit
    {
      if |OthersWritten(s.log, i, j, s.log[i].job.id)| < cfg.limit {
        TooSoonOnlyIfTakenYetFailed(cfg, s, i, j);
      }
    }
  }

  /** A writable device never prints an id twice too soon, in any run, if and
      only if its port never fails a write that it has taken whole. */
  lemma NoDoublePrintExactlyWhen(cfg: Config)
    requires cfg.Valid() && cfg.writable
    ensures (forall s :: Reachable(cfg, s) ==> Spaced(s.log, cfg.limit)) <==> cfg.lossless
  {
    hide Reachable, Spaced, InvOrder, InvActive, InvMemory, InvBytes, InvStop, InvCalls, InvBehind, InvFresh;
    if cfg.lossless {
      forall s | Reachable(cfg, s)
        ensures Spaced(s.log, cfg.limit)
      {
        ReachableKeepsInv(cfg, s);
        NoDoublePrint(cfg, s);
      }
    } else {
      var s := PrintsTooSoon(cfg, 0, [0]);
    }
  }

  // A port that fails with everything taken.

  /** Nothing of the device's tx is under way, and id is neither in hand nor
      remembered. */
  ghost predicate Quiet(s: State, id: Id) {
    && s.intake.Idle? && s.writer.Waiting? && s.queue == [] && !s.stopping
    && id !in s.active && id !in s.written.at
  }

  lemma FreshTxIsQueued(cfg: Config, s: State, id: Id, data: Bytes) returns (next: State)
    requires Reachable(cfg, s) && Quiet(s, id)
    ensures var job := Job(s.taken, id, data, None);
            next == s.(taken := s.taken + 1, active := s.active[id := job],
                      log := s.log + [Accepted(job)], queue := [job])
    ensures Reachable(cfg, next)
  {
    hide Reachable;
    var job := Job(s.taken, id, data, None);
    var looked := s.(taken := s.taken + 1, intake := Looked(job));
    var registered := looked.(intake := Registered(job), active := s.active[id := job]);
    var announced := registered.(intake := Announced(job), log := s.log + [Accepted(job)]);
    next := announced.(intake := Idle, queue := [job]);
    StepIsReachable(cfg, s, ByIntake(Take(Tx(id, data, None))), looked);
    StepIsReachable(cfg, looked, ByIntake(CheckStopping), registered);
    StepIsReachable(cfg, registered, ByIntake(Announce), announced);
    StepIsReachable(cfg, announced, ByIntake(PushJob), next);
  }

  /** A port that breaks at once, with everything taken. */
  function TakenButBroken(job: Job, now: Time): Result {
    Final(job, Failed(|job.data|), 1, false, Last(now, false, Some(Broken), now))
  }

  lemma QueuedTxFailsWhole(cfg: Config, s: State, job: Job) returns (next: State)
    requires cfg.writable && !cfg.lossless && Reachable(cfg, s)
    requires s.intake.Idle? && s.writer.Waiting? && !s.stopping && s.queue == [job] && job.deadline.None?
    ensures next == s.(queue := [], active := s.active - {job.id}, sent := s.sent + job.data,
                       log := s.log + [TakenButBroken(job, s.now)])
    ensures Reachable(cfg, next)
  {
    hide Reachable;
    var data := job.data;
    var untried := Hand(job, 0, 0, false, Last(s.now, false, None, s.now));
    var tried := untried.(calls := 1);
    var ended := tried.(last := Last(s.now, false, Some(Broken), s.now));
    var popped := s.(queue := [], writer := Checking(Hand(job, 0, 0, false, NEVER)));
    var ready := popped.(writer := Ready(untried));
    var started := popped.(writer := Writing(tried, 0));
    var out := popped.(writer := Writing(tried, |data|), sent := s.sent + data);
    var broken := out.(writer := Reporting(ended, Failed(|data|)));
    var reported := out.(writer := Clearing(ended, Failed(|data|)), log := s.log + [TakenButBroken(job, s.now)]);
    next := reported.(writer := Waiting, active := s.active - {job.id});
    assert data[0..|data|] == data;
    StepIsReachable(cfg, s, ByWriter(PopJob), popped);
    StepIsReachable(cfg, popped, ByWriter(CheckJob), ready);
    StepIsReachable(cfg, ready, ByWriter(StartWrite), started);
    StepIsReachable(cfg, started, ByWriter(PortAccepts(|data|)), out);
    StepIsReachable(cfg, out, ByWriter(EndWrite(Broken)), broken);
    StepIsReachable(cfg, broken, ByWriter(Report), reported);
    StepIsReachable(cfg, reported, ByWriter(Clear), next);
  }

  lemma OneMorePrint(cfg: Config, s: State, id: Id, data: Bytes) returns (next: State)
    requires cfg.writable && !cfg.lossless && Reachable(cfg, s) && Quiet(s, id)
    ensures Reachable(cfg, next) && Quiet(next, id)
    ensures var job := Job(s.taken, id, data, None);
            next.log == s.log + [Accepted(job), TakenButBroken(job, s.now)]
    ensures next.sent == s.sent + data && WrittenHistory(next.log) == WrittenHistory(s.log)
  {
    hide Reachable, WrittenHistory;
    var job := Job(s.taken, id, data, None);
    var queued := FreshTxIsQueued(cfg, s, id, data);
    next := QueuedTxFailsWhole(cfg, queued, job);
    HistoryUnchanged(s.log, Accepted(job));
    HistoryUnchanged(s.log + [Accepted(job)], TakenButBroken(job, s.now));
  }

  /** A tx that the port takes whole and then fails leaves no trace of its id:
      the same tx is accepted and printed, again and again, with no other id
      written in between. */
  lemma {:induction false} PrintsAgain(cfg: Config, id: Id, data: Bytes, times: nat) returns (s: State)
    requires cfg.writable && !cfg.lossless
    ensures Reachable(cfg, s) && Quiet(s, id)
    ensures s.sent == Repeated(data, times) && WrittenHistory(s.log) == []
  {
    if times == 0 {
      s := INITIAL;
      InitialIsReachable(cfg);
    } else {
      hide Reachable, WrittenHistory, Quiet;
      var earlier := PrintsAgain(cfg, id, data, times - 1);
      s := OneMorePrint(cfg, earlier, id, data);
    }
  }

  function Repeated(data: Bytes, times: nat): Bytes {
    if times == 0 then [] else Repeated(data, times - 1) + data
  }

  /** Two such prints of one tx, with nothing else written in between. */
  lemma PrintsTooSoon(cfg: Config, id: Id, data: Bytes) returns (s: State)
    requires cfg.Valid() && cfg.writable && !cfg.lossless && data != []
    ensures Reachable(cfg, s) && !Spaced(s.log, cfg.limit)
  {
    hide Reachable;
    InitialIsReachable(cfg);
    var first := OneMorePrint(cfg, INITIAL, id, data);
    s := OneMorePrint(cfg, first, id, data);
    assert data[..|data|] == data;
    assert s.log[2..3] == [s.log[2]];
    LogOneMore([], s.log[2]);
    assert [] + [s.log[2]] == [s.log[2]];
    assert WrittenHistory(s.log[2..3]) == [];
    assert Whole(s.log[1]) && Whole(s.log[3]);
    assert OthersWritten(s.log, 1, 3, id) == {};
  }
}
