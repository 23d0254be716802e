/** The reader: it opens the port, frames what it reads until the port fails or
    the agent stops, and opens it again. The operating system and the agent's
    stop choose freely. A run goes on for as long as the agent does, so a run
    here is cut after any number of turns. */
module Reader {
  import opened Separators
  import opened Framing
  import opened FramingTrace
  import opened Pipeline
  import opened Backoff
  import WritePath

  /** One finished or cut session: the reads and timeouts in it, and how it
      ended. */
  datatype Session =
    | FailedOpen(class_: ErrorClass)
    | Lasting(ops: seq<Op>, end: SessionEnd)

  datatype SessionEnd = Cut | Lost(class_: ErrorClass) | Closed

  /** Discards as the reader reports them. */
  function Reports(discards: seq<Discard>): seq<PortEvent> {
    if discards == [] then []
    else
      var last := discards[|discards| - 1];
      Reports(discards[..|discards| - 1]) + [BytesDiscarded(last.reason, last.bytes)]
  }

  /** What the framer does with one read or timeout. */
  function Did(cfg: Config, st: State, op: Op): Step
    requires cfg.Valid()
  {
    if op.Arrive? then Read(cfg, st, op.src) else Silence(st)
  }

  /** What one read or timeout makes the reader report. */
  function ToldOf(cfg: Config, st: State, op: Op): seq<PortEvent>
    requires cfg.Valid()
  {
    (if op.Arrive? then [BytesRead(|op.src|)] else []) + Reports(Discards(cfg, Did(cfg, st, op).events))
  }

  /** What the reads and timeouts of a session make the reader report. */
  function Told(cfg: Config, ops: seq<Op>): seq<PortEvent>
    requires cfg.Valid()
  {
    if ops == [] then []
    else
      var before := ops[..|ops| - 1];
      Told(cfg, before) + ToldOf(cfg, FramingTrace.Run(cfg, before).state, ops[|ops| - 1])
  }

  function EventsOf(cfg: Config, session: Session): seq<PortEvent>
    requires cfg.Valid()
  {
    match session
    case FailedOpen(class_) => [PortOpenFailed(class_)]
    case Lasting(ops, end) => [PortOpened] + Told(cfg, ops) + EndEvent(end)
  }

  function EndEvent(end: SessionEnd): seq<PortEvent> {
    match end
    case Cut => []
    case Lost(class_) => [PortLost(class_)]
    case Closed => [PortClosed]
  }

  function EventsOfAll(cfg: Config, sessions: seq<Session>): seq<PortEvent>
    requires cfg.Valid()
  {
    if sessions == [] then []
    else EventsOfAll(cfg, sessions[..|sessions| - 1]) + EventsOf(cfg, sessions[|sessions| - 1])
  }

  /** The frames in what a session read. */
  function FramesOf(cfg: Config, session: Session): seq<Bytes>
    requires cfg.Valid()
  {
    if session.FailedOpen? then [] else Frames(FramingTrace.Run(cfg, session.ops).events)
  }

  function FramesOfAll(cfg: Config, sessions: seq<Session>): seq<Bytes>
    requires cfg.Valid()
  {
    if sessions == [] then []
    else FramesOfAll(cfg, sessions[..|sessions| - 1]) + FramesOf(cfg, sessions[|sessions| - 1])
  }

  /** The bytes read in a session. */
  function BytesOf(session: Session): nat {
    if session.Lasting? then |Stream(session.ops)| else 0
  }

  /** The bytes read in all the sessions. */
  function BytesOfAll(sessions: seq<Session>): nat {
    if sessions == [] then 0
    else BytesOfAll(sessions[..|sessions| - 1]) + BytesOf(sessions[|sessions| - 1])
  }

  /** The session can be followed by another: it ended, and not because the
      agent stops. */
  predicate GoesOn(session: Session) { session.FailedOpen? || session.end.Lost? }

  /** Every session but the last one goes on. */
  ghost predicate WellFormed(sessions: seq<Session>) {
    forall i :: 0 <= i < |sessions| - 1 ==> GoesOn(sessions[i])
  }

  ghost predicate AllGoOn(sessions: seq<Session>) {
    forall i :: 0 <= i < |sessions| ==> GoesOn(sessions[i])
  }

  lemma WellFormedOneMore(earlier: seq<Session>, session: Session)
    requires AllGoOn(earlier)
    ensures WellFormed(earlier + [session])
    ensures GoesOn(session) ==> AllGoOn(earlier + [session])
  {
  }

  /** The last session has not ended. */
  predicate Ongoing(sessions: seq<Session>) {
    sessions != [] && sessions[|sessions| - 1].Lasting? && sessions[|sessions| - 1].end.Cut?
  }

  /** The frames handed on are those of all sessions, or lack some of the last
      one's if the agent's stop ended it. */
  ghost predicate AllHandedOn(cfg: Config, sessions: seq<Session>, sunk: seq<Bytes>)
    requires cfg.Valid()
  {
    && sunk <= FramesOfAll(cfg, sessions)
    && (sessions != [] ==> FramesOfAll(cfg, sessions[..|sessions| - 1]) <= sunk)
    && (sessions == [] || !sessions[|sessions| - 1].Lasting? || !sessions[|sessions| - 1].end.Closed? ==>
          sunk == FramesOfAll(cfg, sessions))
  }

  // What reports say of a session.

  /** Only reads and discards. */
  ghost predicate OnlyBytes(middle: seq<PortEvent>) {
    forall i :: 0 <= i < |middle| ==> !ChangesPort(middle[i])
  }

  /** The discards among the reports. */
  function DiscardsIn(trace: seq<PortEvent>): seq<PortEvent> {
    if trace == [] then []
    else
      var last := trace[|trace| - 1];
      DiscardsIn(trace[..|trace| - 1]) + (if last.BytesDiscarded? then [last] else [])
  }

  lemma ReportsOneMore(discards: seq<Discard>, i: nat)
    requires i <= |discards|
    ensures Reports(discards[..0]) == []
    ensures i < |discards| ==>
              Reports(discards[..i + 1]) ==
              Reports(discards[..i]) + [BytesDiscarded(discards[i].reason, discards[i].bytes)]
  {
    if i < |discards| {
      assert discards[..i + 1][..i] == discards[..i];
    }
  }

  lemma {:induction false} ReportsConcat(a: seq<Discard>, b: seq<Discard>)
    ensures Reports(a + b) == Reports(a) + Reports(b)
  {
    if b == [] {
      assert a + b == a;
    } else {
      var before, last := b[..|b| - 1], b[|b| - 1];
      ReportsConcat(a, before);
      assert (a + b)[..|a + b| - 1] == a + before;
      assert Reports(a + b) == Reports(a + before) + [BytesDiscarded(last.reason, last.bytes)];
    }
  }

  lemma {:induction false} ReportsOnlyBytes(discards: seq<Discard>)
    ensures OnlyBytes(Reports(discards))
  {
    if discards != [] {
      ReportsOnlyBytes(discards[..|discards| - 1]);
    }
  }

  lemma DiscardsOneMore(trace: seq<PortEvent>, event: PortEvent)
    ensures DiscardsIn(trace + [event]) == DiscardsIn(trace) + (if event.BytesDiscarded? then [event] else [])
  {
    assert (trace + [event])[..|trace|] == trace;
  }

  /** Reports of discards read nothing, and all are discards. */
  lemma {:induction false} ReportsAfter(middle: seq<PortEvent>, discards: seq<Discard>)
    ensures ReadBytes(middle + Reports(discards)) == ReadBytes(middle)
    ensures DiscardsIn(middle + Reports(discards)) == DiscardsIn(middle) + Reports(discards)
  {
    hide ReadBytes, DiscardsIn;
    if discards == [] {
      assert middle + [] == middle;
    } else {
      var before, last := discards[..|discards| - 1], discards[|discards| - 1];
      var event := BytesDiscarded(last.reason, last.bytes);
      ReportsAfter(middle, before);
      assert middle + Reports(discards) == (middle + Reports(before)) + [event];
      FoldOneMore(middle + Reports(before), event);
      DiscardsOneMore(middle + Reports(before), event);
    }
  }

  /** One read or timeout more. */
  lemma OneMoreOp(cfg: Config, ops: seq<Op>, op: Op)
    requires cfg.Valid()
    ensures var before, after := FramingTrace.Run(cfg, ops), FramingTrace.Run(cfg, ops + [op]);
            var step := Did(cfg, before.state, op);
            && after.state == step.state
            && Frames(after.events) == Frames(before.events) + Frames(step.events)
            && Discards(cfg, after.events) == Discards(cfg, before.events) + Discards(cfg, step.events)
            && Told(cfg, ops + [op]) == Told(cfg, ops) + ToldOf(cfg, before.state, op)
    ensures Stream(ops + [op]) == Stream(ops) + (if op.Arrive? then op.src else [])
  {
    hide Read, Silence, ToldOf, Frames, Discards;
    assert (ops + [op])[..|ops|] == ops;
    var before := FramingTrace.Run(cfg, ops);
    FramesConcat(before.events, Did(cfg, before.state, op).events);
    DiscardsConcat(cfg, before.events, Did(cfg, before.state, op).events);
  }

  /** Between opening and ending there are only reads and discards; the reads
      are of the whole stream, and the discards are the framer's, in order. */
  lemma {:induction false} WhatIsTold(cfg: Config, ops: seq<Op>)
    requires cfg.Valid()
    ensures OnlyBytes(Told(cfg, ops))
    ensures ReadBytes(Told(cfg, ops)) == |Stream(ops)|
    ensures DiscardsIn(Told(cfg, ops)) == Reports(Discards(cfg, FramingTrace.Run(cfg, ops).events))
  {
    if ops == [] {
      assert Discards(cfg, []) == [];
    } else {
      hide Told, FramingTrace.Run, Discards, Reports, Read, Silence, ReadBytes, DiscardsIn, Stream, Did, OnlyBytes;
      var before, op := ops[..|ops| - 1], ops[|ops| - 1];
      assert ops == before + [op];
      WhatIsTold(cfg, before);
      OneMoreOp(cfg, before, op);
      var st := FramingTrace.Run(cfg, before).state;
      TurnIsTold(cfg, Told(cfg, before), st, op);
      ReportsConcat(Discards(cfg, FramingTrace.Run(cfg, before).events), Discards(cfg, Did(cfg, st, op).events));
    }
  }

  lemma TurnIsTold(cfg: Config, middle: seq<PortEvent>, st: State, op: Op)
    requires cfg.Valid() && OnlyBytes(middle)
    ensures var more := middle + ToldOf(cfg, st, op);
            && OnlyBytes(more)
            && ReadBytes(more) == ReadBytes(middle) + (if op.Arrive? then |op.src| else 0)
            && DiscardsIn(more) == DiscardsIn(middle) + Reports(Discards(cfg, Did(cfg, st, op).events))
  {
    hide Reports, Discards, Did, ReadBytes, DiscardsIn;
    var discards := Discards(cfg, Did(cfg, st, op).events);
    var read := if op.Arrive? then middle + [BytesRead(|op.src|)] else middle;
    ReportsOnlyBytes(discards);
    ReportsAfter(read, discards);
    assert middle + ToldOf(cfg, st, op) == read + Reports(discards);
    if op.Arrive? {
      FoldOneMore(middle, BytesRead(|op.src|));
      DiscardsOneMore(middle, BytesRead(|op.src|));
      assert DiscardsIn(middle) + [] == DiscardsIn(middle);
    }
  }

  // What is handed on.

  /** What was handed on since before: the frames of these reads and timeouts,
      or the first ones of them. */
  ghost predicate HandedOn(cfg: Config, ops: seq<Op>, before: seq<Bytes>, now: seq<Bytes>, complete: bool)
    requires cfg.Valid()
  {
    var frames := Frames(FramingTrace.Run(cfg, ops).events);
    && before <= now && now[|before|..] <= frames
    && (complete ==> now == before + frames)
  }

  lemma NothingYet(cfg: Config, sunk: seq<Bytes>)
    requires cfg.Valid()
    ensures HandedOn(cfg, [], sunk, sunk, true)
    ensures Told(cfg, []) == [] && FramingTrace.Run(cfg, []).state == INITIAL
  {
    assert sunk + [] == sunk;
  }

  lemma StillPartly(cfg: Config, ops: seq<Op>, before: seq<Bytes>, now: seq<Bytes>)
    requires cfg.Valid() && HandedOn(cfg, ops, before, now, true)
    ensures HandedOn(cfg, ops, before, now, false)
  {
  }

  lemma HandedOneMore(cfg: Config, ops: seq<Op>, op: Op, before: seq<Bytes>, then_: seq<Bytes>, now: seq<Bytes>,
                      complete: bool)
    requires cfg.Valid() && HandedOn(cfg, ops, before, then_, true)
    requires var frames := Frames(Did(cfg, FramingTrace.Run(cfg, ops).state, op).events);
             then_ <= now && now[|then_|..] <= frames && (complete ==> now == then_ + frames)
    ensures HandedOn(cfg, ops + [op], before, now, complete)
  {
    hide Did, FramingTrace.Run, Stream, Frames, Told, Discards, ToldOf;
    OneMoreOp(cfg, ops, op);
    var earlier := Frames(FramingTrace.Run(cfg, ops).events);
    var frames := Frames(Did(cfg, FramingTrace.Run(cfg, ops).state, op).events);
    assert now == then_ + now[|then_|..];
    assert now[|before|..] == earlier + now[|then_|..];
    assert before + earlier + frames == before + (earlier + frames);
  }

  lemma SessionHandedOn(cfg: Config, earlier: seq<Session>, session: Session, before: seq<Bytes>, now: seq<Bytes>)
    requires cfg.Valid() && before == FramesOfAll(cfg, earlier)
    requires session.Lasting? ==> HandedOn(cfg, session.ops, before, now, !session.end.Closed?)
    requires session.FailedOpen? ==> now == before
    ensures AllHandedOn(cfg, earlier + [session], now)
  {
    hide FramingTrace.Run, Frames;
    var all := earlier + [session];
    assert all[..|all| - 1] == earlier;
    if session.Lasting? {
      assert now == before + now[|before|..];
    } else {
      assert before + [] == before;
    }
  }

  /** As long as every session goes on, all their frames were handed on. */
  lemma AllHandedOnSoFar(cfg: Config, sessions: seq<Session>, sunk: seq<Bytes>)
    requires cfg.Valid() && AllHandedOn(cfg, sessions, sunk) && AllGoOn(sessions)
    ensures sunk == FramesOfAll(cfg, sessions)
  {
    hide FramesOfAll;
  }

  lemma NothingHandedOn(cfg: Config)
    requires cfg.Valid()
    ensures AllHandedOn(cfg, [], []) && EventsOfAll(cfg, []) == []
  {
  }

  // The reader.

  /** What the device must do about writes when an event is reported. */
  predicate Honest(event: PortEvent, takesWrites: bool) {
    && (event.PortOpened? ==> takesWrites)
    && (event.PortLost? || event.PortClosed? || event.PortOpenFailed? ==> !takesWrites)
  }

  /** A wait between sessions: whether the session before it had stayed up, and
      the number of the retry it is the wait for. */
  datatype Retry = Retry(stable: bool, number: nat)

  function LastNumber(retries: seq<Retry>): nat {
    if retries == [] then 0 else retries[|retries| - 1].number
  }

  /** Retries count on, and start over only after a session that stayed up. */
  ghost predicate CountOn(retries: seq<Retry>) {
    forall i :: 0 <= i < |retries| ==>
      retries[i].number == if retries[i].stable then 1 else LastNumber(retries[..i]) + 1
  }

  lemma CountOnOneMore(retries: seq<Retry>, retry: Retry)
    requires CountOn(retries) && retry.number == if retry.stable then 1 else LastNumber(retries) + 1
    ensures CountOn([]) && CountOn(retries + [retry]) && LastNumber(retries + [retry]) == retry.number
  {
    var more := retries + [retry];
    forall i | 0 <= i < |more|
      ensures more[i].number == if more[i].stable then 1 else LastNumber(more[..i]) + 1
    {
      assert more[..i] == retries[..i];
      assert i == |retries| ==> retries[..i] == retries;
    }
  }

  class Reader {
    const cfg: Config
    const pipeline: Pipeline
    const device: WritePath.Device
    /** The agent stops. */
    var stopping: bool
    /** The frames handed on, over all sessions. */
    ghost var sunk: seq<Bytes>
    ghost var sessions: seq<Session>
    /** Whether a write that began as an event was reported found a port. */
    ghost var tookWrites: seq<bool>
    /** How many reads failed. */
    ghost var readErrors: nat
    ghost var retries: seq<Retry>

    ghost predicate Valid()
      reads this, pipeline, device, device.inSession, if device.inSession != null then {device.inSession.port} else {}
    {
      && cfg.Valid() && pipeline.Valid() && device.Valid()
      && |tookWrites| == |pipeline.trace|
      && forall i :: 0 <= i < |tookWrites| ==> Honest(pipeline.trace[i], tookWrites[i])
    }

    /** Of a session's port: the closer has done nothing, withdrawn it, or
        withdrawn and closed it, and the first only if the agent does not
        stop. */
    ghost predicate Holds(shared: WritePath.SharedPort)
      reads this, device, shared, shared.port
    {
      && shared.Valid() && shared.chunkBytes == device.chunkBytes
      && shared.port.line == device.line && shared.port.lossless == device.lossless
      && (device.inSession == shared || device.inSession == null)
      && (shared.closed ==> device.inSession == null)
      && (!stopping ==> device.inSession == shared)
    }

    constructor (cfg: Config, pipeline: Pipeline, device: WritePath.Device)
      requires cfg.Valid() && pipeline.Valid() && device.Valid() && pipeline.trace == [] && device.inSession == null
      ensures Valid() && this.cfg == cfg && this.pipeline == pipeline && this.device == device
      ensures !stopping && sunk == [] && sessions == [] && retries == []
    {
      this.cfg, this.pipeline, this.device := cfg, pipeline, device;
      stopping, sunk, sessions, tookWrites := false, [], [], [];
      readErrors, retries := 0, [];
    }

    /** Every report is counted. At an open the port takes writes already, and
        at an end or a failed open it takes none. */
    method Report(event: PortEvent)
      requires Valid() && Honest(event, device.TakesWrites())
      modifies pipeline, this`tookWrites
      ensures Valid() && pipeline.trace == old(pipeline.trace) + [event]
      ensures tookWrites == old(tookWrites) + [device.TakesWrites()]
    {
      hide TotalsOf;
      pipeline.Count(event);
      tookWrites := tookWrites + [device.TakesWrites()];
    }

    method ReportDiscards(discards: seq<Discard>)
      requires Valid()
      modifies pipeline, this`tookWrites
      ensures Valid() && pipeline.trace == old(pipeline.trace) + Reports(discards)
    {
      hide Reports, TotalsOf;
      var i := 0;
      ReportsOneMore(discards, 0);
      while i < |discards|
        invariant 0 <= i <= |discards| && Valid()
        invariant pipeline.trace == old(pipeline.trace) + Reports(discards[..i])
      {
        Report(BytesDiscarded(discards[i].reason, discards[i].bytes));
        ReportsOneMore(discards, i);
        i := i + 1;
      }
      assert discards[..i] == discards;
    }

    /** Time goes by: the agent may stop, and then the session's closer may get
        on, at its own pace. */
    method TimeGoesBy(shared: WritePath.SharedPort)
      requires Valid() && Holds(shared)
      modifies this`stopping, device`inSession, shared, shared.port
      ensures Valid() && Holds(shared) && (old(stopping) ==> stopping)
    {
      if * {
        stopping := true;
      }
      var closerRuns := *;
      if stopping && closerRuns {
        if device.inSession != null {
          device.Withdraw();
        } else if !shared.closed {
          shared.Close();
        }
      }
    }

    /** The session waits for its closer, which finishes from wherever it is. */
    method AwaitCloser(shared: WritePath.SharedPort)
      requires Valid() && Holds(shared)
      modifies device`inSession, shared, shared.port
      ensures Valid() && shared.closed && device.inSession == null
    {
      if device.inSession != null {
        device.Withdraw();
      }
      if !shared.closed {
        shared.Close();
      }
    }

    /** One session, of at most turns reads. Its reports are those of the reads
        and timeouts it made, the frames handed on are the framer's, up to the
        one at which the agent's stop cut the sending, and when it ends its port
        is closed. */
    method RunSession(turns: nat)
      returns (cut: bool, ghost session: Session, ghost shared: WritePath.SharedPort?)
      requires Valid() && device.inSession == null
      modifies this, pipeline, device
      ensures Valid() && sessions == old(sessions) && retries == old(retries)
      ensures pipeline.trace == old(pipeline.trace) + EventsOf(cfg, session)
      ensures session.Lasting? && session.end.Lost? ==> readErrors == old(readErrors) + 1
      ensures session.Lasting? && session.end.Cut? ==> |session.ops| == turns
      ensures session.Lasting? ==> HandedOn(cfg, session.ops, old(sunk), sunk, !session.end.Closed?)
      ensures session.FailedOpen? ==> sunk == old(sunk) && shared == null
      ensures session.Lasting? ==> shared != null && fresh(shared) && (!session.end.Cut? ==> shared.closed)
      ensures session.Lasting? && session.end.Closed? ==> stopping
      ensures cut <==> session.Lasting? && session.end.Cut?
      ensures !cut ==> device.inSession == null
    {
      hide HandedOn, Told, FramingTrace.Run, TotalsOf, Inv, Frames, Stream;
      var openFails := *;
      if openFails {
        var class_ := *;
        Report(PortOpenFailed(class_));
        return false, FailedOpen(class_), null;
      }
      var port := device.BeginSession();
      Report(PortOpened);

      var ended;
      ghost var ops, complete;
      ghost var before := old(pipeline.trace);
      ended, ops, complete := ReadOn(port, turns);
      assert before + [PortOpened] + Told(cfg, ops) == before + ([PortOpened] + Told(cfg, ops));
      if !ended {
        assert [PortOpened] + Told(cfg, ops) + [] == [PortOpened] + Told(cfg, ops);
        return true, Lasting(ops, Cut), port;
      }
      if complete {
        StillPartly(cfg, ops, old(sunk), sunk);
      }
      ghost var end := EndSession(port);
      session := Lasting(ops, end);
      assert before + ([PortOpened] + Told(cfg, ops)) + EndEvent(end)
          == before + ([PortOpened] + Told(cfg, ops) + EndEvent(end));
      return false, session, port;
    }

    /** The session's loop, of at most turns reads. */
    method ReadOn(shared: WritePath.SharedPort, turns: nat)
      returns (ended: bool, ghost ops: seq<Op>, ghost complete: bool)
      requires Valid() && Holds(shared)
      modifies this`sunk, this`stopping, this`tookWrites, this`readErrors
      modifies pipeline, device`inSession, shared, shared.port
      ensures Valid() && Holds(shared)
      ensures pipeline.trace == old(pipeline.trace) + Told(cfg, ops)
      ensures HandedOn(cfg, ops, old(sunk), sunk, complete)
      ensures !complete ==> stopping && ended
      ensures !ended ==> |ops| == turns && readErrors == old(readErrors)
      ensures ended && !stopping ==> readErrors == old(readErrors) + 1
    {
      hide HandedOn, Told, FramingTrace.Run, TotalsOf, Inv, Frames, Stream, Honest;
      NothingYet(cfg, sunk);
      var framer := new Framer(cfg.sep, cfg.maxFrame);
      ghost var before := pipeline.trace;
      ended, ops, complete := false, [], true;
      assert before + [] == before;
      var turn := 0;
      while turn < turns && !ended
        invariant 0 <= turn <= turns && (!ended ==> |ops| == turn && readErrors == old(readErrors))
        invariant ended && !stopping ==> readErrors == old(readErrors) + 1
        invariant Valid() && Holds(shared) && framer.Valid() && framer.Cfg() == cfg && fresh(framer)
        invariant pipeline.trace == before + Told(cfg, ops)
        invariant framer.Now() == FramingTrace.Run(cfg, ops).state
        invariant HandedOn(cfg, ops, old(sunk), sunk, complete)
        invariant !complete ==> stopping && ended
        decreases turns - turn
      {
        turn := turn + 1;
        ghost var earlier := ops;
        ended, ops, complete := Turn(framer, shared, ops, old(sunk));
        assert before + Told(cfg, earlier) + Told(cfg, ops)[|Told(cfg, earlier)|..] == before + Told(cfg, ops);
      }
    }

    /** The closer finishes, and the end is reported: a loss, unless the agent
        stops. */
    method EndSession(shared: WritePath.SharedPort) returns (ghost end: SessionEnd)
      requires Valid() && Holds(shared)
      modifies pipeline, this`tookWrites, device`inSession, shared, shared.port
      ensures Valid() && shared.closed && device.inSession == null
      ensures !end.Cut? && (end.Closed? <==> stopping)
      ensures pipeline.trace == old(pipeline.trace) + EndEvent(end)
    {
      AwaitCloser(shared);
      if stopping {
        Report(PortClosed);
        return Closed;
      }
      var class_ := *;
      Report(PortLost(class_));
      return Lost(class_);
    }

    /** One turn of the session's loop: the agent stops, the read fails, it
        times out, or it returns bytes. */
    method Turn(framer: Framer, shared: WritePath.SharedPort, ghost ops: seq<Op>, ghost sunkBefore: seq<Bytes>)
      returns (ended: bool, ghost ops': seq<Op>, ghost complete: bool)
      requires Valid() && Holds(shared) && framer.Valid() && framer.Cfg() == cfg
      requires framer.Now() == FramingTrace.Run(cfg, ops).state
      requires HandedOn(cfg, ops, sunkBefore, sunk, true)
      modifies this`sunk, this`stopping, this`tookWrites, this`readErrors
      modifies pipeline, framer, device`inSession, shared, shared.port
      ensures Valid() && Holds(shared) && framer.Valid() && framer.Cfg() == cfg
      ensures framer.Now() == FramingTrace.Run(cfg, ops').state
      ensures Told(cfg, ops) <= Told(cfg, ops')
      ensures pipeline.trace == old(pipeline.trace) + Told(cfg, ops')[|Told(cfg, ops)|..]
      ensures HandedOn(cfg, ops', sunkBefore, sunk, complete)
      ensures !complete ==> stopping && ended
      ensures !ended ==> |ops'| == |ops| + 1 && readErrors == old(readErrors)
      ensures ended ==> stopping || readErrors == old(readErrors) + 1
    {
      hide HandedOn, TotalsOf, Inv, Silence, Read, Told, ToldOf, Did, FramingTrace.Run, Discards;
      hide Frames, Stream, Honest;
      ops', complete := ops, true;
      TimeGoesBy(shared);
      var readFails := *;
      if stopping {
        return true, ops', true;
      }
      if readFails {
        readErrors := readErrors + 1;
        return true, ops', true;
      }
      var src: Bytes := *;
      ghost var sunkThen := sunk;
      ghost var op := if src == [] then Silent else Arrive(src);
      ops' := ops + [op];
      OneMoreOp(cfg, ops, op);
      var frames := Take(framer, src);
      ended := Send(frames, shared);
      complete := !ended;
      HandedOneMore(cfg, ops, op, sunkBefore, sunkThen, sunk, complete);
    }

    /** What a read returned goes through the framer, and is reported: nothing
        is the read's timeout. */
    method Take(framer: Framer, src: Bytes) returns (frames: seq<Bytes>)
      requires Valid() && framer.Valid() && framer.Cfg() == cfg
      modifies pipeline, this`tookWrites, framer
      ensures Valid() && framer.Valid() && framer.Cfg() == cfg
      ensures var op, st := if src == [] then Silent else Arrive(src), old(framer.Now());
              && framer.Now() == Did(cfg, st, op).state
              && frames == Frames(Did(cfg, st, op).events)
              && pipeline.trace == old(pipeline.trace) + ToldOf(cfg, st, op)
    {
      hide TotalsOf, Inv, Silence, Read, Reports, Discards, Frames;
      ghost var st := framer.Now();
      frames := [];
      if src == [] {
        var discard, reported := framer.Timeout();
        ReportDiscards(if reported then [discard] else []);
        SilenceFramesNothing(st);
        assert [] + Reports(Discards(cfg, Silence(st).events)) == Reports(Discards(cfg, Silence(st).events));
      } else {
        Report(BytesRead(|src|));
        var discards;
        frames, discards := framer.Append(src);
        ReportDiscards(discards);
        assert old(pipeline.trace) + [BytesRead(|src|)] + Reports(discards)
            == old(pipeline.trace) + ([BytesRead(|src|)] + Reports(discards));
      }
    }

    /** Hands the frames on in order, until the agent stops. */
    method Send(frames: seq<Bytes>, shared: WritePath.SharedPort) returns (stopped: bool)
      requires Valid() && Holds(shared)
      modifies this`sunk, this`stopping, device`inSession, shared, shared.port
      ensures Valid() && Holds(shared)
      ensures old(sunk) <= sunk && sunk[|old(sunk)|..] <= frames
      ensures !stopped ==> sunk == old(sunk) + frames
      ensures stopped ==> stopping
    {
      var i := 0;
      while i < |frames|
        invariant 0 <= i <= |frames| && sunk == old(sunk) + frames[..i]
        invariant Valid() && Holds(shared)
      {
        TimeGoesBy(shared);
        var notSent := *;
        if stopping && notSent {
          return true;
        }
        sunk := sunk + [frames[i]];
        i := i + 1;
      }
      return false;
    }

    /** The reports and the frames so far are those of the sessions. */
    ghost predicate OfSessions()
      requires cfg.Valid()
      reads this, pipeline
    {
      && WellFormed(sessions)
      && pipeline.trace == EventsOfAll(cfg, sessions)
      && AllHandedOn(cfg, sessions, sunk)
    }

    /** One session more, after sessions that all go on. */
    method AddSession(turns: nat) returns (cut: bool)
      requires Between() && !stopping
      modifies this, pipeline, device
      ensures Valid() && OfSessions()
      ensures cut <==> Ongoing(sessions)
      ensures |sessions| == |old(sessions)| + 1 && retries == old(retries)
      ensures !cut ==> device.inSession == null && (stopping || AllGoOn(sessions))
    {
      hide EventsOf, FramesOfAll, AllHandedOn, HandedOn, WellFormed, Honest, TotalsOf;
      ghost var session, shared;
      ghost var earlier, before := sessions, sunk;
      AllHandedOnSoFar(cfg, sessions, sunk);
      cut, session, shared := RunSession(turns);
      sessions := sessions + [session];
      assert sessions[..|sessions| - 1] == earlier;
      SessionHandedOn(cfg, earlier, session, before, sunk);
      WellFormedOneMore(earlier, session);
    }

    /** Sessions until the agent stops, or the run is cut after rounds of them.
        The reports of the whole run are those of its sessions, each made with
        the port as it says, and so are the frames handed on. */
    method Run(policy: Policy, rounds: nat, turns: nat)
      requires Valid() && device.inSession == null && policy.InRange() && policy.Usable()
      requires pipeline.trace == [] && sessions == [] && sunk == [] && retries == []
      modifies this, pipeline, device
      ensures Valid()
      ensures CountOn(retries) && (stopping || Ongoing(sessions) || |sessions| == |retries| == rounds)
      ensures WellFormed(sessions) && pipeline.trace == EventsOfAll(cfg, sessions)
      ensures AllHandedOn(cfg, sessions, sunk)
      ensures |tookWrites| == |pipeline.trace|
      ensures forall i :: 0 <= i < |pipeline.trace| ==> Honest(pipeline.trace[i], tookWrites[i])
      ensures device.TakesWrites() ==> Ongoing(sessions)
      ensures pipeline.open <==> Ongoing(sessions)
      ensures pipeline.rxBytes == BytesOfAll(sessions)
    {
      Rounds(policy, rounds, turns);
      hide EventsOf, FramesOfAll, OpenAfter, ReadBytes, BytesOfAll, Honest, Discarded, FailedOpens, LastFailure;
      OpenIffOngoing(cfg, sessions);
      BytesAreRead(cfg, sessions);
    }

    /** Between two sessions. */
    ghost predicate Between()
      reads this, pipeline, device, device.inSession, if device.inSession != null then {device.inSession.port} else {}
    {
      Valid() && OfSessions() && device.inSession == null && (stopping || AllGoOn(sessions))
    }

    /** The agent may stop, whatever the reader does. */
    method MayStop()
      requires Valid() && OfSessions()
      modifies this`stopping
      ensures Valid() && OfSessions() && (old(stopping) ==> stopping)
    {
      hide WellFormed, EventsOfAll, AllHandedOn, Honest, TotalsOf;
      if * {
        stopping := true;
      }
    }

    /** The wait after a session; one that stayed up starts the waits over. */
    method WaitToReopen(policy: Policy, before: nat, stable: bool) returns (retry: nat, wait: real)
      requires policy.InRange() && policy.Usable()
      ensures retry == if stable then 1 else before + 1
      ensures !policy.grow ==> wait == policy.interval as real
      ensures policy.grow && FitsIn64(policy) ==> Within(policy, Ideal(policy, retry), wait)
    {
      hide FitsIn64, Within, Ideal;
      retry := if stable then 1 else before + 1;
      var chance: real :| 0.0 <= chance < 1.0;
      wait := Backoff.Wait(policy, retry, chance);
    }

    method NoteRetry(retry: Retry)
      requires Between()
      modifies this`retries
      ensures Between() && retries == old(retries) + [retry]
    {
      hide WellFormed, EventsOfAll, AllHandedOn, Honest, TotalsOf, AllGoOn;
      retries := retries + [retry];
    }

    /** One turn of the loop over sessions: the agent's stop ends it, before or
        after a session, or the session is cut. */
    method Round(policy: Policy, before: nat, turns: nat) returns (retry: nat, over: bool, cut: bool)
      requires Between() && policy.InRange() && policy.Usable()
      requires CountOn(retries) && before == LastNumber(retries)
      modifies this, pipeline, device
      ensures Valid() && OfSessions() && (cut ==> over && Ongoing(sessions))
      ensures !cut ==> Between()
      ensures over ==> stopping || cut
      ensures !over ==> |sessions| == |old(sessions)| + 1
      ensures CountOn(retries) && (!over ==> retry == LastNumber(retries) && |retries| == |old(retries)| + 1)
    {
      hide OfSessions, Honest, TotalsOf, AllGoOn, Ongoing, CountOn, LastNumber;
      retry, over, cut := before, true, false;
      MayStop();
      if stopping {
        return;
      }
      cut := AddSession(turns);
      MayStop();
      if !cut && !stopping {
        var stable, wait := *, 0.0;
        retry, wait := WaitToReopen(policy, before, stable);
        CountOnOneMore(retries, Retry(stable, retry));
        NoteRetry(Retry(stable, retry));
        over := false;
      }
    }

    method Rounds(policy: Policy, rounds: nat, turns: nat)
      requires Valid() && device.inSession == null && policy.InRange() && policy.Usable()
      requires pipeline.trace == [] && sessions == [] && sunk == [] && retries == []
      modifies this, pipeline, device
      ensures Valid() && OfSessions() && (device.TakesWrites() ==> Ongoing(sessions))
      ensures CountOn(retries) && (stopping || Ongoing(sessions) || |sessions| == |retries| == rounds)
    {
      NothingHandedOn(cfg);
      var retry: nat, round, over, cut := 0, 0, false, false;
      assert Between() && CountOn(retries);
      hide OfSessions, Honest, TotalsOf, AllGoOn, CountOn;
      while round < rounds && !over
        invariant Valid() && OfSessions() && CountOn(retries)
        invariant if cut then over && Ongoing(sessions) else Between()
        invariant over ==> stopping || cut
        invariant !over ==> |sessions| == |retries| == round <= rounds && retry == LastNumber(retries)
        decreases rounds - round
      {
        round := round + 1;
        retry, over, cut := Round(policy, retry, turns);
      }
    }
  }

  /** The port counts as open exactly while the last session goes on. */
  lemma {:induction false} OpenIffOngoing(cfg: Config, sessions: seq<Session>)
    requires cfg.Valid() && WellFormed(sessions)
    ensures OpenAfter(EventsOfAll(cfg, sessions)) <==> Ongoing(sessions)
  {
    hide OpenAfter, OnlyBytes, Told, ReadBytes, DiscardsIn, Stream, FramingTrace.Run, Discards;
    if sessions == [] {
      NothingCounted();
    } else {
      var before, last := EventsOfAll(cfg, sessions[..|sessions| - 1]), sessions[|sessions| - 1];
      match last
      case FailedOpen(class_) => OpenOneMore(before, PortOpenFailed(class_));
      case Lasting(ops, end) =>
        var middle := Told(cfg, ops);
        WhatIsTold(cfg, ops);
        OpenThrough(before, middle);
        var all := before + [PortOpened] + middle;
        assert before + ([PortOpened] + middle) == all;
        assert before + ([PortOpened] + middle + EndEvent(end)) == all + EndEvent(end);
        if end.Cut? {
          assert all + [] == all;
        } else {
          OpenOneMore(all, EndEvent(end)[0]);
        }
    }
  }

  lemma OpenThrough(before: seq<PortEvent>, middle: seq<PortEvent>)
    requires OnlyBytes(middle)
    ensures OpenAfter(before + [PortOpened] + middle)
  {
    var all := before + [PortOpened] + middle;
    assert all[|before|].PortOpened?;
    forall j | |before| < j < |all|
      ensures !ChangesPort(all[j])
    {
      assert all[j] == middle[j - |before| - 1];
    }
  }

  lemma {:induction false} ReadBytesConcat(a: seq<PortEvent>, b: seq<PortEvent>)
    ensures ReadBytes(a + b) == ReadBytes(a) + ReadBytes(b)
  {
    if b == [] {
      assert a + b == a;
    } else {
      ReadBytesConcat(a, b[..|b| - 1]);
      assert (a + b)[..|a + b| - 1] == a + b[..|b| - 1];
    }
  }

  lemma SessionBytes(cfg: Config, session: Session)
    requires cfg.Valid()
    ensures ReadBytes(EventsOf(cfg, session)) == BytesOf(session)
  {
    hide Told, Stream, FramingTrace.Run, Discards, DiscardsIn, OnlyBytes, ReadBytes;
    match session
    case FailedOpen(class_) =>
      FoldOneMore([], PortOpenFailed(class_));
      assert [] + [PortOpenFailed(class_)] == [PortOpenFailed(class_)];
      NothingCounted();
    case Lasting(ops, end) =>
      WhatIsTold(cfg, ops);
      SessionReads(Told(cfg, ops), end);
  }

  /** The bytes reported read are those of the sessions. */
  lemma {:induction false} BytesAreRead(cfg: Config, sessions: seq<Session>)
    requires cfg.Valid()
    ensures ReadBytes(EventsOfAll(cfg, sessions)) == BytesOfAll(sessions)
  {
    if sessions != [] {
      hide EventsOf, BytesOf, ReadBytes;
      var earlier, last := sessions[..|sessions| - 1], sessions[|sessions| - 1];
      BytesAreRead(cfg, earlier);
      ReadBytesConcat(EventsOfAll(cfg, earlier), EventsOf(cfg, last));
      SessionBytes(cfg, last);
    }
  }

  lemma SessionReads(middle: seq<PortEvent>, end: SessionEnd)
    ensures ReadBytes([PortOpened] + middle + EndEvent(end)) == ReadBytes(middle)
  {
    ReadBytesConcat([PortOpened], middle);
    ReadBytesConcat([PortOpened] + middle, EndEvent(end));
    assert forall event: PortEvent :: [event][..0] == [];
  }
}
