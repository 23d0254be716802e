/** A device's port between the reader's sessions, the goroutine that closes each
    session's port, and the device's writer, in every interleaving. The steps
    are cut where the device's lock or the port's lock is taken or released, and
    a writer keeps the port it found whatever happens to the session. */
module PortRace {
  import Runs
  import opened Helpers

  /** Where the reader is with the port it opened; ports are numbered as they
      are opened. */
  datatype Reader =
    | Outside
    | HasOpened(port: nat)
    | HasShared(port: nat)
    | HasReported(port: nat)
    | Looping(port: nat)
    | Ending(port: nat)

  /** The session's closer: first the port is withdrawn, then closed. */
  datatype Closer = NoCloser | Armed(port: nat) | HasWithdrawn(port: nat)

  /** The writer has the port it found, and inside a chunk its lock. */
  datatype Writer = Idle | Holding(port: nat) | InChunk(port: nat)

  /** What happens, in order: the reports, what the session and its closer do
      with the port, what a write finds as it begins, and what reaches the
      library. */
  datatype Trace =
    | OpenFailed
    | Shares(port: nat)
    | Opened(port: nat)
    | Withdraws(port: nat)
    | LibraryCloses(port: nat)
    | Lost(port: nat)
    | Closed(port: nat)
    | Finds(port: nat)
    | FindsNone
    | Refused(port: nat)
    | LibraryWrites(port: nat)

  /** ports is how many were opened; closed are those whose shared port takes no
      more writes. */
  datatype State = State(
    stopping: bool,
    ports: nat,
    inSession: Option<nat>,
    closed: set<nat>,
    reader: Reader,
    closer: Closer,
    writer: Writer,
    trace: seq<Trace>)

  const INITIAL := State(false, 0, None, {}, Outside, NoCloser, Idle, [])

  datatype ReaderStep = OpenPort(ok: bool) | Share | ReportOpened | StartCloser | LeaveLoop | ReportEnd(lost: bool)

  datatype CloserStep = Withdraw | ClosePort

  datatype WriterStep = BeginWrite | EnterChunk | LibraryWrite | LeaveChunk | EndWrite

  datatype Action = Stop | ByReader(reader: ReaderStep) | ByCloser(closer: CloserStep) | ByWriter(writer: WriterStep)

  /** The reports of an end wait for the closer; an end is a loss unless the
      agent stops. */
  function ReaderNext(s: State, step: ReaderStep): State {
    match step
    case OpenPort(ok) =>
      if !s.reader.Outside? then s
      else if ok then s.(reader := HasOpened(s.ports), ports := s.ports + 1)
      else s.(trace := s.trace + [OpenFailed])
    case Share =>
      if !s.reader.HasOpened? then s
      else
        var port := s.reader.port;
        s.(reader := HasShared(port), inSession := Some(port), trace := s.trace + [Shares(port)])
    case ReportOpened =>
      if !s.reader.HasShared? then s
      else s.(reader := HasReported(s.reader.port), trace := s.trace + [Opened(s.reader.port)])
    case StartCloser =>
      if !s.reader.HasReported? then s
      else s.(reader := Looping(s.reader.port), closer := Armed(s.reader.port))
    case LeaveLoop => if s.reader.Looping? then s.(reader := Ending(s.reader.port)) else s
    case ReportEnd(lost) =>
      if !(s.reader.Ending? && s.closer.NoCloser? && (lost || s.stopping)) then s
      else s.(reader := Outside, trace := s.trace + [if lost then Lost(s.reader.port) else Closed(s.reader.port)])
  }

  /** The closer sets off when the agent stops or the session leaves its loop.
      The close waits for a chunk that is being written. */
  function CloserNext(s: State, step: CloserStep): State {
    match step
    case Withdraw =>
      if !(s.closer.Armed? && (s.stopping || s.reader.Ending?)) then s
      else
        var port := s.closer.port;
        s.(closer := HasWithdrawn(port), inSession := None, trace := s.trace + [Withdraws(port)])
    case ClosePort =>
      if !s.closer.HasWithdrawn? || s.writer == InChunk(s.closer.port) then s
      else
        var port := s.closer.port;
        s.(closer := NoCloser, closed := s.closed + {port}, trace := s.trace + [LibraryCloses(port)])
  }

  function WriterNext(s: State, step: WriterStep): State {
    match step
    case BeginWrite =>
      if !s.writer.Idle? then s
      else if s.inSession.None? then s.(trace := s.trace + [FindsNone])
      else s.(writer := Holding(s.inSession.value), trace := s.trace + [Finds(s.inSession.value)])
    case EnterChunk =>
      if !s.writer.Holding? then s
      else
        var port := s.writer.port;
        if port in s.closed then s.(writer := Idle, trace := s.trace + [Refused(port)]) else s.(writer := InChunk(port))
    case LibraryWrite => if s.writer.InChunk? then s.(trace := s.trace + [LibraryWrites(s.writer.port)]) else s
    case LeaveChunk => if s.writer.InChunk? then s.(writer := Holding(s.writer.port)) else s
    case EndWrite => if s.writer.Holding? then s.(writer := Idle) else s
  }

  function Next(s: State, action: Action): State {
    match action
    case Stop => s.(stopping := true)
    case ByReader(step) => ReaderNext(s, step)
    case ByCloser(step) => CloserNext(s, step)
    case ByWriter(step) => WriterNext(s, step)
  }

  ghost predicate Reachable(s: State) {
    Runs.Reachable(INITIAL, Next, s)
  }

  // Who has which port.

  ghost predicate AllClosedBelow(closed: set<nat>, ports: nat) {
    forall port: nat :: port < ports ==> port in closed
  }

  /** The port of the session that is there, and what its closer has done. */
  ghost predicate SessionOf(ports: nat, stopping: bool, inSession: Option<nat>, closed: set<nat>,
                            reader: Reader, closer: Closer)
  {
    if reader.Outside? then inSession == None && closer == NoCloser && AllClosedBelow(closed, ports)
    else
      var port := reader.port;
      && port + 1 == ports && AllClosedBelow(closed, port)
      && match reader
         case HasOpened(_) => inSession == None && closer == NoCloser && port !in closed
         case HasShared(_) => inSession == Some(port) && closer == NoCloser && port !in closed
         case HasReported(_) => inSession == Some(port) && closer == NoCloser && port !in closed
         case _ =>
           || (closer == Armed(port) && inSession == Some(port) && port !in closed)
           || (closer == HasWithdrawn(port) && inSession == None && port !in closed && (stopping || reader.Ending?))
           || (closer == NoCloser && inSession == None && port in closed && (stopping || reader.Ending?))
  }

  ghost predicate InvPorts(s: State) {
    && SessionOf(s.ports, s.stopping, s.inSession, s.closed, s.reader, s.closer)
    && (forall port :: port in s.closed ==> port < s.ports)
    && (s.writer.Holding? ==> s.writer.port < s.ports)
    && (s.writer.InChunk? ==> s.writer.port < s.ports && s.writer.port !in s.closed)
  }

  lemma PortsKept(s: State, action: Action)
    requires InvPorts(s)
    ensures InvPorts(Next(s, action))
  {
    match action
    case Stop =>
    case ByReader(step) => PortsKeptByReader(s, step);
    case ByCloser(step) => PortsKeptByCloser(s, step);
    case ByWriter(step) => PortsKeptByWriter(s, step);
  }

  lemma PortsKeptByReader(s: State, step: ReaderStep)
    requires InvPorts(s)
    ensures InvPorts(ReaderNext(s, step))
  {
  }

  lemma PortsKeptByCloser(s: State, step: CloserStep)
    requires InvPorts(s)
    ensures InvPorts(CloserNext(s, step))
  {
  }

  lemma PortsKeptByWriter(s: State, step: WriterStep)
    requires InvPorts(s)
    ensures InvPorts(WriterNext(s, step))
  {
    hide AllClosedBelow;
  }

  // What the trace says of it.

  ghost predicate Ended(trace: seq<Trace>, port: nat) { Lost(port) in trace || Closed(port) in trace }

  ghost predicate IsAt(reader: Reader, port: nat) { !reader.Outside? && reader.port == port }

  /** What has happened to a port. */
  ghost predicate ToldOf(s: State, port: nat) {
    && (Shares(port) in s.trace <==> port < s.ports && s.reader != HasOpened(port))
    && (Opened(port) in s.trace <==> port < s.ports && s.reader != HasOpened(port) && s.reader != HasShared(port))
    && (Withdraws(port) in s.trace <==> port < s.ports && s.reader != HasOpened(port) && s.inSession != Some(port))
    && (LibraryCloses(port) in s.trace <==> port in s.closed)
    && (Ended(s.trace, port) <==> port < s.ports && !IsAt(s.reader, port))
  }

  ghost predicate InvTold(s: State) {
    && (forall port: nat :: ToldOf(s, port))
    && (!s.writer.Idle? ==> Finds(s.writer.port) in s.trace)
  }

  lemma ToldKept(s: State, action: Action)
    requires InvPorts(s) && InvTold(s)
    ensures InvTold(Next(s, action))
  {
    forall port: nat
      ensures ToldOf(Next(s, action), port)
    {
      assert ToldOf(s, port);
      ToldKeptOf(s, action, port);
    }
    FoundKept(s, action);
  }

  lemma FoundKept(s: State, action: Action)
    requires InvTold(s)
    ensures var next := Next(s, action); !next.writer.Idle? ==> Finds(next.writer.port) in next.trace
  {
    hide ToldOf;
  }

  lemma ToldKeptOf(s: State, action: Action, port: nat)
    requires InvPorts(s) && ToldOf(s, port)
    ensures ToldOf(Next(s, action), port)
  {
    match action
    case Stop =>
    case ByReader(step) => ToldKeptByReader(s, step, port);
    case ByCloser(step) => ToldKeptByCloser(s, step, port);
    case ByWriter(step) => ToldKeptByWriter(s, step, port);
  }

  lemma ToldKeptByReader(s: State, step: ReaderStep, port: nat)
    requires InvPorts(s) && ToldOf(s, port)
    ensures ToldOf(ReaderNext(s, step), port)
  {
    hide AllClosedBelow;
  }

  lemma ToldKeptByCloser(s: State, step: CloserStep, port: nat)
    requires InvPorts(s) && ToldOf(s, port)
    ensures ToldOf(CloserNext(s, step), port)
  {
    hide AllClosedBelow;
  }

  lemma ToldKeptByWriter(s: State, step: WriterStep, port: nat)
    requires InvPorts(s) && ToldOf(s, port)
    ensures ToldOf(WriterNext(s, step), port)
  {
    hide AllClosedBelow, SessionOf;
  }

  // What may follow what.

  /** Whether an entry may stand behind those before it. */
  ghost predicate Lawful(before: seq<Trace>, entry: Trace) {
    match entry
    case OpenFailed => true
    case Shares(port) => Shares(port) !in before && forall earlier: nat :: earlier < port ==> Ended(before, earlier)
    case Opened(port) => Shares(port) in before && Withdraws(port) !in before
    case Withdraws(port) => Opened(port) in before && Withdraws(port) !in before
    case LibraryCloses(port) => Withdraws(port) in before && LibraryCloses(port) !in before
    case Lost(port) => LibraryCloses(port) in before && !Ended(before, port)
    case Closed(port) => LibraryCloses(port) in before && !Ended(before, port)
    case Finds(port) => Shares(port) in before && Withdraws(port) !in before
    case FindsNone => forall port :: Shares(port) in before ==> Withdraws(port) in before
    case Refused(port) => LibraryCloses(port) in before
    case LibraryWrites(port) => Finds(port) in before && LibraryCloses(port) !in before
  }

  ghost predicate AllLawful(trace: seq<Trace>) {
    forall i :: 0 <= i < |trace| ==> Lawful(trace[..i], trace[i])
  }

  lemma LawfulOneMore(trace: seq<Trace>, entry: Trace)
    requires AllLawful(trace) && Lawful(trace, entry)
    ensures AllLawful(trace + [entry])
  {
    hide Lawful;
    var more := trace + [entry];
    forall i | 0 <= i < |more|
      ensures Lawful(more[..i], more[i])
    {
      assert more[..i] == trace[..i];
      assert i == |trace| ==> trace[..i] == trace;
    }
  }

  /** A step leaves the trace, or adds a lawful entry. */
  ghost predicate AddsLawfully(before: seq<Trace>, after: seq<Trace>) {
    after == before || (|after| == |before| + 1 && after[..|before|] == before && Lawful(before, after[|before|]))
  }

  lemma ReaderIsLawful(s: State, step: ReaderStep)
    requires InvPorts(s) && InvTold(s)
    ensures AddsLawfully(s.trace, ReaderNext(s, step).trace)
  {
    if !s.reader.Outside? {
      assert ToldOf(s, s.reader.port);
      forall earlier: nat | earlier < s.reader.port
        ensures Ended(s.trace, earlier)
      {
        assert ToldOf(s, earlier);
      }
    }
  }

  lemma CloserIsLawful(s: State, step: CloserStep)
    requires InvPorts(s) && InvTold(s)
    ensures AddsLawfully(s.trace, CloserNext(s, step).trace)
  {
    if !s.reader.Outside? {
      assert ToldOf(s, s.reader.port);
    }
  }

  lemma WriterIsLawful(s: State, step: WriterStep)
    requires InvPorts(s) && InvTold(s)
    ensures AddsLawfully(s.trace, WriterNext(s, step).trace)
  {
    hide AllClosedBelow;
    if !s.writer.Idle? {
      assert ToldOf(s, s.writer.port);
    }
    if s.inSession.Some? {
      assert ToldOf(s, s.inSession.value);
    } else {
      forall port | Shares(port) in s.trace
        ensures Withdraws(port) in s.trace
      {
        assert ToldOf(s, port);
      }
    }
  }

  lemma LawfulKept(s: State, action: Action)
    requires InvPorts(s) && InvTold(s) && AllLawful(s.trace)
    ensures AllLawful(Next(s, action).trace)
  {
    hide InvPorts, InvTold, AllLawful, Lawful, ReaderNext, CloserNext, WriterNext;
    match action {
      case Stop =>
      case ByReader(step) => ReaderIsLawful(s, step);
      case ByCloser(step) => CloserIsLawful(s, step);
      case ByWriter(step) => WriterIsLawful(s, step);
    }
    var after := Next(s, action).trace;
    if after != s.trace {
      assert after == s.trace + [after[|s.trace|]];
      LawfulOneMore(s.trace, after[|s.trace|]);
    }
  }

  ghost predicate Inv(s: State) {
    InvPorts(s) && InvTold(s) && AllLawful(s.trace)
  }

  lemma ReachableKeepsInv(s: State)
    requires Reachable(s)
    ensures Inv(s)
  {
    hide InvPorts, InvTold, AllLawful, Next;
    forall t, action | Inv(t)
      ensures Inv(Next(t, action))
    {
      PortsKept(t, action);
      ToldKept(t, action);
      LawfulKept(t, action);
    }
    assert Inv(INITIAL) by { InvInitially(); }
    Runs.InvariantHolds(INITIAL, Next, Inv, s);
  }

  lemma InvInitially()
    ensures Inv(INITIAL)
  {
  }

  // What holds in every run.

  lemma LawfulAt(trace: seq<Trace>, i: nat)
    requires AllLawful(trace) && i < |trace|
    ensures Lawful(trace[..i], trace[i])
  {
  }

  lemma AtIsIn(trace: seq<Trace>, i: nat, j: nat)
    requires i < j <= |trace|
    ensures trace[i] in trace[..j]
  {
    assert trace[..j][i] == trace[i];
  }

  /** A port that is closed was withdrawn before. */
  lemma ClosedAfterWithdrawn(trace: seq<Trace>, k: nat, port: nat)
    requires AllLawful(trace) && k <= |trace| && LibraryCloses(port) in trace[..k]
    ensures Withdraws(port) in trace[..k]
  {
    var c :| 0 <= c < k && trace[..k][c] == LibraryCloses(port);
    assert Lawful(trace[..c], trace[c]);
    var w :| 0 <= w < c && trace[..c][w] == Withdraws(port);
    AtIsIn(trace, w, k);
  }

  lemma StaysIn(trace: seq<Trace>, entry: Trace, i: nat, j: nat)
    requires i <= j <= |trace| && entry in trace[..i]
    ensures entry in trace[..j]
  {
    assert trace[..i] <= trace[..j];
  }

  /** Once a session's end is reported, its port accepts nothing any more, not
      even from a write that found it earlier, and no write finds it. */
  lemma NothingAfterTheEnd(s: State, i: nat, j: nat, port: nat)
    requires Reachable(s) && i < j < |s.trace|
    requires s.trace[i] == Lost(port) || s.trace[i] == Closed(port)
    ensures s.trace[j] != LibraryWrites(port) && s.trace[j] != LibraryCloses(port) && s.trace[j] != Finds(port)
  {
    hide Reachable, InvPorts, InvTold, AllLawful;
    ReachableKeepsInv(s);
    LawfulAt(s.trace, i);
    LawfulAt(s.trace, j);
    StaysIn(s.trace, LibraryCloses(port), i, j);
    ClosedAfterWithdrawn(s.trace, j, port);
  }

  /** The library's Write is never called on a port after its Close. */
  lemma NoWriteAfterClose(s: State, i: nat, j: nat, port: nat)
    requires Reachable(s) && i < j < |s.trace| && s.trace[i] == LibraryCloses(port)
    ensures s.trace[j] != LibraryWrites(port)
  {
    hide Reachable, InvPorts, InvTold;
    ReachableKeepsInv(s);
    AtIsIn(s.trace, i, j);
    LawfulAt(s.trace, j);
  }

  /** A write that begins finds a port exactly between its sharing and the
      closer's first step; as long as the session reads and the agent does not
      stop, it finds the one reported open, and its first chunk goes out. */
  lemma OpenedPortIsFound(s: State, port: nat)
    requires Reachable(s)
    ensures s.inSession == Some(port) <==> Shares(port) in s.trace && Withdraws(port) !in s.trace
    ensures Opened(port) in s.trace && Withdraws(port) !in s.trace && s.writer.Idle? ==>
              var begun := Next(s, ByWriter(BeginWrite));
              && begun.writer == Holding(port)
              && Next(begun, ByWriter(EnterChunk)).writer == InChunk(port)
    ensures Opened(port) in s.trace && IsAt(s.reader, port) && !s.reader.Ending? && !s.stopping ==>
              Withdraws(port) !in s.trace
  {
    hide Reachable, AllLawful, AllClosedBelow;
    ReachableKeepsInv(s);
    assert ToldOf(s, port);
  }

  /** A write that finds no port although one was reported open began after the
      closer's first step; one that a port refuses, after its close. */
  lemma NoneIsFoundOnlyAfterWithdrawal(s: State, i: nat, j: nat, port: nat)
    requires Reachable(s) && i < j < |s.trace| && s.trace[i] == Opened(port)
    ensures s.trace[j] == FindsNone ==> Withdraws(port) in s.trace[i + 1..j]
    ensures s.trace[j] == Refused(port) ==> LibraryCloses(port) in s.trace[i + 1..j]
  {
    hide Reachable, InvPorts, InvTold, AllLawful, Ended;
    ReachableKeepsInv(s);
    var trace := s.trace;
    LawfulAt(trace, i);
    LawfulAt(trace, j);
    assert trace[..j] == trace[..i] + [trace[i]] + trace[i + 1..j];
    if trace[j] == FindsNone {
      StaysIn(trace, Shares(port), i, j);
    } else if LibraryCloses(port) in trace[..i] {
      ClosedAfterWithdrawn(trace, i, port);
    }
  }

  /** One session after the other: before a port is shared, every earlier one's
      end has been reported, so at most one port is not closed. */
  lemma OneSessionAtATime(s: State, p: nat, q: nat)
    requires Reachable(s) && p < q < s.ports
    ensures p in s.closed && Ended(s.trace, p)
  {
    hide Reachable, AllLawful;
    ReachableKeepsInv(s);
    assert ToldOf(s, p);
  }

  // Sessions can always end.

  ghost predicate LeadsTo(s: State, end: State) {
    Runs.Reachable(s, Next, end)
  }

  function Work(s: State): nat {
    (match s.reader
     case HasOpened(_) => 9
     case HasShared(_) => 8
     case HasReported(_) => 7
     case Looping(_) => 4
     case Ending(_) => 3
     case Outside => 0)
    + (if s.closer.Armed? then 2 else if s.closer.HasWithdrawn? then 1 else 0)
    + (if s.writer.InChunk? then 1 else 0)
  }

  /** Whose turn it is on the way to the session's end. */
  function Turn(s: State): Action {
    if s.writer.InChunk? then ByWriter(LeaveChunk)
    else
      match s.reader
      case HasOpened(_) => ByReader(Share)
      case HasShared(_) => ByReader(ReportOpened)
      case HasReported(_) => ByReader(StartCloser)
      case Looping(_) => ByReader(LeaveLoop)
      case Ending(_) =>
        if s.closer.Armed? then ByCloser(Withdraw)
        else if s.closer.HasWithdrawn? then ByCloser(ClosePort)
        else ByReader(ReportEnd(true))
      case Outside => Stop
  }

  lemma TurnGetsOn(s: State)
    requires !s.reader.Outside? && InvPorts(s)
    ensures Work(Next(s, Turn(s))) < Work(s) && Next(s, Turn(s)).ports == s.ports
  {
    hide AllClosedBelow;
  }

  lemma {:induction false} SessionFinishes(s: State) returns (end: State)
    requires Reachable(s)
    ensures LeadsTo(s, end) && Reachable(end) && end.reader.Outside? && end.ports == s.ports
    decreases Work(s)
  {
    hide Reachable, Next, Turn, Work, InvPorts, InvTold, AllLawful;
    if s.reader.Outside? {
      Runs.InitialIsReachable(s, Next);
      end := s;
    } else {
      ReachableKeepsInv(s);
      TurnGetsOn(s);
      assert Reachable(Next(s, Turn(s))) by { OneStepOn(s, Turn(s)); }
      end := SessionFinishes(Next(s, Turn(s)));
      Runs.ReachableFromNext(Next, s, Turn(s), end);
    }
  }

  lemma OneStepOn(s: State, action: Action)
    requires Reachable(s)
    ensures Reachable(Next(s, action))
  {
    hide Next;
    Runs.NextIsReachable(INITIAL, Next, s, action);
  }

  /** Wherever a run has come to, the session that is there can be brought to
      its end, with its port closed and its end reported. */
  lemma SessionCanEnd(s: State) returns (end: State)
    requires Reachable(s)
    ensures LeadsTo(s, end) && end.reader.Outside? && end.inSession == None
    ensures !s.reader.Outside? ==> s.reader.port in end.closed && Ended(end.trace, s.reader.port)
  {
    hide Reachable, LeadsTo, AllLawful;
    end := SessionFinishes(s);
    ReachableKeepsInv(s);
    ReachableKeepsInv(end);
    if !s.reader.Outside? {
      assert ToldOf(end, s.reader.port);
    }
  }
}
