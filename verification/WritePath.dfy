/** How one tx reaches the line: the port a session holds, written in chunks
    under the lock of its close, and the writer's attempts on top. The
    operating system, the reader's session and the clock choose freely; where a
    lock is free, whoever else wants it may have had it. */
module WritePath {
  import opened Helpers
  import opened WrittenIds
  import opened Separators
  import opened TxProtocol
  import opened TxSafety

  /** Everything the device's ports accepted, over all sessions, and how many
      of their writes broke: failed, or took nothing of what they were given. */
  class Line {
    ghost var sent: Bytes
    ghost var breaks: nat

    constructor ()
      ensures sent == [] && breaks == 0
    {
      sent, breaks := [], 0;
    }
  }

  /** What goes on around a writer: the clock, the agent's stop, and the end of
      the context that writes run in. */
  class Surroundings {
    var now: Time
    var stopping: bool
    var writesCut: bool

    constructor ()
    {
    }

    method TimePasses()
      modifies this
      ensures now >= old(now) && (old(stopping) ==> stopping) && (old(writesCut) ==> writesCut)
    {
      var passes :| passes >= 0;
      now := now + passes;
      if * {
        stopping := true;
      }
      if * {
        writesCut := true;
      }
    }
  }

  /** The library's port. Its Write checks nothing: written to after its Close,
      it would reach whatever reused the descriptor. A lossless one reports no
      error once it has taken every byte it was given. */
  class Port {
    const line: Line
    const lossless: bool
    ghost var closed: bool

    constructor (line: Line, lossless: bool)
      ensures this.line == line && this.lossless == lossless && !closed
    {
      this.line, this.lossless := line, lossless;
      closed := false;
    }

    /** Accepts some of the bytes, possibly none, and may fail as well. */
    method Write(bytes: Bytes) returns (accepted: nat, failed: bool)
      requires !closed
      modifies line
      ensures accepted <= |bytes|
      ensures line.sent == old(line.sent) + bytes[..accepted]
      ensures lossless && failed ==> accepted < |bytes|
      ensures line.breaks == old(line.breaks) + (if failed || (accepted == 0 && bytes != []) then 1 else 0)
    {
      accepted :| 0 <= accepted <= |bytes|;
      var fails := *;
      failed := fails && (accepted < |bytes| || !lossless);
      line.sent := line.sent + bytes[..accepted];
      if failed || (accepted == 0 && bytes != []) {
        line.breaks := line.breaks + 1;
      }
    }

    method Close()
      modifies this
      ensures closed
    {
      closed := true;
    }
  }

  datatype WriteError = NoError | ErrNotOpen | ErrContext | ErrPort

  /** The length of count whole chunks. */
  function WholeChunks(chunkBytes: nat, count: nat): nat { count * chunkBytes }

  ghost predicate IsWholeChunks(chunkBytes: nat, written: nat) {
    exists count: nat :: WholeChunks(chunkBytes, count) == written
  }

  lemma OneMoreChunk(chunkBytes: nat, count: nat)
    ensures WholeChunks(chunkBytes, 0) == 0
    ensures WholeChunks(chunkBytes, count + 1) == WholeChunks(chunkBytes, count) + chunkBytes
  {
  }

  /** What was out, and what is accepted of the part that follows it. */
  lemma PrefixGrows(data: Bytes, from: nat, end: nat, count: nat)
    requires from + count <= end <= |data|
    ensures data[..from] + data[from..end][..count] == data[..from + count]
  {
    assert data[from..end][..count] == data[from..from + count];
  }

  /** The totals reported on the way to written, one for each chunk of which
      something was written: each more than the one before, by a chunk at
      most. */
  ghost predicate Totals(progress: seq<nat>, written: nat, chunkBytes: nat) {
    && (progress == [] ==> written == 0)
    && (progress != [] ==> progress[|progress| - 1] == written)
    && (forall i :: 0 <= i < |progress| ==> 0 < progress[i] <= written)
    && (forall i :: 0 < i < |progress| ==> progress[i - 1] < progress[i] <= progress[i - 1] + chunkBytes)
    && (progress != [] ==> progress[0] <= chunkBytes)
  }

  lemma TotalsOneMore(progress: seq<nat>, written: nat, chunkBytes: nat, more: nat)
    requires Totals(progress, written, chunkBytes) && 0 < more <= chunkBytes
    ensures Totals(progress + [written + more], written + more, chunkBytes)
  {
  }

  lemma NoTotals(chunkBytes: nat)
    ensures Totals([], 0, chunkBytes)
  {
  }

  class SharedPort {
    const port: Port
    const chunkBytes: nat
    var closed: bool

    ghost predicate Valid()
      reads this, port
    {
      chunkBytes >= 1 && closed == port.closed
    }

    constructor (port: Port, chunkBytes: nat)
      requires !port.closed && chunkBytes >= 1
      ensures Valid() && !closed && this.port == port && this.chunkBytes == chunkBytes
    {
      this.port, this.chunkBytes, closed := port, chunkBytes, false;
    }

    /** The session's end. */
    method Close()
      requires Valid()
      modifies this, port
      ensures Valid() && closed
    {
      closed := true;
      port.Close();
    }

    /** The lock is free: time passes, and the session may end, before this
        writer has it. */
    method LockFree(around: Surroundings)
      requires Valid()
      modifies this, port, around
      ensures Valid() && (old(closed) ==> closed)
      ensures Later(around, old(around.now), old(around.stopping), old(around.writesCut))
    {
      around.TimePasses();
      if * {
        Close();
      }
    }

    /** Writes one chunk under the lock, going on after partial writes up to the
        first one that breaks. */
    method WriteChunk(chunk: Bytes) returns (written: nat, err: WriteError)
      requires Valid()
      modifies port.line
      ensures written <= |chunk| && port.line.sent == old(port.line.sent) + chunk[..written]
      ensures err == NoError ==> written == |chunk|
      ensures err == ErrNotOpen <==> closed
      ensures closed ==> written == 0
      ensures err != ErrContext
      ensures port.lossless && err == ErrPort ==> written < |chunk|
      ensures port.line.breaks == old(port.line.breaks) + (if err == ErrPort then 1 else 0)
    {
      if closed {
        return 0, ErrNotOpen;
      }
      written := 0;
      while written < |chunk|
        invariant 0 <= written <= |chunk|
        invariant port.line.sent == old(port.line.sent) + chunk[..written]
        invariant port.line.breaks == old(port.line.breaks)
        invariant !closed && !port.closed
        decreases |chunk| - written
      {
        var accepted, failed := port.Write(chunk[written..]);
        PrefixGrows(chunk, written, |chunk|, accepted);
        written := written + accepted;
        if failed {
          return written, ErrPort;
        }
        if accepted == 0 {
          return written, ErrPort;
        }
      }
      return written, NoError;
    }

    /** Writes the chunk of data at from, as soon as the lock is free. late says
        whether the context had ended by then. */
    method NextChunk(data: Bytes, from: nat, around: Surroundings)
      returns (count: nat, err: WriteError, ghost late: bool)
      requires Valid() && from < |data|
      modifies this, port, port.line, around
      ensures Valid() && (old(closed) ==> closed && count == 0)
      ensures Later(around, old(around.now), old(around.stopping), old(around.writesCut))
      ensures count <= chunkBytes && from + count <= |data|
      ensures port.line.sent == old(port.line.sent) + data[from..from + count]
      ensures port.line.breaks == old(port.line.breaks) + (if err == ErrPort then 1 else 0)
      ensures err == NoError ==> count == chunkBytes || from + count == |data|
      ensures err == ErrNotOpen ==> closed && count == 0
      ensures err != ErrContext
      ensures port.lossless && err == ErrPort ==> from + count < |data|
      ensures late ==> around.writesCut
    {
      var end := if from + chunkBytes < |data| then from + chunkBytes else |data|;
      LockFree(around);
      late := around.writesCut;
      count, err := WriteChunk(data[from..end]);
      assert data[from..end][..count] == data[from..from + count];
    }

    /** Writes data in chunks. The ports accept exactly data[..written]; a
        write that the close or the context ends stops between chunks, and one
        that fails does so at the first write of the port that breaks. progress
        is the totals reported on the way, and late how many chunks began after
        the context had ended. */
    method Write(data: Bytes, around: Surroundings)
      returns (written: nat, err: WriteError, ghost progress: seq<nat>, ghost late: nat)
      requires Valid()
      modifies this, port, port.line, around
      ensures Valid() && (old(closed) ==> closed)
      ensures Later(around, old(around.now), old(around.stopping), old(around.writesCut))
      ensures err == ErrContext ==> around.writesCut
      ensures late <= 1 && (old(around.writesCut) ==> written == 0 && (data != [] ==> err == ErrContext))
      ensures port.line.breaks == old(port.line.breaks) + (if err == ErrPort then 1 else 0)
      ensures written <= |data| && port.line.sent == old(port.line.sent) + data[..written]
      ensures err == NoError ==> written == |data|
      ensures err == ErrNotOpen ==> closed
      ensures port.lossless && err == ErrPort ==> written < |data|
      ensures err == ErrNotOpen || err == ErrContext ==> written < |data| && IsWholeChunks(chunkBytes, written)
      ensures old(closed) ==> written == 0 && (err == NoError <==> data == [])
      ensures Totals(progress, written, chunkBytes)
    {
      hide WholeChunks, Totals;
      NoTotals(chunkBytes);
      written, progress, late := 0, [], 0;
      ghost var chunks := 0;
      OneMoreChunk(chunkBytes, 0);
      while written < |data|
        invariant Valid() && (old(closed) ==> closed && written == 0)
        invariant 0 <= written <= |data|
        invariant port.line.sent == old(port.line.sent) + data[..written]
        invariant port.line.breaks == old(port.line.breaks)
        invariant Later(around, old(around.now), old(around.stopping), old(around.writesCut))
        invariant late <= 1 && (late > 0 ==> around.writesCut) && (old(around.writesCut) ==> written == 0)
        invariant written < |data| ==> written == WholeChunks(chunkBytes, chunks)
        invariant Totals(progress, written, chunkBytes)
        decreases |data| - written
      {
        around.TimePasses();
        if around.writesCut {
          return written, ErrContext, progress, late;
        }
        var chunkWritten, chunkErr;
        ghost var isLate;
        chunkWritten, chunkErr, isLate := NextChunk(data, written, around);
        if isLate {
          late := late + 1;
        }
        assert data[..written] + data[written..written + chunkWritten] == data[..written + chunkWritten];
        assert chunkErr == ErrNotOpen ==> chunkWritten == 0 && IsWholeChunks(chunkBytes, written);
        if chunkWritten > 0 {
          TotalsOneMore(progress, written, chunkBytes, chunkWritten);
        }
        written := written + chunkWritten;
        if chunkWritten > 0 {
          progress := progress + [written];
        }
        if chunkErr != NoError {
          return written, chunkErr, progress, late;
        }
        OneMoreChunk(chunkBytes, chunks);
        chunks := chunks + 1;
      }
      return written, NoError, progress, late;
    }
  }

  /** Time has passed since the clock showed was, and what had ended has. */
  predicate Later(around: Surroundings, was: Time, wasStopping: bool, wasCut: bool)
    reads around
  {
    around.now >= was && (wasStopping ==> around.stopping) && (wasCut ==> around.writesCut)
  }

  class Device {
    const line: Line
    const chunkBytes: nat
    const lossless: bool
    /** What writes go through: null outside a session. */
    var inSession: SharedPort?

    ghost predicate Valid()
      reads this, inSession, if inSession != null then {inSession.port} else {}
    {
      && chunkBytes >= 1
      && (inSession != null ==>
            && inSession.Valid() && inSession.chunkBytes == chunkBytes
            && inSession.port.line == line && inSession.port.lossless == lossless)
    }

    constructor (line: Line, chunkBytes: nat, lossless: bool)
      requires chunkBytes >= 1
      ensures Valid() && inSession == null
      ensures this.line == line && this.chunkBytes == chunkBytes && this.lossless == lossless
    {
      this.line, this.chunkBytes, this.lossless, inSession := line, chunkBytes, lossless, null;
    }

    /** A write that begins now finds a port that is not closed. */
    predicate TakesWrites()
      reads this, inSession
    {
      inSession != null && !inSession.closed
    }

    /** A session begins: the port it opened is the one to write through. */
    method BeginSession() returns (shared: SharedPort)
      requires Valid()
      modifies this`inSession
      ensures Valid() && TakesWrites() && inSession == shared
      ensures fresh(shared) && fresh(shared.port)
    {
      var port := new Port(line, lossless);
      shared := new SharedPort(port, chunkBytes);
      inSession := shared;
    }

    /** A write that begins from here on finds no port. */
    method Withdraw()
      requires Valid()
      modifies this`inSession
      ensures Valid() && inSession == null
    {
      inSession := null;
    }

    /** Whatever the reader did meanwhile: it may have ended its session, and
        opened the port anew. A session that has ended has closed its port. */
    method ReaderRuns()
      requires Valid()
      modifies this, inSession, if inSession != null then {inSession.port} else {}
      ensures Valid()
      ensures old(inSession) != null && inSession != old(inSession) ==> old(inSession).closed
      ensures inSession != old(inSession) && inSession != null ==> TakesWrites()
      ensures inSession != null && inSession != old(inSession) ==> fresh(inSession) && fresh(inSession.port)
      ensures inSession != null && inSession == old(inSession) ==> inSession.port == old(inSession.port)
    {
      if * {
        if inSession != null {
          var shared := inSession;
          Withdraw();
          shared.Close();
        }
        if * {
          var shared := BeginSession();
        }
      }
    }

    method Write(data: Bytes, around: Surroundings) returns (written: nat, err: WriteError)
      requires Valid()
      modifies inSession, if inSession != null then {inSession.port} else {}, line, around
      ensures Valid() && Later(around, old(around.now), old(around.stopping), old(around.writesCut))
      ensures err == ErrContext ==> around.writesCut
      ensures line.breaks == old(line.breaks) + (if err == ErrPort then 1 else 0)
      ensures written <= |data| && line.sent == old(line.sent) + data[..written]
      ensures err == NoError ==> written == |data|
      ensures old(inSession) == null ==> err == ErrNotOpen && written == 0
      ensures !old(TakesWrites()) ==> written == 0
      ensures err == ErrNotOpen ==> inSession == null || inSession.closed
      ensures err == ErrNotOpen ==> written == 0 || written < |data|
      ensures err == ErrContext ==> written < |data|
      ensures err == ErrNotOpen || err == ErrContext ==> IsWholeChunks(chunkBytes, written)
      ensures lossless && err == ErrPort ==> written < |data|
    {
      if inSession == null {
        assert data[..0] == [];
        OneMoreChunk(chunkBytes, 0);
        return 0, ErrNotOpen;
      }
      ghost var progress, late;
      written, err, progress, late := inSession.Write(data, around);
    }

    /** One write of a tx, with whatever port a session has opened by then. */
    method Attempt(data: Bytes, around: Surroundings) returns (written: nat, err: WriteError)
      requires Valid()
      modifies this, inSession, if inSession != null then {inSession.port} else {}, line, around
      ensures Valid() && Later(around, old(around.now), old(around.stopping), old(around.writesCut))
      ensures written <= |data| && line.sent == old(line.sent) + data[..written]
      ensures line.breaks == old(line.breaks) + (if err == ErrPort then 1 else 0)
      ensures err == NoError ==> written == |data|
      ensures err == ErrNotOpen ==> inSession == null || inSession.closed
      ensures err == ErrNotOpen ==> written == 0 || written < |data|
      ensures err == ErrContext ==> around.writesCut && written < |data|
      ensures lossless && err == ErrPort ==> written < |data|
      ensures inSession != null ==>
          || (inSession == old(inSession) && inSession.port == old(inSession.port))
          || (fresh(inSession) && fresh(inSession.port))
    {
      ReaderRuns();
      written, err := Write(data, around);
    }

    /** One turn of writeTx's loop, after so many attempts that found the port
        closed: the result, or one more such attempt. */
    method Turn(cfg: Config, job: Job, around: Surroundings, attempts: nat, ghost late: bool)
      returns (over: bool, outcome: Outcome, ghost calls: nat, ghost last: Last)
      requires Valid() && (cfg.lossless ==> lossless)
      requires attempts <= cfg.attempts && (attempts > 0 ==> cfg.writable && !late) && (late ==> around.stopping)
      modifies this, inSession, if inSession != null then {inSession.port} else {}, line, around
      ensures Valid() && Later(around, old(around.now), old(around.stopping), old(around.writesCut))
      ensures old(around.now) <= last.checkedAt <= last.endedAt <= around.now
      ensures line.sent == old(line.sent) + (if over then Portion(job, outcome) else [])
      ensures line.breaks == old(line.breaks) + (if over && last.ending == Some(Broken) then 1 else 0)
      ensures over ==> ResultAllowed(cfg, job, outcome, calls, late, last)
      ensures over && cfg.lossless ==> !TakenYetFailed(job, outcome)
      ensures last.stopping ==> around.stopping
      ensures last.ending == Some(CutShort) ==> around.writesCut
      ensures over && last.ending == Some(NotOpen) ==> inSession == null || inSession.closed
      ensures !over ==> calls == attempts + 1 <= cfg.attempts && cfg.writable && !late && last.ending == Some(NotOpen)
      ensures inSession != null ==>
          || (inSession == old(inSession) && inSession.port == old(inSession.port))
          || (fresh(inSession) && fresh(inSession.port))
    {
      hide Portion, TakenYetFailed, ResultAllowed;
      calls, over := attempts, true;
      around.TimePasses();
      last := Last(around.now, around.stopping, None, around.now);
      CheckAllows(cfg, job, calls, late, last);
      assert line.sent + [] == line.sent;
      if around.stopping {
        outcome := Stopped(0);
        return;
      }
      if job.Due(around.now) {
        outcome := Expired;
        return;
      }
      outcome := PortUnavailable;
      if !cfg.writable {
        return;
      }
      var written, err := Attempt(job.data, around);
      calls := calls + 1;
      last := last.(ending := Some(EndingOf(err)), endedAt := around.now);
      EndAllows(cfg, job, written, err, calls, late, last);
      if err == NoError {
        outcome := Outcome.Written;
      } else if err == ErrNotOpen && written == 0 {
        over := attempts >= cfg.attempts;
        if !over {
          ReaderRuns();
        }
      } else if err == ErrContext {
        outcome := Stopped(written);
      } else {
        outcome := Failed(written);
      }
    }

    /** writeTx: one tx through the device's port. The port found closed with
        nothing written is asked for again, up to the device's attempts; once
        a byte is out, nothing is retried. last is what led to the outcome, and
        cfg is what is known of the device. */
    method WriteTx(cfg: Config, job: Job, around: Surroundings)
      returns (outcome: Outcome, ghost calls: nat, ghost last: Last)
      requires Valid() && (cfg.lossless ==> lossless)
      modifies this, inSession, if inSession != null then {inSession.port} else {}, line, around
      ensures Valid()
      ensures line.sent == old(line.sent) + Portion(job, outcome)
      ensures ResultAllowed(cfg, job, outcome, calls, old(around.stopping), last)
      ensures last.stopping ==> around.stopping
      ensures last.ending == Some(CutShort) ==> around.writesCut
      ensures old(around.now) <= last.checkedAt <= last.endedAt <= around.now
      ensures line.breaks == old(line.breaks) + (if last.ending == Some(Broken) then 1 else 0)
      ensures last.ending == Some(NotOpen) ==> inSession == null || inSession.closed
      ensures cfg.lossless ==> !TakenYetFailed(job, outcome)
    {
      hide Portion, TakenYetFailed, ResultAllowed;
      var attempts := 0;
      ghost var late := around.stopping;
      while true
        invariant Valid() && attempts <= cfg.attempts
        invariant line.sent == old(line.sent) && line.breaks == old(line.breaks)
        invariant around.now >= old(around.now) && (late ==> around.stopping)
        invariant attempts > 0 ==> cfg.writable && !late
        invariant inSession != null ==>
            || (inSession == old(inSession) && inSession.port == old(inSession.port))
            || (fresh(inSession) && fresh(inSession.port))
        decreases cfg.attempts - attempts
      {
        var over;
        over, outcome, calls, last := Turn(cfg, job, around, attempts, late);
        if over {
          return;
        }
        assert line.sent + [] == line.sent;
        attempts := attempts + 1;
      }
    }
  }

  /** What the check before a write lets a result say. */
  lemma CheckAllows(cfg: Config, job: Job, calls: nat, late: bool, last: Last)
    requires calls <= cfg.attempts && (calls > 0 ==> cfg.writable && !late) && last.ending.None?
    requires late ==> last.stopping
    ensures last.stopping ==> ResultAllowed(cfg, job, Stopped(0), calls, late, last)
    ensures !last.stopping && job.Due(last.checkedAt) ==> ResultAllowed(cfg, job, Expired, calls, late, last)
    ensures !last.stopping && !job.Due(last.checkedAt) && !cfg.writable ==>
              ResultAllowed(cfg, job, PortUnavailable, calls, late, last)
    ensures Portion(job, Stopped(0)) == Portion(job, Expired) == Portion(job, PortUnavailable) == []
    ensures !TakenYetFailed(job, Stopped(0)) && !TakenYetFailed(job, Expired) && !TakenYetFailed(job, PortUnavailable)
  {
  }

  /** What the end of a write lets a result say. */
  lemma EndAllows(cfg: Config, job: Job, written: nat, err: WriteError, calls: nat, late: bool, last: Last)
    requires 1 <= calls <= cfg.attempts + 1 && cfg.writable && !late
    requires !last.stopping && !job.Due(last.checkedAt) && last.ending == Some(EndingOf(err))
    requires written <= |job.data| && (err == NoError ==> written == |job.data|)
    requires err == ErrNotOpen ==> written == 0 || written < |job.data|
    requires err == ErrContext ==> written < |job.data|
    ensures err == NoError ==> ResultAllowed(cfg, job, Outcome.Written, calls, late, last)
    ensures err == ErrNotOpen && written == 0 && calls == cfg.attempts + 1 ==>
              ResultAllowed(cfg, job, PortUnavailable, calls, late, last)
    ensures err == ErrContext ==> ResultAllowed(cfg, job, Stopped(written), calls, late, last)
    ensures err == ErrPort || (err == ErrNotOpen && written > 0) ==>
              ResultAllowed(cfg, job, Failed(written), calls, late, last)
    ensures err == NoError ==> Portion(job, Outcome.Written) == job.data[..written]
    ensures Portion(job, Stopped(written)) == Portion(job, Failed(written)) == job.data[..written]
    ensures written == 0 ==> job.data[..written] == Portion(job, PortUnavailable) == []
    ensures !TakenYetFailed(job, Outcome.Written) && !TakenYetFailed(job, PortUnavailable)
    ensures !TakenYetFailed(job, Stopped(written))
    ensures TakenYetFailed(job, Failed(written)) ==> written == |job.data| > 0
  {
    assert job.data[..|job.data|] == job.data;
  }

  /** A write's error as the way it ended. */
  function EndingOf(err: WriteError): Ending {
    match err
    case NoError => Complete
    case ErrNotOpen => NotOpen
    case ErrContext => CutShort
    case ErrPort => Broken
  }
}
