/** The rotating log file under every pattern of failing file operations, as
    long as only the agent touches the files. */
module LogFile {
  import opened Separators

  /** A file's contents: what each Write put into it, in order. */
  type Contents = seq<Bytes>

  /** The log's files: 0 is the live one, i the one rotated i times. */
  type Files = map<nat, Contents>

  function Size(contents: Contents): nat {
    if contents == [] then 0 else Size(contents[..|contents| - 1]) + |contents[|contents| - 1]|
  }

  function Holds(files: Files, index: nat): Contents {
    if index in files then files[index] else []
  }

  /** The files read from the one rotated oldest times down to the live one. */
  function Reading(files: Files, oldest: nat): Contents {
    if oldest == 0 then Holds(files, 0) else Holds(files, oldest) + Reading(files, oldest - 1)
  }

  ghost predicate IsSuffix(part: Contents, whole: Contents) {
    |part| <= |whole| && whole[|whole| - |part|..] == part
  }

  ghost predicate Within(files: Files, keep: nat) {
    forall index :: index in files ==> index <= keep
  }

  lemma SuffixOfSuffix(a: Contents, b: Contents, c: Contents)
    requires IsSuffix(a, b) && IsSuffix(b, c)
    ensures IsSuffix(a, c)
  {
    assert c[|c| - |a|..] == c[|c| - |b|..][|b| - |a|..];
  }

  lemma SuffixOneMore(part: Contents, whole: Contents, record: Bytes)
    requires IsSuffix(part, whole)
    ensures IsSuffix(part + [record], whole + [record])
  {
  }

  lemma {:induction false} SameReading(a: Files, b: Files, oldest: nat)
    requires forall index: nat :: index <= oldest ==> Holds(a, index) == Holds(b, index)
    ensures Reading(a, oldest) == Reading(b, oldest)
  {
    if oldest > 0 {
      SameReading(a, b, oldest - 1);
    }
  }

  /** Moving a file one generation up into a free place does not change what is
      read, wherever an earlier failure left holes. */
  lemma {:induction false} MovingKeepsReading(files: Files, from: nat, oldest: nat)
    requires from in files && from + 1 !in files && from + 1 <= oldest
    ensures Reading((files - {from})[from + 1 := files[from]], oldest) == Reading(files, oldest)
  {
    var moved := (files - {from})[from + 1 := files[from]];
    if oldest > from + 1 {
      MovingKeepsReading(files, from, oldest - 1);
    } else if from == 0 {
      assert Reading(moved, 1) == files[0] + [];
      assert Reading(files, 1) == [] + files[0];
    } else {
      SameReading(moved, files, from - 1);
      assert Reading(moved, from + 1) == files[from] + ([] + Reading(moved, from - 1));
      assert Reading(files, from + 1) == [] + (files[from] + Reading(files, from - 1));
    }
  }

  /** Removing the oldest file leaves the rest of what was read. */
  lemma RemovingOldest(files: Files, oldest: nat)
    ensures IsSuffix(Reading(files - {oldest}, oldest), Reading(files, oldest))
  {
    if oldest > 0 {
      SameReading(files - {oldest}, files, oldest - 1);
      assert Reading(files - {oldest}, oldest) == [] + Reading(files, oldest - 1);
    }
  }

  /** Appending to the live file appends to what is read. */
  lemma {:induction false} AppendingReads(files: Files, record: Bytes, oldest: nat)
    requires 0 in files
    ensures Reading(files[0 := files[0] + [record]], oldest) == Reading(files, oldest) + [record]
  {
    if oldest > 0 {
      AppendingReads(files, record, oldest - 1);
      assert Holds(files, oldest) + (Reading(files, oldest - 1) + [record])
          == Holds(files, oldest) + Reading(files, oldest - 1) + [record];
    }
  }

  /** Creating an empty live file changes nothing that is read. */
  lemma CreatingReads(files: Files, oldest: nat)
    requires 0 !in files
    ensures Reading(files[0 := []], oldest) == Reading(files, oldest)
  {
    SameReading(files[0 := []], files, oldest);
  }

  lemma SizeOneMore(contents: Contents, record: Bytes)
    ensures Size(contents + [record]) == Size(contents) + |record|
  {
    assert (contents + [record])[..|contents|] == contents;
  }

  /** The log on disk: what is read of it is the end of everything written. */
  ghost predicate EndOf(files: Files, keep: nat, history: Contents) {
    IsSuffix(Reading(files, keep), history)
  }

  /** The files rotated more than keep times are the same in both. */
  ghost predicate SameAbove(files: Files, others: Files, keep: nat) {
    forall index: nat :: index > keep ==>
      (index in files <==> index in others) && Holds(files, index) == Holds(others, index)
  }

  lemma SameAboveAfterLive(files: Files, contents: Contents, found: Files, keep: nat)
    requires SameAbove(files, found, keep)
    ensures SameAbove(files[0 := contents], found, keep) && SameAbove(files[0 := contents], files, keep)
  {
  }

  lemma SameAboveItself(files: Files, keep: nat)
    ensures SameAbove(files, files, keep)
  {
  }

  lemma SameAboveAgain(a: Files, b: Files, c: Files, keep: nat)
    requires SameAbove(a, b, keep) && SameAbove(b, c, keep)
    ensures SameAbove(a, c, keep)
  {
  }

  /** No file is rotated past keep exactly if none was at the start. */
  lemma WithinExactlyWhen(files: Files, found: Files, keep: nat)
    requires SameAbove(files, found, keep)
    ensures Within(files, keep) <==> Within(found, keep)
  {
    if Within(files, keep) {
      forall index | index in found
        ensures index <= keep
      {
        assert index > keep ==> index in files;
      }
    }
  }

  lemma {:induction false} UpToHasAtMost(indices: set<nat>, keep: nat)
    requires forall index :: index in indices ==> 1 <= index <= keep
    ensures |indices| <= keep
  {
    if keep > 0 {
      UpToHasAtMost(indices - {keep}, keep - 1);
    }
  }

  /** Without files rotated past keep, there are at most keep rotated ones. */
  lemma WithinIsAtMost(files: Files, keep: nat)
    requires Within(files, keep)
    ensures |files.Keys - {0}| <= keep
  {
    UpToHasAtMost(files.Keys - {0}, keep);
  }

  lemma EndOfAfterRemove(files: Files, keep: nat, history: Contents)
    requires EndOf(files, keep, history)
    ensures EndOf(files - {keep}, keep, history)
  {
    RemovingOldest(files, keep);
    SuffixOfSuffix(Reading(files - {keep}, keep), Reading(files, keep), history);
  }

  lemma EndOfAfterMove(files: Files, from: nat, keep: nat, history: Contents)
    requires EndOf(files, keep, history) && from in files && from + 1 !in files && from + 1 <= keep
    ensures EndOf((files - {from})[from + 1 := files[from]], keep, history)
  {
    MovingKeepsReading(files, from, keep);
  }

  lemma EndOfAfterCreate(files: Files, keep: nat, history: Contents)
    requires EndOf(files, keep, history) && 0 !in files
    ensures EndOf(files[0 := []], keep, history)
  {
    CreatingReads(files, keep);
  }

  lemma EndOfAfterAppend(files: Files, keep: nat, history: Contents, record: Bytes)
    requires EndOf(files, keep, history) && 0 in files
    ensures EndOf(files[0 := files[0] + [record]], keep, history + [record])
  {
    AppendingReads(files, record, keep);
    SuffixOneMore(Reading(files, keep), history, record);
  }

  // What a rotation does, and what it loses.

  /** What was read is still read, but for what the oldest place held. */
  ghost predicate LosesOldest(before: Files, after: Files, keep: nat) {
    || Reading(after, keep) == Reading(before, keep)
    || Reading(before, keep) == Holds(before, keep) + Reading(after, keep)
  }

  lemma ReadingOf(files: Files, keep: nat)
    ensures Reading(files, keep) == Holds(files, keep) + (if keep == 0 then [] else Reading(files, keep - 1))
  {
    assert Holds(files, 0) + [] == Holds(files, 0);
  }

  lemma HoldsWithout(files: Files, removed: nat, index: nat)
    ensures Holds(files - {removed}, index) == if index == removed then [] else Holds(files, index)
  {
  }

  lemma RemovingLosesOldest(files: Files, keep: nat)
    ensures Reading(files, keep) == Holds(files, keep) + Reading(files - {keep}, keep)
  {
    hide Reading, Holds;
    var left := files - {keep};
    HoldsWithout(files, keep, keep);
    ReadingOf(files, keep);
    ReadingOf(left, keep);
    if keep > 0 {
      forall index: nat | index <= keep - 1
        ensures Holds(left, index) == Holds(files, index)
      {
        HoldsWithout(files, keep, index);
      }
      SameReading(left, files, keep - 1);
    }
  }

  /** A record is added to what is left. */
  lemma LosesOldestThenAppends(before: Files, after: Files, keep: nat, record: Bytes)
    requires LosesOldest(before, after, keep) && 0 in after
    ensures var now := after[0 := after[0] + [record]];
            || Reading(now, keep) == Reading(before, keep) + [record]
            || Reading(before, keep) + [record] == Holds(before, keep) + Reading(now, keep)
  {
    AppendingReads(after, record, keep);
    if Reading(after, keep) != Reading(before, keep) {
      assert Holds(before, keep) + Reading(after, keep) + [record]
          == Holds(before, keep) + (Reading(after, keep) + [record]);
    }
  }

  /** The same file, or none, is at one place of both. */
  ghost predicate SamePlace(a: Files, i: nat, b: Files, j: nat) {
    (i in a <==> j in b) && Holds(a, i) == Holds(b, j)
  }

  /** A place once every generation down to done + 1 has moved up by one, over
      what was at keep: where the last one was is free. */
  ghost predicate ShiftedAt(before: Files, after: Files, done: int, keep: nat, index: nat) {
    if index == done + 1 then index !in after
    else if done + 1 < index <= keep && index > 0 then SamePlace(after, index, before, index - 1)
    else SamePlace(after, index, before, index)
  }

  ghost predicate PartlyShifted(before: Files, after: Files, done: int, keep: nat) {
    forall index: nat :: ShiftedAt(before, after, done, keep, index)
  }

  /** The live file and every generation below keep have moved up by one, over
      what was at keep; files past keep are where they were. */
  ghost predicate Shifted(before: Files, after: Files, keep: nat) {
    PartlyShifted(before, after, -1, keep)
  }

  lemma ShiftedOneMore(before: Files, now: Files, done: nat, keep: nat)
    requires done < keep && PartlyShifted(before, now, done, keep)
    ensures done !in now ==> PartlyShifted(before, now, done - 1, keep)
    ensures done in now ==> PartlyShifted(before, (now - {done})[done + 1 := now[done]], done - 1, keep)
  {
    assert ShiftedAt(before, now, done, keep, done) && ShiftedAt(before, now, done, keep, done + 1);
    var next := if done in now then (now - {done})[done + 1 := now[done]] else now;
    var left: int := done - 1;
    forall index: nat
      ensures ShiftedAt(before, next, left, keep, index)
    {
      assert ShiftedAt(before, now, done, keep, index);
    }
  }

  lemma RemovedIsShifted(files: Files, keep: nat)
    ensures keep !in files ==> PartlyShifted(files, files, keep - 1, keep)
    ensures PartlyShifted(files, files - {keep}, keep - 1, keep)
  {
  }

  lemma {:induction false} SizeOfPrefix(contents: Contents, i: nat)
    requires i <= |contents|
    ensures Size(contents[..i]) <= Size(contents)
    decreases |contents|
  {
    if i < |contents| {
      assert contents[..|contents| - 1][..i] == contents[..i];
      SizeOfPrefix(contents[..|contents| - 1], i);
    } else {
      assert contents[..i] == contents;
    }
  }

  /** A live file past its limit holds one record too long for any file; or
      excused says why else. */
  ghost predicate Explained(live: Contents, maxBytes: nat, excused: bool) {
    Size(live) > maxBytes ==> excused || (live != [] && Size(live) == |live[|live| - 1]|)
  }

  lemma ExplainedOneMore(live: Contents, maxBytes: nat, excused: bool, record: Bytes)
    requires Explained(live, maxBytes, excused)
    requires Size(live) == 0 || Size(live) + |record| <= maxBytes || excused
    ensures Explained(live + [record], maxBytes, excused)
    ensures Size(live + [record]) == Size(live) + |record|
  {
    SizeOneMore(live, record);
  }

  datatype Done = Ok | NotThere | Failed

  /** The operating system: any operation may fail, and then does nothing but
      be counted. */
  class FileSystem {
    var files: Files
    ghost var failures: nat
    /** How many files are open. */
    ghost var handles: nat

    constructor (files: Files)
      ensures this.files == files && failures == 0 && handles == 0
    {
      this.files, failures, handles := files, 0, 0;
    }

    /** Closing a file may fail, and closes it all the same. */
    method CloseLive() returns (ok: bool)
      requires handles > 0
      modifies this`failures, this`handles
      ensures failures == old(failures) + (if ok then 0 else 1) && handles == old(handles) - 1
    {
      handles := handles - 1;
      ok := *;
      if !ok {
        failures := failures + 1;
      }
    }

    method Remove(index: nat) returns (done: Done)
      modifies this
      ensures done == NotThere <==> index !in old(files)
      ensures files == if done == Ok then old(files) - {index} else old(files)
      ensures failures == old(failures) + (if done == Failed then 1 else 0) && handles == old(handles)
    {
      if index !in files {
        return NotThere;
      }
      if * {
        failures := failures + 1;
        return Failed;
      }
      files := files - {index};
      return Ok;
    }

    method Rename(from: nat, to: nat) returns (done: Done)
      requires from != to
      modifies this
      ensures done == NotThere <==> from !in old(files)
      ensures files == if done == Ok then (old(files) - {from})[to := old(files)[from]] else old(files)
      ensures failures == old(failures) + (if done == Failed then 1 else 0) && handles == old(handles)
    {
      if from !in files {
        return NotThere;
      }
      if * {
        failures := failures + 1;
        return Failed;
      }
      files := (files - {from})[to := files[from]];
      return Ok;
    }

    /** Opens the live file to append, creating it. A failure may come after
        it was created. */
    method OpenLive() returns (ok: bool)
      modifies this
      ensures files == old(files) || (0 !in old(files) && files == old(files)[0 := []])
      ensures ok ==> 0 in files
      ensures failures == old(failures) + (if ok then 0 else 1) && handles == old(handles) + (if ok then 1 else 0)
    {
      ok := *;
      if ok {
        handles := handles + 1;
      } else {
        failures := failures + 1;
      }
      if 0 !in files {
        var created := *;
        if ok || created {
          files := files[0 := []];
        }
      }
    }

    method AppendLive(record: Bytes) returns (written: nat, failed: bool)
      requires 0 in files
      modifies this
      ensures written <= |record| && (!failed ==> written == |record|)
      ensures files == old(files)[0 := old(files)[0] + [record[..written]]]
      ensures failures == old(failures) + (if failed then 1 else 0) && handles == old(handles)
    {
      written :| 0 <= written <= |record|;
      var fails := *;
      failed := fails || written < |record|;
      if failed {
        failures := failures + 1;
      }
      files := files[0 := files[0] + [record[..written]]];
    }
  }

  class File {
    const fs: FileSystem
    const maxBytes: nat
    const keep: nat
    /** Whether the live file is open, and its size then. */
    var isOpen: bool
    var size: nat
    /** Everything that was ever in the log, first what was found at start. */
    ghost var history: Contents
    /** The files as they were at the start, and how many were open. */
    ghost const found: Files
    ghost const others: nat
    /** The live file was opened as it is, and nothing written to it since. */
    ghost var untouched: bool
    /** The last rotation failed to move the live file away. */
    ghost var outlived: bool

    ghost predicate Valid()
      reads this, fs
    {
      && maxBytes >= 1
      && fs.handles == others + (if isOpen then 1 else 0)
      && EndOf(fs.files, keep, history)
      && SameAbove(fs.files, found, keep)
      && (isOpen ==> 0 in fs.files && size == Size(fs.files[0]))
      && (isOpen ==> Explained(fs.files[0], maxBytes, untouched || outlived))
    }

    constructor (fs: FileSystem, maxBytes: nat, keep: nat)
      requires maxBytes >= 1
      modifies fs
      ensures this.fs == fs && this.maxBytes == maxBytes && this.keep == keep
      ensures found == old(fs.files) && others == old(fs.handles)
      ensures Valid() && history == Reading(old(fs.files), keep) && !outlived
      ensures fs.failures == old(fs.failures) + (if isOpen then 0 else 1)
      ensures fs.files == old(fs.files) || (0 !in old(fs.files) && fs.files == old(fs.files)[0 := []])
    {
      this.fs, this.maxBytes, this.keep := fs, maxBytes, keep;
      isOpen, size, untouched, outlived := false, 0, true, false;
      found, others := fs.files, fs.handles;
      history := Reading(fs.files, keep);
      new;
      var ok := Open();
    }

    /** Whether a record goes on in a live file of this size. */
    predicate Fits(size: nat, length: nat) { size == 0 || size + length <= maxBytes }

    /** Opens the live file and takes its size. */
    method Open() returns (ok: bool)
      requires maxBytes >= 1 && EndOf(fs.files, keep, history) && SameAbove(fs.files, found, keep)
      requires !isOpen && fs.handles == others
      requires 0 in fs.files ==> untouched || outlived
      modifies this`isOpen, this`size, fs
      ensures Valid() && isOpen == ok
      ensures ok ==> 0 in fs.files && fs.files[0] == Holds(old(fs.files), 0)
      ensures fs.files == old(fs.files) || (0 !in old(fs.files) && fs.files == old(fs.files)[0 := []])
      ensures fs.failures == old(fs.failures) + (if ok then 0 else 1)
    {
      hide EndOf;
      ok := fs.OpenLive();
      if 0 !in old(fs.files) {
        EndOfAfterCreate(old(fs.files), keep, history);
      }
      if ok {
        isOpen, size := true, Size(fs.files[0]);
      }
    }

    /** Makes room for a new live file, one generation at a time from the
        oldest. Wherever it stops, what is read stays the end of what was
        written, a live file it could not move is untouched, and so is every
        file past the count. Nothing but the oldest place is lost, and without a
        failure every file is one place further. */
    method Shift() returns (ok: bool)
      requires EndOf(fs.files, keep, history) && 0 in fs.files
      modifies fs
      ensures EndOf(fs.files, keep, history) && SameAbove(fs.files, old(fs.files), keep)
      ensures fs.handles == old(fs.handles)
      ensures ok <==> 0 !in fs.files
      ensures !ok ==> fs.files[0] == old(fs.files)[0]
      ensures fs.failures == old(fs.failures) + (if ok then 0 else 1)
      ensures LosesOldest(old(fs.files), fs.files, keep)
      ensures ok ==> Shifted(old(fs.files), fs.files, keep)
    {
      hide EndOf, Reading, PartlyShifted;
      EndOfAfterRemove(fs.files, keep, history);
      RemovedIsShifted(fs.files, keep);
      RemovingLosesOldest(fs.files, keep);
      if keep == 0 {
        var removed := fs.Remove(0);
        return removed != Failed;
      }
      var removed := fs.Remove(keep);
      if removed == Failed {
        return false;
      }
      assert keep !in fs.files && EndOf(fs.files, keep, history);
      ghost var left := Reading(fs.files, keep);
      var generation := keep - 1;
      while generation >= 1
        invariant 0 <= generation < keep
        invariant EndOf(fs.files, keep, history) && generation + 1 !in fs.files
        invariant SameAbove(fs.files, old(fs.files), keep)
        invariant 0 in fs.files && fs.files[0] == old(fs.files)[0]
        invariant Reading(fs.files, keep) == left && fs.failures == old(fs.failures) && fs.handles == old(fs.handles)
        invariant PartlyShifted(old(fs.files), fs.files, generation, keep)
      {
        ShiftedOneMore(old(fs.files), fs.files, generation, keep);
        if generation in fs.files {
          MovingKeepsReading(fs.files, generation, keep);
          EndOfAfterMove(fs.files, generation, keep, history);
        }
        var moved := fs.Rename(generation, generation + 1);
        if moved == Failed {
          return false;
        }
        generation := generation - 1;
      }
      ShiftedOneMore(old(fs.files), fs.files, 0, keep);
      MovingKeepsReading(fs.files, 0, keep);
      EndOfAfterMove(fs.files, 0, keep, history);
      var moved := fs.Rename(0, 1);
      return moved != Failed;
    }

    /** Always tries to open the live path again, whatever failed. Nothing but
        the oldest place is lost, and without a failure an empty live file is in
        front of everything else, each file one place further. */
    method Rotate() returns (ok: bool)
      requires Valid() && isOpen
      modifies this, fs
      ensures Valid() && history == old(history) && !untouched
      ensures isOpen && !outlived ==> size == 0
      ensures fs.failures >= old(fs.failures) && (ok <==> fs.failures == old(fs.failures))
      ensures ok ==> isOpen && !outlived
      ensures !isOpen ==> fs.failures > old(fs.failures)
      ensures LosesOldest(old(fs.files), fs.files, keep)
      ensures ok ==> 0 in fs.files && fs.files[0] == [] && Shifted(old(fs.files), fs.files - {0}, keep)
      ensures SameAbove(fs.files, old(fs.files), keep)
      ensures outlived ==> 0 in fs.files && fs.files[0] == old(fs.files)[0]
    {
      hide EndOf, Explained, Reading, PartlyShifted;
      var closed := fs.CloseLive();
      isOpen := false;
      var shifted := Shift();
      ghost var shiftedFiles := fs.files;
      untouched := false;
      outlived := !shifted;
      var reopened := Open();
      if 0 !in shiftedFiles {
        CreatingReads(shiftedFiles, keep);
        assert shiftedFiles[0 := []] - {0} == shiftedFiles;
      }
      ok := closed && shifted && reopened;
    }

    /** One record goes to the end of the live file, or as much of it as the
        system takes. As long as it fits, no other file changes; if not, a
        rotation comes first, which may fail on the way and loses at most what
        the oldest place held. Only a live path that no longer opens ends the
        log. */
    method Write(record: Bytes) returns (written: nat, ok: bool)
      requires Valid()
      modifies this, fs
      ensures Valid() && written <= |record| && (ok ==> written == |record|)
      ensures isOpen ==> old(isOpen) && !untouched && history == old(history) + [record[..written]]
      ensures isOpen ==> fs.files[0] != [] && fs.files[0][|fs.files[0]| - 1] == record[..written]
      ensures !isOpen ==> history == old(history) && written == 0 && !ok
      ensures !old(isOpen) ==> fs.files == old(fs.files) && !isOpen
      ensures fs.failures >= old(fs.failures) && (old(isOpen) ==> (ok <==> fs.failures == old(fs.failures)))
      ensures old(isOpen) && !isOpen ==> fs.failures > old(fs.failures)
      ensures old(isOpen) && Fits(old(size), |record|) ==>
                isOpen && size == old(size) + written
                && fs.files == old(fs.files)[0 := old(fs.files)[0] + [record[..written]]]
      ensures old(isOpen) && !isOpen ==> LosesOldest(old(fs.files), fs.files, keep)
      ensures old(isOpen) && isOpen ==>
                || Reading(fs.files, keep) == Reading(old(fs.files), keep) + [record[..written]]
                || Reading(old(fs.files), keep) + [record[..written]]
                   == Holds(old(fs.files), keep) + Reading(fs.files, keep)
      ensures old(isOpen) && !Fits(old(size), |record|) && ok ==>
                fs.files[0] == [record] && Shifted(old(fs.files), fs.files - {0}, keep)
      ensures SameAbove(fs.files, old(fs.files), keep)
    {
      hide EndOf, SameAbove, Size, Explained, Reading, PartlyShifted;
      assert SameAbove(fs.files, fs.files, keep) by { SameAboveItself(fs.files, keep); }
      if !isOpen {
        return 0, false;
      }
      var rotated := true;
      if size > 0 && size + |record| > maxBytes {
        rotated := Rotate();
        if !isOpen {
          return 0, false;
        }
      }
      ghost var before, live := fs.files, fs.files[0];
      var failed;
      written, failed := fs.AppendLive(record);
      EndOfAfterAppend(before, keep, history, record[..written]);
      LosesOldestThenAppends(old(fs.files), before, keep, record[..written]);
      assert fs.files - {0} == before - {0} && [] + [record] == [record] && record[..|record|] == record;
      SameAboveAfterLive(before, fs.files[0], found, keep);
      SameAboveAgain(fs.files, before, old(fs.files), keep);
      history := history + [record[..written]];
      ExplainedOneMore(live, maxBytes, outlived, record[..written]);
      untouched := false;
      size := size + written;
      ok := rotated && !failed;
    }
  }

  const BYTES_PER_MB: nat := 1024 * 1024

  /** OpenFile: no log without a sensible size and count, or when the live path
      cannot be opened. */
  method OpenFile(fs: FileSystem, maxSizeMB: int, keep: int) returns (file: File?)
    modifies fs
    ensures maxSizeMB < 1 || keep < 0 ==> file == null && fs.files == old(fs.files)
    ensures maxSizeMB >= 1 && keep >= 0 ==> (file == null <==> fs.failures > old(fs.failures))
    ensures old(fs.failures) <= fs.failures <= old(fs.failures) + 1
    ensures keep >= 0 ==> fs.files == old(fs.files) || (0 !in old(fs.files) && fs.files == old(fs.files)[0 := []])
    ensures keep >= 0 ==>
              && EndOf(fs.files, keep, Reading(old(fs.files), keep))
              && SameAbove(fs.files, old(fs.files), keep)
    ensures file != null ==>
              && fresh(file) && file.Valid() && file.fs == fs && file.isOpen
              && file.maxBytes == maxSizeMB * BYTES_PER_MB && file.keep == keep
              && file.history == Reading(old(fs.files), keep) && file.found == old(fs.files)
  {
    hide Reading, Explained;
    if maxSizeMB < 1 || keep < 0 {
      return null;
    }
    file := new File(fs, maxSizeMB * BYTES_PER_MB, keep);
    if !file.isOpen {
      return null;
    }
  }

  lemma SizeOfNothing()
    ensures Size([]) == 0
  {
  }

  lemma OpenedReads(before: Files, after: Files, keep: nat)
    requires after == before || (0 !in before && after == before[0 := []])
    ensures Reading(after, keep) == Reading(before, keep) && Size(Holds(after, 0)) == Size(Holds(before, 0))
  {
    if after != before {
      CreatingReads(before, keep);
    }
  }

  /** A run from any start: whatever records are written and whatever fails, what
      is read stays the end of what was there and of what was written since. No
      file is rotated past keep if and only if none was at the start, and then
      at most keep rotated files are there. Without a failure every record is
      written whole, and as long as the records fit the live file, all that was
      there and all that was written is still read. */
  method WriteAll(fs: FileSystem, maxSizeMB: int, keep: nat, records: seq<Bytes>)
    returns (file: File?, ghost written: Contents)
    requires maxSizeMB >= 1
    modifies fs
    ensures IsSuffix(Reading(fs.files, keep), Reading(old(fs.files), keep) + written)
    ensures |written| <= |records| && forall i :: 0 <= i < |written| ==> written[i] <= records[i]
    ensures SameAbove(fs.files, old(fs.files), keep)
    ensures Within(fs.files, keep) <==> Within(old(fs.files), keep)
    ensures Within(fs.files, keep) ==> |fs.files.Keys - {0}| <= keep
    ensures fs.failures == old(fs.failures) ==> file != null && file.isOpen && written == records
    ensures Size(Holds(old(fs.files), 0)) + Size(records) <= maxSizeMB * BYTES_PER_MB ==>
              Reading(fs.files, keep) == Reading(old(fs.files), keep) + written
  {
    hide Reading, Within, SameAbove, PartlyShifted, Size, Explained, IsSuffix, LosesOldest;
    SizeOfNothing();
    written := [];
    ghost var start := Size(Holds(fs.files, 0));
    ghost var fits := start + Size(records) <= maxSizeMB * BYTES_PER_MB;
    file := OpenFile(fs, maxSizeMB, keep);
    OpenedReads(old(fs.files), fs.files, keep);
    assert records[..0] == [];
    assert Reading(old(fs.files), keep) + [] == Reading(old(fs.files), keep);
    var i := 0;
    while i < |records| && file != null && file.isOpen
      invariant 0 <= i <= |records| && |written| <= i
      invariant file != null ==> fresh(file) && file.Valid() && file.fs == fs && file.keep == keep
      invariant file != null ==> file.maxBytes == maxSizeMB * BYTES_PER_MB
      invariant fs.failures >= old(fs.failures)
      invariant fs.failures == old(fs.failures) ==> file != null && file.isOpen && written == records[..i]
      invariant fits ==> Reading(fs.files, keep) == Reading(old(fs.files), keep) + written
      invariant fits && file != null ==> file.isOpen && file.size <= start + Size(records[..i])
      invariant file != null ==> file.history == Reading(old(fs.files), keep) + written
      invariant file != null && file.isOpen ==> |written| == i
      invariant forall k :: 0 <= k < |written| ==> written[k] <= records[k]
      invariant IsSuffix(Reading(fs.files, keep), Reading(old(fs.files), keep) + written)
      invariant SameAbove(fs.files, old(fs.files), keep)
    {
      ghost var before, then_ := file.history, fs.files;
      assert records[..i + 1] == records[..i] + [records[i]];
      SizeOneMore(records[..i], records[i]);
      SizeOfPrefix(records, i + 1);
      var count, ok := file.Write(records[i]);
      if file.isOpen {
        written := written + [records[i][..count]];
        assert before + [records[i][..count]] == Reading(old(fs.files), keep) + written;
        assert records[i][..|records[i]|] == records[i];
      }
      if fits {
        AppendingReads(then_, records[i][..count], keep);
      }
      SameAboveAgain(fs.files, then_, old(fs.files), keep);
      i := i + 1;
    }
    assert i == |records| ==> records[..i] == records;
    WithinExactlyWhen(fs.files, old(fs.files), keep);
    if Within(fs.files, keep) {
      WithinIsAtMost(fs.files, keep);
    }
  }

  /** An earlier run with a larger count left .3: a run that keeps one file
      never takes it away, nor counts it. */
  method LoweredCountLeavesFiles(fs: FileSystem, maxSizeMB: int, left: Contents, records: seq<Bytes>)
    requires maxSizeMB >= 1 && fs.files == map[3 := left]
    modifies fs
    ensures 3 in fs.files && fs.files[3] == left && !Within(fs.files, 1)
  {
    assert 3 in fs.files && Holds(fs.files, 3) == left;
    ghost var found := fs.files;
    var file;
    ghost var written;
    file, written := WriteAll(fs, maxSizeMB, 1, records);
    assert SameAbove(fs.files, found, 1);
  }
}
