/** The framer with timeouts refines a reference that only knows splits: the
    stream is cut at the timeouts, and each stretch between two of them is split
    by itself, the first piece being left out if the timeout before it broke a
    frame off. */
module FramingTimeouts {
  import opened Separators
  import opened Framing
  import opened FramingRefinement
  import opened FramingTrace

  // The reference.

  /** The leftmost non-overlapping split of text[from..]. */
  function Cuts(text: Bytes, sep: Bytes, from: nat): seq<nat>
    requires sep != [] && from <= |text|
    decreases |text| - from
  {
    var at := IndexFrom(text, sep, from);
    if at == -1 then [] else
      IndexFromIsLeftmost(text, sep, from);
      [at] + Cuts(text, sep, at + |sep|)
  }

  /** Where what follows the last separator begins. */
  function RestAt(sep: Bytes, from: nat, cuts: seq<nat>): nat {
    if cuts == [] then from else cuts[|cuts| - 1] + |sep|
  }

  /** The frames of a stretch between timeouts. A broken one began with the
      rest of a frame that a timeout broke off, up to the first separator. */
  function StretchFrames(cfg: Config, broken: bool, text: Bytes): seq<Bytes>
    requires cfg.Valid()
  {
    var cuts := Cuts(text, cfg.sep, 0);
    if !broken then KeptSegments(text, cfg.sep, cfg.maxFrame, 0, cuts)
    else if cuts == [] then []
    else KeptSegments(text, cfg.sep, cfg.maxFrame, cuts[0] + |cfg.sep|, cuts[1..])
  }

  /** Whether a timeout after the stretch breaks a frame off: there is some of
      one, not more than the limit and the carry allow, and it is not itself
      the rest of a broken one. */
  predicate BreaksOff(cfg: Config, broken: bool, text: Bytes)
    requires cfg.Valid()
  {
    var cuts := Cuts(text, cfg.sep, 0);
    !(broken && cuts == []) && 0 < |text| - RestAt(cfg.sep, 0, cuts) <= cfg.maxFrame + cfg.Carry()
  }

  /** The frames of the finished stretches, and the stretch that goes on. */
  datatype Stretches = Stretches(frames: seq<Bytes>, broken: bool, text: Bytes)

  function StretchesOf(cfg: Config, ops: seq<Op>): Stretches
    requires cfg.Valid()
  {
    if ops == [] then Stretches([], false, [])
    else
      var before := StretchesOf(cfg, ops[..|ops| - 1]);
      match ops[|ops| - 1]
      case Arrive(src) => before.(text := before.text + src)
      case Silent =>
        Stretches(before.frames + StretchFrames(cfg, before.broken, before.text),
                  BreaksOff(cfg, before.broken, before.text), [])
  }

  // Where a stretch leaves the framer.

  lemma {:induction false} CutsAreLeftmost(text: Bytes, sep: Bytes, from: nat)
    requires sep != [] && from <= |text|
    ensures LeftmostCuts(text, sep, from, Cuts(text, sep, from))
    decreases |text| - from
  {
    hide MatchAt, IndexFrom;
    IndexFromIsLeftmost(text, sep, from);
    var at := IndexFrom(text, sep, from);
    if at != -1 {
      CutsAreLeftmost(text, sep, at + |sep|);
    }
  }

  lemma {:induction false} RestIsWithin(text: Bytes, sep: Bytes, from: nat, cuts: seq<nat>)
    requires from <= |text| && LeftmostCuts(text, sep, from, cuts)
    ensures from <= RestAt(sep, from, cuts) <= |text|
    decreases |cuts|
  {
    if cuts != [] {
      assert MatchAt(text, sep, cuts[0]);
      RestIsWithin(text, sep, cuts[0] + |sep|, cuts[1..]);
      assert |cuts| > 1 ==> cuts[1..][|cuts[1..]| - 1] == cuts[|cuts| - 1];
    }
  }

  /** From a fresh start, what follows the last separator is in the buffer, or
      too much of it makes the framer drop. */
  lemma {:induction false} WhereFreshEnds(cfg: Config, text: Bytes, from: nat, cuts: seq<nat>)
    requires cfg.Valid() && from <= |text| && LeftmostCuts(text, cfg.sep, from, cuts)
    ensures var st, rest := Process(cfg, State(text[from..], false, 0)).state, RestAt(cfg.sep, from, cuts);
            && rest <= |text|
            && (st.dropping <==> |text| - rest > cfg.maxFrame + cfg.Carry())
            && (!st.dropping ==> st == State(text[rest..], false, 0))
    decreases |cuts|
  {
    hide Index, MatchAt, Process;
    RestIsWithin(text, cfg.sep, from, cuts);
    var st := State(text[from..], false, 0);
    FirstCutIsIndex(text, cfg.sep, from, cuts);
    if cuts == [] {
      ProcessWithout(cfg, st);
    } else {
      ProcessWith(cfg, st);
      var next := cuts[0] + |cfg.sep|;
      assert MatchAt(text, cfg.sep, cuts[0]);
      assert st.buf[cuts[0] - from + |cfg.sep|..] == text[next..];
      WhereFreshEnds(cfg, text, next, cuts[1..]);
      assert |cuts| > 1 ==> cuts[1..][|cuts[1..]| - 1] == cuts[|cuts| - 1];
    }
  }

  /** The framer as it takes up a stretch. */
  function Start(broken: bool): State { State([], broken, 0) }

  /** What a read of a whole stretch gives, and a timeout after it. */
  ghost predicate ReadAsStretch(cfg: Config, broken: bool, text: Bytes, step: Step)
    requires cfg.Valid()
  {
    && Frames(step.events) == StretchFrames(cfg, broken, text)
    && Silence(step.state).state == Start(BreaksOff(cfg, broken, text))
    && Frames(Silence(step.state).events) == []
  }

  lemma FreshStretchRead(cfg: Config, text: Bytes)
    requires cfg.Valid()
    ensures ReadAsStretch(cfg, false, text, Process(cfg, State(text, false, 0)))
  {
    hide Index, MatchAt, Process, Cuts, KeptSegments;
    var cuts := Cuts(text, cfg.sep, 0);
    CutsAreLeftmost(text, cfg.sep, 0);
    assert text[0..] == text;
    StreamGivesSegments(cfg, text, 0, cuts);
    WhereFreshEnds(cfg, text, 0, cuts);
    SilenceFramesNothing(Process(cfg, State(text, false, 0)).state);
  }

  lemma BrokenStretchRead(cfg: Config, text: Bytes)
    requires cfg.Valid()
    ensures ReadAsStretch(cfg, true, text, Process(cfg, State(text, true, 0)))
  {
    hide Index, MatchAt, Process, Cuts, KeptSegments;
    var cuts := Cuts(text, cfg.sep, 0);
    CutsAreLeftmost(text, cfg.sep, 0);
    assert text[0..] == text;
    FirstCutIsIndex(text, cfg.sep, 0, cuts);
    var st := State(text, true, 0);
    SilenceFramesNothing(Process(cfg, st).state);
    if cuts == [] {
      ProcessWithout(cfg, st);
    } else {
      ProcessWith(cfg, st);
      var next := cuts[0] + |cfg.sep|;
      assert MatchAt(text, cfg.sep, cuts[0]);
      StreamGivesSegments(cfg, text, next, cuts[1..]);
      WhereFreshEnds(cfg, text, next, cuts[1..]);
      assert |cuts| > 1 ==> cuts[1..][|cuts[1..]| - 1] == cuts[|cuts| - 1];
      FramesOfNoFrame(Closing(cfg, st, cuts[0]));
    }
  }

  lemma StretchRead(cfg: Config, broken: bool, text: Bytes)
    requires cfg.Valid()
    ensures ReadAsStretch(cfg, broken, text, Read(cfg, Start(broken), text))
  {
    hide ReadAsStretch, Process;
    assert [] + text == text;
    if broken {
      BrokenStretchRead(cfg, text);
    } else {
      FreshStretchRead(cfg, text);
    }
  }

  lemma StartIsInv(cfg: Config, broken: bool)
    requires cfg.Valid()
    ensures Inv(cfg, Start(broken))
  {
  }

  // The refinement.

  /** The framer is where the stretch so far takes it, with the frames of the
      stretches before and those of this one. */
  lemma {:induction false} RunFollowsStretches(cfg: Config, ops: seq<Op>)
    requires cfg.Valid()
    ensures var run, stretches := Run(cfg, ops), StretchesOf(cfg, ops);
            var step := Read(cfg, Start(stretches.broken), stretches.text);
            && run.state == step.state
            && Frames(run.events) == stretches.frames + Frames(step.events)
  {
    hide Read, Silence, StretchFrames, BreaksOff, Frames, Inv;
    if ops == [] {
      StartIsInv(cfg, false);
      ReadNothing(cfg, Start(false));
      assert Frames([]) == [] by { FramesOfNone(); }
    } else {
      var earlier, last := ops[..|ops| - 1], ops[|ops| - 1];
      RunFollowsStretches(cfg, earlier);
      var run, stretches := Run(cfg, earlier), StretchesOf(cfg, earlier);
      var start := Start(stretches.broken);
      StartIsInv(cfg, stretches.broken);
      match last
      case Arrive(src) =>
        ReadsCompose(cfg, start, stretches.text, src);
        var here, more := Read(cfg, start, stretches.text), Read(cfg, run.state, src);
        FramesConcat(run.events, more.events);
        FramesConcat(here.events, more.events);
        assert stretches.frames + Frames(here.events) + Frames(more.events)
            == stretches.frames + (Frames(here.events) + Frames(more.events));
      case Silent =>
        StretchRead(cfg, stretches.broken, stretches.text);
        FramesConcat(run.events, Silence(run.state).events);
        var next := Start(BreaksOff(cfg, stretches.broken, stretches.text));
        StartIsInv(cfg, next.dropping);
        ReadNothing(cfg, next);
        FramesOfNone();
        assert Frames(run.events) + [] == Frames(run.events);
        var done := stretches.frames + StretchFrames(cfg, stretches.broken, stretches.text);
        assert done + [] == done;
    }
  }

  lemma FramesOfNone()
    ensures Frames([]) == []
  {
  }

  /** Over every run of reads and timeouts, the frames are exactly those of the
      stretches between the timeouts, each split by itself. */
  lemma FramesAreThoseOfStretches(cfg: Config, ops: seq<Op>)
    requires cfg.Valid()
    ensures var stretches := StretchesOf(cfg, ops);
            Frames(Run(cfg, ops).events) == stretches.frames + StretchFrames(cfg, stretches.broken, stretches.text)
  {
    hide Read, Silence, StretchFrames, BreaksOff, Frames, StretchesOf, Run;
    RunFollowsStretches(cfg, ops);
    var stretches := StretchesOf(cfg, ops);
    StretchRead(cfg, stretches.broken, stretches.text);
  }

  /** A timeout while dropping makes the framer as good as new, whatever it had
      dropped: the reads after it give the frames of their own split. */
  lemma TimeoutEndsResync(cfg: Config, ops: seq<Op>, arrivals: seq<Bytes>, cuts: seq<nat>)
    requires cfg.Valid() && Run(cfg, ops).state.dropping
    requires LeftmostCuts(Concat(arrivals), cfg.sep, 0, cuts)
    ensures Run(cfg, ops + [Silent]).state == INITIAL
    ensures Frames(ReadAll(cfg, Run(cfg, ops + [Silent]).state, arrivals).events)
         == KeptSegments(Concat(arrivals), cfg.sep, cfg.maxFrame, 0, cuts)
  {
    hide Read, KeptSegments, Frames, LeftmostCuts;
    assert (ops + [Silent])[..|ops|] == ops;
    FramesAreTheSplit(cfg, arrivals, cuts);
  }
}
