/** How reads are cut does not matter: the framer refines a one-shot splitter
    of the whole stream. */
module FramingRefinement {
  import opened Separators
  import opened Framing

  /** Two runs that agree on the frames and on the state they reach. */
  ghost predicate SameOutcome(a: Step, b: Step) {
    a.state == b.state && Frames(a.events) == Frames(b.events)
  }

  lemma SameCarry(front: Bytes, kept: Bytes, keep: nat)
    requires keep <= |kept|
    ensures (front + kept)[|front + kept| - keep..] == kept[|kept| - keep..]
  {
  }

  /** Trimming what is being dropped, before more bytes come, changes nothing:
      the carry still holds every separator that can complete. */
  lemma DroppingTrimmed(cfg: Config, front: Bytes, tail: Bytes, more: Bytes, dropped: nat)
    requires cfg.Valid() && |tail| == cfg.Carry() && Index(front + tail, cfg.sep) == -1
    ensures Process(cfg, State(front + tail + more, true, dropped))
         == Process(cfg, State(tail + more, true, dropped + |front|))
  {
    hide Index, Process;
    IndexAfterTrim(front, tail, more, cfg.sep);
    assert front + tail + more == front + (tail + more);
    var whole, kept := State(front + (tail + more), true, dropped), State(tail + more, true, dropped + |front|);
    var at := Index(kept.buf, cfg.sep);
    if at == -1 {
      ProcessWithout(cfg, whole);
      ProcessWithout(cfg, kept);
      SameCarry(front, kept.buf, cfg.Carry());
      assert kept.buf[0..] == kept.buf;
    } else {
      ProcessWith(cfg, whole);
      ProcessWith(cfg, kept);
      assert After(cfg, whole, |front| + at) == After(cfg, kept, at);
    }
  }

  lemma FramesOfNoFrame(event: Event)
    requires !event.Framed?
    ensures Frames([event]) == []
  {
    assert [event][1..] == [];
  }

  /** With no separator left, both ways leave the same carry, and no frame. */
  lemma OversizeSettles(cfg: Config, front: Bytes, kept: Bytes)
    requires cfg.Valid() && |front| > cfg.maxFrame && |kept| >= cfg.Carry()
    ensures SameOutcome(Settle(cfg, State(front + kept, false, 0)), Settle(cfg, State(kept, true, |front|)))
  {
    SameCarry(front, kept, cfg.Carry());
    assert kept[0..] == kept;
    FramesOfNoFrame(OversizeOpened(front + kept));
  }

  /** Calling a frame oversize as soon as it passes the limit, or only once its
      separator is there, drops the same bytes. */
  lemma OversizeOpenedEarly(cfg: Config, front: Bytes, tail: Bytes, more: Bytes)
    requires cfg.Valid() && |tail| == cfg.Carry() && |front| > cfg.maxFrame
    requires Index(front + tail, cfg.sep) == -1
    ensures SameOutcome(Process(cfg, State(front + tail + more, false, 0)),
                        Process(cfg, State(tail + more, true, |front|)))
  {
    hide Index, Process, Settle, Frames;
    IndexAfterTrim(front, tail, more, cfg.sep);
    assert front + tail + more == front + (tail + more);
    var whole, kept := State(front + (tail + more), false, 0), State(tail + more, true, |front|);
    var at := Index(kept.buf, cfg.sep);
    if at == -1 {
      ProcessWithout(cfg, whole);
      ProcessWithout(cfg, kept);
      OversizeSettles(cfg, front, kept.buf);
    } else {
      ProcessWith(cfg, whole);
      ProcessWith(cfg, kept);
      assert After(cfg, whole, |front| + at) == After(cfg, kept, at);
      FramesOfNoFrame(Closing(cfg, whole, |front| + at));
      FramesOfNoFrame(Closing(cfg, kept, at));
    }
  }

  lemma SettleThenMore(cfg: Config, st: State, more: Bytes)
    requires cfg.Valid() && Index(st.buf, cfg.sep) == -1 && (!st.dropping ==> st.dropped == 0)
    ensures var settled := Settle(cfg, st).state;
            SameOutcome(Process(cfg, st.(buf := st.buf + more)), Process(cfg, settled.(buf := settled.buf + more)))
  {
    hide Index, Process;
    var keep := cfg.Carry();
    if |st.buf| > keep {
      var front, tail := st.buf[..|st.buf| - keep], st.buf[|st.buf| - keep..];
      assert st.buf == front + tail;
      if st.dropping {
        DroppingTrimmed(cfg, front, tail, more, st.dropped);
      } else if |st.buf| > cfg.maxFrame + keep {
        OversizeOpenedEarly(cfg, front, tail, more);
      }
    }
  }

  /** The leftmost separator closes the same bytes when more follow. */
  lemma FirstTurnUnchanged(cfg: Config, st: State, more: Bytes)
    requires cfg.Valid() && Index(st.buf, cfg.sep) != -1
    ensures var at, whole := Index(st.buf, cfg.sep), st.(buf := st.buf + more);
            && Index(whole.buf, cfg.sep) == at
            && Closing(cfg, whole, at) == Closing(cfg, st, at)
            && After(cfg, whole, at) == After(cfg, st, at).(buf := After(cfg, st, at).buf + more)
  {
    IndexOfPrefix(st.buf, more, cfg.sep);
    var at, whole := Index(st.buf, cfg.sep), st.(buf := st.buf + more);
    assert whole.buf[..at] == st.buf[..at];
    assert whole.buf[at + |cfg.sep|..] == st.buf[at + |cfg.sep|..] + more;
  }

  /** Processing a buffer and then more is processing both at once. */
  lemma {:induction false} ProcessThenMore(cfg: Config, st: State, more: Bytes)
    requires cfg.Valid() && (!st.dropping ==> st.dropped == 0)
    ensures var first, whole := Process(cfg, st), Process(cfg, st.(buf := st.buf + more));
            var second := Process(cfg, first.state.(buf := first.state.buf + more));
            && whole.state == second.state
            && Frames(whole.events) == Frames(first.events) + Frames(second.events)
    decreases |st.buf|
  {
    hide Index, Process;
    var at := Index(st.buf, cfg.sep);
    if at == -1 {
      ProcessWithout(cfg, st);
      SettleThenMore(cfg, st, more);
      assert Frames(Settle(cfg, st).events) == [];
    } else {
      ProcessWith(cfg, st);
      FirstTurnUnchanged(cfg, st, more);
      ProcessWith(cfg, st.(buf := st.buf + more));
      ProcessThenMore(cfg, After(cfg, st, at), more);
    }
  }

  /** From every reachable state, two reads emit the frames and reach the
      state of one read of both. */
  lemma ReadsCompose(cfg: Config, st: State, a: Bytes, b: Bytes)
    requires cfg.Valid() && Inv(cfg, st)
    ensures var first := Read(cfg, st, a);
            var second := Read(cfg, first.state, b);
            SameOutcome(Read(cfg, st, a + b), Step(second.state, first.events + second.events))
  {
    hide Index, Process, Frames;
    ProcessThenMore(cfg, st.(buf := st.buf + a), b);
    FramesConcat(Read(cfg, st, a).events, Read(cfg, Read(cfg, st, a).state, b).events);
    assert st.buf + (a + b) == st.buf + a + b;
  }

  // The whole stream at once.

  function Concat(arrivals: seq<Bytes>): Bytes {
    if arrivals == [] then [] else arrivals[0] + Concat(arrivals[1..])
  }

  function ReadAll(cfg: Config, st: State, arrivals: seq<Bytes>): Step
    requires cfg.Valid()
    decreases |arrivals|
  {
    if arrivals == [] then Step(st, [])
    else
      var first := Read(cfg, st, arrivals[0]);
      var rest := ReadAll(cfg, first.state, arrivals[1..]);
      Step(rest.state, first.events + rest.events)
  }

  lemma ReadNothing(cfg: Config, st: State)
    requires cfg.Valid() && Inv(cfg, st)
    ensures Read(cfg, st, []) == Step(st, [])
  {
    assert st.buf + [] == st.buf;
    assert Drain(cfg, st) == Step(st, []);
  }

  /** However the stream is cut into reads, the frames are those of one read. */
  lemma {:induction false} CutsDoNotMatter(cfg: Config, st: State, arrivals: seq<Bytes>)
    requires cfg.Valid() && Inv(cfg, st)
    ensures SameOutcome(ReadAll(cfg, st, arrivals), Read(cfg, st, Concat(arrivals)))
    decreases |arrivals|
  {
    if arrivals == [] {
      ReadNothing(cfg, st);
    } else {
      var first := Read(cfg, st, arrivals[0]);
      InvKept(cfg, st, arrivals[0]);
      CutsDoNotMatter(cfg, first.state, arrivals[1..]);
      ReadsCompose(cfg, st, arrivals[0], Concat(arrivals[1..]));
      FramesConcat(first.events, ReadAll(cfg, first.state, arrivals[1..]).events);
      FramesConcat(first.events, Read(cfg, first.state, Concat(arrivals[1..])).events);
    }
  }

  /** The segments a list of cuts makes of text[from..], without the empty
      ones and those past the limit. */
  function KeptSegments(text: Bytes, sep: Bytes, maxFrame: nat, from: nat, cuts: seq<nat>): seq<Bytes>
    decreases |cuts|
  {
    if cuts == [] then []
    else
      var kept := from <= cuts[0] <= |text| && 1 <= cuts[0] - from <= maxFrame;
      (if kept then [text[from..cuts[0]]] else [])
      + KeptSegments(text, sep, maxFrame, cuts[0] + |sep|, cuts[1..])
  }

  /** What follows a position, searched alone, has its first separator where
      the split has its first cut. */
  lemma FirstCutIsIndex(text: Bytes, sep: Bytes, from: nat, cuts: seq<nat>)
    requires sep != [] && from <= |text| && LeftmostCuts(text, sep, from, cuts)
    ensures Index(text[from..], sep) == if cuts == [] then -1 else cuts[0] - from
  {
    hide Index, MatchAt;
    var rest := text[from..];
    assert text == text[..from] + rest;
    forall at | 0 <= at
      ensures MatchAt(text, sep, from + at) <==> MatchAt(rest, sep, at)
    {
      MatchInSecond(text[..from], rest, sep, at);
    }
    if cuts == [] {
      IndexIsLeftmost(rest, sep);
    } else {
      assert MatchAt(text, sep, from + (cuts[0] - from));
      IndexIs(rest, sep, cuts[0] - from);
    }
  }

  /** What follows a position gives the segments of its split. */
  lemma {:induction false} StreamGivesSegments(cfg: Config, text: Bytes, from: nat, cuts: seq<nat>)
    requires cfg.Valid() && from <= |text| && LeftmostCuts(text, cfg.sep, from, cuts)
    ensures Frames(Process(cfg, State(text[from..], false, 0)).events)
         == KeptSegments(text, cfg.sep, cfg.maxFrame, from, cuts)
    decreases |cuts|
  {
    hide Index, MatchAt, Process;
    var st := State(text[from..], false, 0);
    FirstCutIsIndex(text, cfg.sep, from, cuts);
    if cuts == [] {
      ProcessWithout(cfg, st);
      assert Frames(Settle(cfg, st).events) == [];
    } else {
      ProcessWith(cfg, st);
      var next := cuts[0] + |cfg.sep|;
      assert MatchAt(text, cfg.sep, cuts[0]);
      assert st.buf[cuts[0] - from + |cfg.sep|..] == text[next..];
      assert st.buf[..cuts[0] - from] == text[from..cuts[0]];
      StreamGivesSegments(cfg, text, next, cuts[1..]);
    }
  }

  /** Without timeouts, however the reads are cut, the frames of a stream are
      exactly the segments of its leftmost non-overlapping split that are 1 to
      maxFrame bytes long. The separator may overlap itself. */
  lemma FramesAreTheSplit(cfg: Config, arrivals: seq<Bytes>, cuts: seq<nat>)
    requires cfg.Valid() && LeftmostCuts(Concat(arrivals), cfg.sep, 0, cuts)
    ensures Frames(ReadAll(cfg, INITIAL, arrivals).events)
         == KeptSegments(Concat(arrivals), cfg.sep, cfg.maxFrame, 0, cuts)
  {
    hide Index, MatchAt;
    var text := Concat(arrivals);
    InvKept(cfg, INITIAL, []);
    CutsDoNotMatter(cfg, INITIAL, arrivals);
    assert [] + text == text && text[0..] == text;
    StreamGivesSegments(cfg, text, 0, cuts);
  }
}
