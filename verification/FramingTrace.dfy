/** Whole runs of the framer, reads and timeouts in any order: where every
    frame comes from, and what becomes of every byte. */
module FramingTrace {
  import opened Separators
  import opened Framing

  datatype Op = Arrive(src: Bytes) | Silent

  /** Everything that arrived. */
  function Stream(ops: seq<Op>): Bytes {
    if ops == [] then []
    else
      var last := ops[|ops| - 1];
      Stream(ops[..|ops| - 1]) + (if last.Arrive? then last.src else [])
  }

  /** How much had arrived at each timeout. */
  function Silences(ops: seq<Op>): seq<nat> {
    if ops == [] then []
    else
      var earlier := ops[..|ops| - 1];
      Silences(earlier) + (if ops[|ops| - 1].Silent? then [|Stream(earlier)|] else [])
  }

  function Run(cfg: Config, ops: seq<Op>): Step
    requires cfg.Valid()
  {
    if ops == [] then Step(INITIAL, [])
    else
      var before, last := Run(cfg, ops[..|ops| - 1]), ops[|ops| - 1];
      var now := if last.Arrive? then Read(cfg, before.state, last.src) else Silence(before.state);
      Step(now.state, before.events + now.events)
  }

  lemma SilenceFramesNothing(st: State)
    ensures Frames(Silence(st).events) == []
  {
  }

  lemma {:induction false} RunKeepsInv(cfg: Config, ops: seq<Op>)
    requires cfg.Valid()
    ensures Inv(cfg, Run(cfg, ops).state)
  {
    if ops == [] {
      InvKept(cfg, INITIAL, []);
    } else {
      var last := ops[|ops| - 1];
      RunKeepsInv(cfg, ops[..|ops| - 1]);
      InvKept(cfg, Run(cfg, ops[..|ops| - 1]).state, if last.Arrive? then last.src else []);
    }
  }

  // The ledger.

  /** How many bytes of the stream an event accounts for. An oversize discard
      that opened dropping accounts for none: the resync that ends it counts
      its bytes again. */
  function Weight(cfg: Config, event: Event): nat {
    match event
    case Framed(data) => |data| + |cfg.sep|
    case EmptyFrame => |cfg.sep|
    case OversizeClosed(data) => |data| + |cfg.sep|
    case OversizeOpened(_) => 0
    case ResyncAtSeparator(bytes) => bytes
    case ResyncAtSilence(bytes) => bytes
    case TimedOut(data) => |data|
  }

  function Total(cfg: Config, events: seq<Event>): nat {
    if events == [] then 0 else Total(cfg, events[..|events| - 1]) + Weight(cfg, events[|events| - 1])
  }

  // Where frames come from.

  /** The event that ends at position at leaves the next byte to start a fresh
      frame: it consumed a separator ending there, or it is a resync that a
      timeout there ended. */
  ghost predicate FreshAfter(cfg: Config, text: Bytes, silences: seq<nat>, event: Event, at: nat) {
    match event
    case Framed(_) => MatchAt(text, cfg.sep, at - |cfg.sep|)
    case EmptyFrame => MatchAt(text, cfg.sep, at - |cfg.sep|)
    case OversizeClosed(_) => MatchAt(text, cfg.sep, at - |cfg.sep|)
    case ResyncAtSeparator(_) => MatchAt(text, cfg.sep, at - |cfg.sep|)
    case ResyncAtSilence(_) => at in silences
    case OversizeOpened(_) => false
    case TimedOut(_) => false
  }

  /** The stream's start, or where the last event left a fresh start. */
  ghost predicate FreshStart(cfg: Config, text: Bytes, silences: seq<nat>, events: seq<Event>) {
    events != [] ==> FreshAfter(cfg, text, silences, events[|events| - 1], Total(cfg, events))
  }

  ghost predicate QuietWithin(silences: seq<nat>, from: nat, to: nat) {
    forall i :: 0 <= i < |silences| ==> !(from < silences[i] < to)
  }

  /** data, with earlier events before it, is a frame the stream really holds:
      one contiguous stretch up to its first separator, from a fresh start,
      with no timeout strictly inside the stretch and its separator. */
  ghost predicate Genuine(cfg: Config, text: Bytes, silences: seq<nat>, earlier: seq<Event>, data: Bytes) {
    var from := Total(cfg, earlier);
    && 1 <= |data| <= cfg.maxFrame
    && from + |data| + |cfg.sep| <= |text|
    && text[from..from + |data|] == data
    && MatchAt(text, cfg.sep, from + |data|)
    && NoMatchIn(text, cfg.sep, from, from + |data|)
    && FreshStart(cfg, text, silences, earlier)
    && QuietWithin(silences, from, from + |data| + |cfg.sep|)
  }

  ghost predicate AllGenuine(cfg: Config, text: Bytes, silences: seq<nat>, events: seq<Event>) {
    forall k :: 0 <= k < |events| && events[k].Framed? ==> Genuine(cfg, text, silences, events[..k], events[k].data)
  }

  /** What ties a state to the stream behind it, also in the middle of a call:
      the ledger balances, the buffer is the stream's end, no timeout fell after
      the bytes accounted for, and unless dropping the buffer starts fresh. */
  ghost predicate Tied(cfg: Config, text: Bytes, silences: seq<nat>, st: State, events: seq<Event>) {
    && Total(cfg, events) + st.dropped + |st.buf| == |text|
    && st.buf == text[|text| - |st.buf|..]
    && (forall i :: 0 <= i < |silences| ==> silences[i] <= Total(cfg, events))
    && (!st.dropping ==> st.dropped == 0)
    && (!st.dropping ==> FreshStart(cfg, text, silences, events))
    && AllGenuine(cfg, text, silences, events)
  }

  lemma TotalOfOneMore(cfg: Config, events: seq<Event>, event: Event)
    ensures Total(cfg, events + [event]) == Total(cfg, events) + Weight(cfg, event)
  {
    assert (events + [event])[..|events|] == events;
  }

  /** One more event keeps the earlier frames genuine; it must be, itself. */
  lemma GenuineOneMore(cfg: Config, text: Bytes, silences: seq<nat>, events: seq<Event>, event: Event)
    requires AllGenuine(cfg, text, silences, events)
    requires event.Framed? ==> Genuine(cfg, text, silences, events, event.data)
    ensures AllGenuine(cfg, text, silences, events + [event])
  {
    hide Genuine;
    var more := events + [event];
    forall k | 0 <= k < |more| && more[k].Framed?
      ensures Genuine(cfg, text, silences, more[..k], more[k].data)
    {
      assert more[..k] == events[..k];
      if k == |events| { assert events[..k] == events; }
    }
  }

  lemma FreshStartWithMore(cfg: Config, text: Bytes, more: Bytes, silences: seq<nat>, late: seq<nat>,
                           events: seq<Event>)
    requires Total(cfg, events) <= |text| && FreshStart(cfg, text, silences, events)
    ensures FreshStart(cfg, text + more, silences + late, events)
  {
    hide MatchAt;
    if events != [] {
      var at := Total(cfg, events);
      MatchInFirst(text, more, cfg.sep, at - |cfg.sep|);
    }
  }

  lemma {:induction false} TotalGrows(cfg: Config, events: seq<Event>, k: nat)
    requires k <= |events|
    ensures Total(cfg, events[..k]) <= Total(cfg, events)
    decreases |events|
  {
    if k == |events| {
      assert events[..k] == events;
    } else {
      assert events[..|events| - 1][..k] == events[..k];
      TotalGrows(cfg, events[..|events| - 1], k);
    }
  }

  /** What has arrived stays what it was: later bytes and timeouts do not
      touch a frame already emitted. */
  lemma GenuineWithMore(cfg: Config, text: Bytes, more: Bytes, silences: seq<nat>, late: seq<nat>,
                        earlier: seq<Event>, data: Bytes)
    requires Genuine(cfg, text, silences, earlier, data)
    requires forall i :: 0 <= i < |late| ==> late[i] >= |text|
    ensures Genuine(cfg, text + more, silences + late, earlier, data)
  {
    hide MatchAt;
    var from := Total(cfg, earlier);
    FreshStartWithMore(cfg, text, more, silences, late, earlier);
    MatchInFirst(text, more, cfg.sep, from + |data|);
    forall at | from <= at < from + |data|
      ensures !MatchAt(text + more, cfg.sep, at)
    {
      MatchInFirst(text, more, cfg.sep, at);
    }
    assert (text + more)[from..from + |data|] == text[from..from + |data|];
  }

  lemma AllGenuineWithMore(cfg: Config, text: Bytes, more: Bytes, silences: seq<nat>, late: seq<nat>,
                           events: seq<Event>)
    requires AllGenuine(cfg, text, silences, events)
    requires forall i :: 0 <= i < |late| ==> late[i] >= |text|
    ensures AllGenuine(cfg, text + more, silences + late, events)
  {
    hide Genuine;
    forall k | 0 <= k < |events| && events[k].Framed?
      ensures Genuine(cfg, text + more, silences + late, events[..k], events[k].data)
    {
      GenuineWithMore(cfg, text, more, silences, late, events[..k], events[k].data);
    }
  }

  /** A read's bytes join the stream and the buffer. */
  lemma TiedAfterArrival(cfg: Config, text: Bytes, more: Bytes, silences: seq<nat>, st: State, events: seq<Event>)
    requires Tied(cfg, text, silences, st, events)
    ensures Tied(cfg, text + more, silences, st.(buf := st.buf + more), events)
  {
    AllGenuineWithMore(cfg, text, more, silences, [], events);
    assert silences + [] == silences;
    if !st.dropping {
      FreshStartWithMore(cfg, text, more, silences, [], events);
    }
    assert (text + more)[|text| - |st.buf|..] == text[|text| - |st.buf|..] + more;
  }

  /** The separator found in the buffer is the stream's first from the
      buffer's start. */
  lemma MatchInStream(cfg: Config, text: Bytes, buf: Bytes)
    requires cfg.Valid() && |buf| <= |text| && buf == text[|text| - |buf|..] && Index(buf, cfg.sep) != -1
    ensures var base, at := |text| - |buf|, Index(buf, cfg.sep);
            MatchAt(text, cfg.sep, base + at) && NoMatchIn(text, cfg.sep, base, base + at)
  {
    hide MatchAt, Index;
    var base, at := |text| - |buf|, Index(buf, cfg.sep);
    IndexIsLeftmost(buf, cfg.sep);
    assert text == text[..base] + buf;
    MatchInSecond(text[..base], buf, cfg.sep, at);
    forall i | base <= i < base + at
      ensures !MatchAt(text, cfg.sep, i)
    {
      MatchInSecond(text[..base], buf, cfg.sep, i - base);
      assert base + (i - base) == i;
    }
  }

  lemma FrameIsGenuine(cfg: Config, text: Bytes, silences: seq<nat>, st: State, events: seq<Event>)
    requires cfg.Valid() && Index(st.buf, cfg.sep) != -1 && Tied(cfg, text, silences, st, events)
    ensures var closing := Closing(cfg, st, Index(st.buf, cfg.sep));
            closing.Framed? ==> Genuine(cfg, text, silences, events, closing.data)
  {
    hide MatchAt, Index, AllGenuine, FreshStart;
    var at := Index(st.buf, cfg.sep);
    var base := |text| - |st.buf|;
    MatchInStream(cfg, text, st.buf);
    if Closing(cfg, st, at).Framed? {
      assert text[base..base + at] == st.buf[..at];
    }
  }

  lemma TiedAfterSeparator(cfg: Config, text: Bytes, silences: seq<nat>, st: State, events: seq<Event>)
    requires cfg.Valid() && Index(st.buf, cfg.sep) != -1 && Tied(cfg, text, silences, st, events)
    ensures var at := Index(st.buf, cfg.sep);
            Tied(cfg, text, silences, After(cfg, st, at), events + [Closing(cfg, st, at)])
  {
    hide MatchAt, Index, AllGenuine, Genuine;
    var at := Index(st.buf, cfg.sep);
    var closing, after := Closing(cfg, st, at), After(cfg, st, at);
    MatchInStream(cfg, text, st.buf);
    FrameIsGenuine(cfg, text, silences, st, events);
    TotalOfOneMore(cfg, events, closing);
    assert after.buf == text[|text| - |after.buf|..];
    assert (events + [closing])[|events|] == closing;
    GenuineOneMore(cfg, text, silences, events, closing);
  }

  lemma {:induction false} TiedAfterDrain(cfg: Config, text: Bytes, silences: seq<nat>, st: State, events: seq<Event>)
    requires cfg.Valid() && Tied(cfg, text, silences, st, events)
    ensures Tied(cfg, text, silences, Drain(cfg, st).state, events + Drain(cfg, st).events)
    decreases |st.buf|
  {
    hide Index, Tied;
    var at := Index(st.buf, cfg.sep);
    if at == -1 {
      assert events + [] == events;
    } else {
      TiedAfterSeparator(cfg, text, silences, st, events);
      var closing, after := Closing(cfg, st, at), After(cfg, st, at);
      TiedAfterDrain(cfg, text, silences, after, events + [closing]);
      assert events + ([closing] + Drain(cfg, after).events) == events + [closing] + Drain(cfg, after).events;
    }
  }

  lemma TiedAfterSettle(cfg: Config, text: Bytes, silences: seq<nat>, st: State, events: seq<Event>)
    requires cfg.Valid() && Tied(cfg, text, silences, st, events)
    ensures Tied(cfg, text, silences, Settle(cfg, st).state, events + Settle(cfg, st).events)
  {
    hide AllGenuine, FreshStart;
    var settled := Settle(cfg, st);
    if settled.events == [] {
      assert events + [] == events;
    } else {
      TotalOfOneMore(cfg, events, settled.events[0]);
      GenuineOneMore(cfg, text, silences, events, settled.events[0]);
    }
  }

  lemma TiedAfterRead(cfg: Config, text: Bytes, silences: seq<nat>, st: State, events: seq<Event>, src: Bytes)
    requires cfg.Valid() && Tied(cfg, text, silences, st, events)
    ensures Tied(cfg, text + src, silences, Read(cfg, st, src).state, events + Read(cfg, st, src).events)
  {
    hide Tied, Index;
    var arrived := st.(buf := st.buf + src);
    TiedAfterArrival(cfg, text, src, silences, st, events);
    TiedAfterDrain(cfg, text + src, silences, arrived, events);
    var drained := Drain(cfg, arrived);
    TiedAfterSettle(cfg, text + src, silences, drained.state, events + drained.events);
    var bound := Settle(cfg, drained.state).events;
    assert events + drained.events + bound == events + (drained.events + bound);
  }

  /** A timeout that ends a resync, or abandons a partial frame. */
  lemma TiedAfterSilenceEvent(cfg: Config, text: Bytes, silences: seq<nat>, st: State, events: seq<Event>, event: Event)
    requires cfg.Valid() && Tied(cfg, text, silences, st, events)
    requires Silence(st).events == [event]
    ensures Tied(cfg, text, silences + [|text|], Silence(st).state, events + [event])
  {
    hide AllGenuine, MatchAt, Genuine;
    AllGenuineWithMore(cfg, text, [], silences, [|text|], events);
    assert text + [] == text;
    var more := silences + [|text|];
    TotalOfOneMore(cfg, events, event);
    assert Total(cfg, events + [event]) == |text|;
    GenuineOneMore(cfg, text, more, events, event);
    assert |text| in more by { assert more[|silences|] == |text|; }
    assert (events + [event])[|events|] == event;
  }

  lemma TiedAfterSilence(cfg: Config, text: Bytes, silences: seq<nat>, st: State, events: seq<Event>)
    requires cfg.Valid() && Tied(cfg, text, silences, st, events)
    ensures Tied(cfg, text, silences + [|text|], Silence(st).state, events + Silence(st).events)
  {
    hide AllGenuine, MatchAt, Genuine, FreshStart;
    if !st.dropping && st.buf == [] {
      AllGenuineWithMore(cfg, text, [], silences, [|text|], events);
      FreshStartWithMore(cfg, text, [], silences, [|text|], events);
      assert text + [] == text;
      assert events + [] == events;
    } else {
      TiedAfterSilenceEvent(cfg, text, silences, st, events, Silence(st).events[0]);
    }
  }

  lemma {:induction false} RunIsTied(cfg: Config, ops: seq<Op>)
    requires cfg.Valid()
    ensures Tied(cfg, Stream(ops), Silences(ops), Run(cfg, ops).state, Run(cfg, ops).events)
  {
    if ops != [] {
      hide Tied;
      var earlier, last := ops[..|ops| - 1], ops[|ops| - 1];
      RunIsTied(cfg, earlier);
      var before := Run(cfg, earlier);
      if last.Arrive? {
        TiedAfterRead(cfg, Stream(earlier), Silences(earlier), before.state, before.events, last.src);
        assert Silences(earlier) + [] == Silences(earlier);
      } else {
        TiedAfterSilence(cfg, Stream(earlier), Silences(earlier), before.state, before.events);
        assert Stream(earlier) + [] == Stream(earlier);
      }
    }
  }

  /** Over every run of reads and timeouts, every byte that arrived is
      accounted for exactly once. */
  lemma Ledger(cfg: Config, ops: seq<Op>)
    requires cfg.Valid()
    ensures var end := Run(cfg, ops);
            Total(cfg, end.events) + end.state.dropped + |end.state.buf| == |Stream(ops)|
  {
    RunIsTied(cfg, ops);
  }

  /** Every frame of every run is one contiguous stretch of the stream up to
      its first separator; it starts at the stream's start, right after a
      consumed separator, or at a timeout that ended a resync; and no timeout
      fell strictly inside it and its separator. */
  lemma FramesAreGenuine(cfg: Config, ops: seq<Op>, k: nat)
    requires cfg.Valid() && k < |Run(cfg, ops).events| && Run(cfg, ops).events[k].Framed?
    ensures var events := Run(cfg, ops).events;
            Genuine(cfg, Stream(ops), Silences(ops), events[..k], events[k].data)
  {
    RunIsTied(cfg, ops);
  }

  /** Between calls the buffer holds no separator and is bounded, so that a
      device that never sends one cannot grow it. */
  lemma BufferIsBounded(cfg: Config, ops: seq<Op>)
    requires cfg.Valid()
    ensures var st := Run(cfg, ops).state;
            && NoMatchIn(st.buf, cfg.sep, 0, |st.buf|)
            && |st.buf| <= cfg.maxFrame + |cfg.sep| - 1
            && (st.dropping ==> |st.buf| <= |cfg.sep| - 1)
  {
    RunKeepsInv(cfg, ops);
    IndexIsLeftmost(Run(cfg, ops).state.buf, cfg.sep);
  }
}
