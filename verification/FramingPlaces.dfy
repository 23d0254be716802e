/** Which bytes of the stream each event of the framer is about, and which
    events leave it dropping. */
module FramingPlaces {
  import opened Separators
  import opened Framing
  import opened FramingTrace

  /** The stream holds data at from. */
  ghost predicate Holds(text: Bytes, from: nat, data: Bytes) {
    from + |data| <= |text| && text[from..from + |data|] == data
  }

  /** The stream holds data at from, and its first separator from there behind
      it. */
  ghost predicate HoldsClosed(text: Bytes, sep: Bytes, from: nat, data: Bytes) {
    Holds(text, from, data) && MatchAt(text, sep, from + |data|) && NoMatchIn(text, sep, from, from + |data|)
  }

  /** What an event says of the bytes from where the ones before it leave off. */
  ghost predicate Placed(cfg: Config, text: Bytes, silences: seq<nat>, from: nat, event: Event) {
    match event
    case Framed(data) => 1 <= |data| <= cfg.maxFrame && HoldsClosed(text, cfg.sep, from, data)
    case EmptyFrame => HoldsClosed(text, cfg.sep, from, [])
    case OversizeClosed(data) => |data| > cfg.maxFrame && HoldsClosed(text, cfg.sep, from, data)
    case OversizeOpened(data) => |data| > cfg.maxFrame && Holds(text, from, data)
    case ResyncAtSeparator(bytes) => bytes >= |cfg.sep| && MatchAt(text, cfg.sep, from + bytes - |cfg.sep|)
    case ResyncAtSilence(bytes) => from + bytes <= |text| && from + bytes in silences
    case TimedOut(data) => data != [] && Holds(text, from, data) && from + |data| in silences
  }

  ghost predicate AllPlaced(cfg: Config, text: Bytes, silences: seq<nat>, events: seq<Event>) {
    forall k :: 0 <= k < |events| ==> Placed(cfg, text, silences, Total(cfg, events[..k]), events[k])
  }

  lemma PlacedOneMore(cfg: Config, text: Bytes, silences: seq<nat>, events: seq<Event>, event: Event)
    requires AllPlaced(cfg, text, silences, events) && Placed(cfg, text, silences, Total(cfg, events), event)
    ensures AllPlaced(cfg, text, silences, events + [event])
  {
    hide Placed, Total;
    var more := events + [event];
    forall k | 0 <= k < |more|
      ensures Placed(cfg, text, silences, Total(cfg, more[..k]), more[k])
    {
      assert more[..k] == events[..k];
      if k == |events| {
        assert events[..k] == events;
      }
    }
  }

  lemma HoldsWithMore(text: Bytes, more: Bytes, from: nat, data: Bytes)
    requires Holds(text, from, data)
    ensures Holds(text + more, from, data)
  {
    assert (text + more)[from..from + |data|] == text[from..from + |data|];
  }

  lemma HoldsClosedWithMore(text: Bytes, more: Bytes, sep: Bytes, from: nat, data: Bytes)
    requires HoldsClosed(text, sep, from, data) && sep != []
    ensures HoldsClosed(text + more, sep, from, data)
  {
    hide MatchAt;
    HoldsWithMore(text, more, from, data);
    MatchInFirst(text, more, sep, from + |data|);
    forall at | from <= at < from + |data|
      ensures !MatchAt(text + more, sep, at)
    {
      MatchInFirst(text, more, sep, at);
    }
  }

  lemma PlacedWithMore(cfg: Config, text: Bytes, more: Bytes, silences: seq<nat>, late: seq<nat>,
                       from: nat, event: Event)
    requires cfg.Valid() && Placed(cfg, text, silences, from, event)
    ensures Placed(cfg, text + more, silences + late, from, event)
  {
    hide MatchAt, Holds, HoldsClosed;
    match event
    case Framed(data) => HoldsClosedWithMore(text, more, cfg.sep, from, data);
    case EmptyFrame => HoldsClosedWithMore(text, more, cfg.sep, from, []);
    case OversizeClosed(data) => HoldsClosedWithMore(text, more, cfg.sep, from, data);
    case OversizeOpened(data) => HoldsWithMore(text, more, from, data);
    case ResyncAtSeparator(bytes) =>
      MatchInFirst(text, more, cfg.sep, from + bytes - |cfg.sep|);
    case ResyncAtSilence(_) =>
    case TimedOut(data) => HoldsWithMore(text, more, from, data);
  }

  lemma AllPlacedWithMore(cfg: Config, text: Bytes, more: Bytes, silences: seq<nat>, late: seq<nat>,
                          events: seq<Event>)
    requires cfg.Valid() && AllPlaced(cfg, text, silences, events)
    ensures AllPlaced(cfg, text + more, silences + late, events)
  {
    hide Placed, Total;
    forall k | 0 <= k < |events|
      ensures Placed(cfg, text + more, silences + late, Total(cfg, events[..k]), events[k])
    {
      PlacedWithMore(cfg, text, more, silences, late, Total(cfg, events[..k]), events[k]);
    }
  }

  /** What a state that is tied to the stream says of where its buffer is. */
  lemma BufferIsHeld(cfg: Config, text: Bytes, silences: seq<nat>, st: State, events: seq<Event>)
    requires Tied(cfg, text, silences, st, events)
    ensures Total(cfg, events) + st.dropped == |text| - |st.buf| && (!st.dropping ==> st.dropped == 0)
    ensures |st.buf| <= |text| && st.buf == text[|text| - |st.buf|..]
  {
  }

  lemma ClosingIsPlaced(cfg: Config, text: Bytes, silences: seq<nat>, st: State, events: seq<Event>)
    requires cfg.Valid() && Index(st.buf, cfg.sep) != -1 && Tied(cfg, text, silences, st, events)
    ensures Placed(cfg, text, silences, Total(cfg, events), Closing(cfg, st, Index(st.buf, cfg.sep)))
  {
    hide MatchAt, Index, Tied, Total;
    BufferIsHeld(cfg, text, silences, st, events);
    MatchInStream(cfg, text, st.buf);
    var at, base := Index(st.buf, cfg.sep), |text| - |st.buf|;
    assert text[base..base + at] == st.buf[..at];
    assert st.buf[..0] == [];
  }

  lemma {:induction false} PlacedAfterDrain(cfg: Config, text: Bytes, silences: seq<nat>, st: State,
                                            events: seq<Event>)
    requires cfg.Valid() && Tied(cfg, text, silences, st, events) && AllPlaced(cfg, text, silences, events)
    ensures AllPlaced(cfg, text, silences, events + Drain(cfg, st).events)
    decreases |st.buf|
  {
    hide Index, Tied, AllPlaced, Placed;
    var at := Index(st.buf, cfg.sep);
    if at == -1 {
      assert events + [] == events;
    } else {
      var closing, after := Closing(cfg, st, at), After(cfg, st, at);
      TiedAfterSeparator(cfg, text, silences, st, events);
      ClosingIsPlaced(cfg, text, silences, st, events);
      PlacedOneMore(cfg, text, silences, events, closing);
      PlacedAfterDrain(cfg, text, silences, after, events + [closing]);
      assert events + ([closing] + Drain(cfg, after).events) == events + [closing] + Drain(cfg, after).events;
    }
  }

  lemma PlacedAfterSettle(cfg: Config, text: Bytes, silences: seq<nat>, st: State, events: seq<Event>)
    requires cfg.Valid() && Tied(cfg, text, silences, st, events) && AllPlaced(cfg, text, silences, events)
    ensures AllPlaced(cfg, text, silences, events + Settle(cfg, st).events)
  {
    hide Tied, AllPlaced, Total;
    BufferIsHeld(cfg, text, silences, st, events);
    if Settle(cfg, st).events == [] {
      assert events + [] == events;
    } else {
      PlacedOneMore(cfg, text, silences, events, OversizeOpened(st.buf));
    }
  }

  lemma PlacedAfterRead(cfg: Config, text: Bytes, silences: seq<nat>, st: State, events: seq<Event>, src: Bytes)
    requires cfg.Valid() && Tied(cfg, text, silences, st, events) && AllPlaced(cfg, text, silences, events)
    ensures AllPlaced(cfg, text + src, silences, events + Read(cfg, st, src).events)
  {
    hide Tied, AllPlaced, Index;
    var arrived := st.(buf := st.buf + src);
    TiedAfterArrival(cfg, text, src, silences, st, events);
    AllPlacedWithMore(cfg, text, src, silences, [], events);
    assert silences + [] == silences;
    PlacedAfterDrain(cfg, text + src, silences, arrived, events);
    TiedAfterDrain(cfg, text + src, silences, arrived, events);
    var drained := Drain(cfg, arrived);
    PlacedAfterSettle(cfg, text + src, silences, drained.state, events + drained.events);
    var bound := Settle(cfg, drained.state).events;
    assert events + drained.events + bound == events + (drained.events + bound);
  }

  lemma PlacedAfterSilence(cfg: Config, text: Bytes, silences: seq<nat>, st: State, events: seq<Event>)
    requires cfg.Valid() && Tied(cfg, text, silences, st, events) && AllPlaced(cfg, text, silences, events)
    ensures AllPlaced(cfg, text, silences + [|text|], events + Silence(st).events)
  {
    hide Tied, AllPlaced, Total, MatchAt;
    BufferIsHeld(cfg, text, silences, st, events);
    AllPlacedWithMore(cfg, text, [], silences, [|text|], events);
    assert text + [] == text;
    var now := silences + [|text|];
    assert |text| in now by { assert now[|silences|] == |text|; }
    if Silence(st).events == [] {
      assert events + [] == events;
    } else {
      PlacedOneMore(cfg, text, now, events, Silence(st).events[0]);
    }
  }

  lemma {:induction false} RunIsPlaced(cfg: Config, ops: seq<Op>)
    requires cfg.Valid()
    ensures AllPlaced(cfg, Stream(ops), Silences(ops), Run(cfg, ops).events)
  {
    if ops != [] {
      hide Tied, AllPlaced, Read, Silence;
      var earlier, last := ops[..|ops| - 1], ops[|ops| - 1];
      RunIsPlaced(cfg, earlier);
      RunIsTied(cfg, earlier);
      var before := Run(cfg, earlier);
      if last.Arrive? {
        PlacedAfterRead(cfg, Stream(earlier), Silences(earlier), before.state, before.events, last.src);
        assert Silences(earlier) + [] == Silences(earlier);
      } else {
        PlacedAfterSilence(cfg, Stream(earlier), Silences(earlier), before.state, before.events);
        assert Stream(earlier) + [] == Stream(earlier);
      }
    }
  }

  /** Every event of every run is about the bytes that follow those of the ones
      before it, and holds exactly these: a frame or an oversize discard that
      its separator closed, what a timeout broke off, a resync up to a separator
      or a timeout. What is left is dropped so far, or in the buffer. */
  lemma EveryByteHasItsPlace(cfg: Config, ops: seq<Op>, k: nat)
    requires cfg.Valid()
    ensures var text, end := Stream(ops), Run(cfg, ops);
            && (k < |end.events| ==>
                  && Placed(cfg, text, Silences(ops), Total(cfg, end.events[..k]), end.events[k])
                  && Total(cfg, end.events[..k + 1]) == Total(cfg, end.events[..k]) + Weight(cfg, end.events[k]))
            && Total(cfg, end.events) + end.state.dropped + |end.state.buf| == |text|
            && end.state.buf == text[|text| - |end.state.buf|..]
  {
    hide Tied, Placed, Run, Weight;
    RunIsPlaced(cfg, ops);
    RunIsTied(cfg, ops);
    var end := Run(cfg, ops);
    BufferIsHeld(cfg, Stream(ops), Silences(ops), end.state, end.events);
    if k < |end.events| {
      TotalOfOneMore(cfg, end.events[..k], end.events[k]);
      assert end.events[..k + 1] == end.events[..k] + [end.events[k]];
    }
  }

  // What a discard says.

  /** What a discard's reason, bytes and data say of the stream from a place
      on. */
  ghost predicate Describes(cfg: Config, text: Bytes, silences: seq<nat>, from: nat, discard: Discard) {
    match discard.reason
    case Empty => discard.bytes == |cfg.sep| && discard.data == [] && MatchAt(text, cfg.sep, from)
    case Oversize => discard.bytes == |discard.data| > cfg.maxFrame && Holds(text, from, discard.data)
    case InterCharTimeout =>
      && discard.bytes == |discard.data| > 0 && Holds(text, from, discard.data)
      && from + discard.bytes in silences
    case Resync =>
      && discard.data == [] && discard.bytes > 0
      && (MatchAt(text, cfg.sep, from + discard.bytes - |cfg.sep|) || from + discard.bytes in silences)
  }

  lemma {:induction false} DiscardHasItsEvent(cfg: Config, events: seq<Event>, j: nat) returns (k: nat)
    requires j < |Discards(cfg, events)|
    ensures k < |events| && DiscardOf(cfg, events[k]) == [Discards(cfg, events)[j]]
  {
    var first := DiscardOf(cfg, events[0]);
    if j < |first| {
      k := 0;
    } else {
      var later := DiscardHasItsEvent(cfg, events[1..], j - |first|);
      k := later + 1;
    }
  }

  /** How many events are worth a frame or a discard: all but a timeout that
      finds nothing dropped. */
  function Tellable(events: seq<Event>): nat {
    if events == [] then 0 else (if events[0] == ResyncAtSilence(0) then 0 else 1) + Tellable(events[1..])
  }

  /** Nothing is lost in silence: every event gives one frame or one discard,
      but for a timeout that ends a resync with nothing dropped. */
  lemma {:induction false} EverythingIsTold(cfg: Config, events: seq<Event>)
    ensures |Frames(events)| + |Discards(cfg, events)| == Tellable(events)
  {
    if events != [] {
      EverythingIsTold(cfg, events[1..]);
    }
  }

  lemma PlacedDescribes(cfg: Config, text: Bytes, silences: seq<nat>, from: nat, event: Event, discard: Discard)
    requires cfg.Valid() && Placed(cfg, text, silences, from, event) && DiscardOf(cfg, event) == [discard]
    ensures Describes(cfg, text, silences, from, discard)
  {
    hide MatchAt, Holds, NoMatchIn;
    assert [discard][0] == DiscardOf(cfg, event)[0];
  }

  /** Every discard of every run is true of the stream: an empty frame is a
      separator by itself, an oversize one data past the limit, a timed out one
      data that a timeout ended, and a resync ends at a separator or a
      timeout. */
  lemma DiscardsAreTrue(cfg: Config, ops: seq<Op>, j: nat) returns (k: nat)
    requires cfg.Valid() && j < |Discards(cfg, Run(cfg, ops).events)|
    ensures var events := Run(cfg, ops).events;
            && k < |events| && DiscardOf(cfg, events[k]) == [Discards(cfg, events)[j]]
            && Describes(cfg, Stream(ops), Silences(ops), Total(cfg, events[..k]), Discards(cfg, events)[j])
  {
    hide Placed, Run, Describes, DiscardOf, Discards;
    var events := Run(cfg, ops).events;
    k := DiscardHasItsEvent(cfg, events, j);
    EveryByteHasItsPlace(cfg, ops, k);
    PlacedDescribes(cfg, Stream(ops), Silences(ops), Total(cfg, events[..k]), events[k], Discards(cfg, events)[j]);
  }

  // Which discards are followed by a resynchronisation.

  /** A frame that broke off, by its size or by a timeout, before its separator
      was there. */
  predicate LeavesDropping(event: Event) { event.OversizeOpened? || event.TimedOut? }

  predicate EndsDropping(events: seq<Event>) { events != [] && LeavesDropping(events[|events| - 1]) }

  /** Draining a separator ends the dropping, and leaves none. */
  lemma {:induction false} DrainEndsDropping(cfg: Config, st: State)
    requires cfg.Valid()
    ensures var drained := Drain(cfg, st);
            if drained.events == [] then drained.state == st
            else !drained.state.dropping && !EndsDropping(drained.events)
    decreases |st.buf|
  {
    hide Index;
    var at := Index(st.buf, cfg.sep);
    if at != -1 {
      DrainEndsDropping(cfg, After(cfg, st, at));
    }
  }

  lemma ReadDrops(cfg: Config, st: State, src: Bytes)
    requires cfg.Valid()
    ensures var step := Read(cfg, st, src);
            step.state.dropping <==> if step.events == [] then st.dropping else EndsDropping(step.events)
  {
    hide Drain;
    DrainEndsDropping(cfg, st.(buf := st.buf + src));
  }

  lemma SilenceDrops(st: State)
    ensures var step := Silence(st);
            step.state.dropping <==> if step.events == [] then st.dropping else EndsDropping(step.events)
  {
  }

  lemma EndsWithMore(events: seq<Event>, more: seq<Event>)
    ensures EndsDropping(events + more) <==> if more == [] then EndsDropping(events) else EndsDropping(more)
  {
    if more == [] {
      assert events + more == events;
    }
  }

  /** After any run the framer drops up to the next separator or timeout if and
      only if the last thing that happened is a frame that broke off before its
      separator. The other discards are not followed by a resynchronisation. */
  lemma {:induction false} DropsExactlyAfter(cfg: Config, ops: seq<Op>)
    requires cfg.Valid()
    ensures Run(cfg, ops).state.dropping <==> EndsDropping(Run(cfg, ops).events)
  {
    if ops != [] {
      hide Read, Silence, EndsDropping;
      var earlier, last := ops[..|ops| - 1], ops[|ops| - 1];
      DropsExactlyAfter(cfg, earlier);
      var before := Run(cfg, earlier);
      if last.Arrive? {
        ReadDrops(cfg, before.state, last.src);
        EndsWithMore(before.events, Read(cfg, before.state, last.src).events);
      } else {
        SilenceDrops(before.state);
        EndsWithMore(before.events, Silence(before.state).events);
      }
    } else {
      assert !EndsDropping([]);
    }
  }
}
