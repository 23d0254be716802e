/** The streaming framer: its state machine as functions on values, and the
    class whose methods keep that state in place. */
module Framing {
  import opened Separators

  datatype DiscardReason = Oversize | InterCharTimeout | Resync | Empty

  /** A stretch of input in no frame, as the framer reports it. */
  datatype Discard = Discard(reason: DiscardReason, bytes: nat, data: Bytes)

  datatype Config = Config(sep: Bytes, maxFrame: nat) {
    predicate Valid() { sep != [] && maxFrame >= 1 }

    /** How many bytes dropping leaves: the most of a separator that can be
        there before the rest of it arrives. */
    function Carry(): nat
      requires Valid()
    {
      |sep| - 1
    }
  }

  datatype State = State(buf: Bytes, dropping: bool, dropped: nat)

  const INITIAL := State([], false, 0)

  /** Everything that can become of buffered bytes, in the order it happens. An
      oversize frame is told apart by whether its separator was already there
      (closed) or is still to come (opened). */
  datatype Event =
    | Framed(data: Bytes)
    | EmptyFrame
    | OversizeClosed(data: Bytes)
    | OversizeOpened(data: Bytes)
    | ResyncAtSeparator(bytes: nat)
    | ResyncAtSilence(bytes: nat)
    | TimedOut(data: Bytes)

  datatype Step = Step(state: State, events: seq<Event>)

  /** What every call leaves behind. */
  ghost predicate Inv(cfg: Config, st: State)
    requires cfg.Valid()
  {
    && Index(st.buf, cfg.sep) == -1
    && (st.dropping ==> |st.buf| <= cfg.Carry())
    && (!st.dropping ==> |st.buf| <= cfg.maxFrame + cfg.Carry() && st.dropped == 0)
  }

  // The results of a call, read off its events.

  function Frames(events: seq<Event>): seq<Bytes> {
    if events == [] then []
    else (if events[0].Framed? then [events[0].data] else []) + Frames(events[1..])
  }

  function DiscardOf(cfg: Config, event: Event): seq<Discard> {
    match event
    case Framed(_) => []
    case EmptyFrame => [Discard(Empty, |cfg.sep|, [])]
    case OversizeClosed(data) => [Discard(Oversize, |data|, data)]
    case OversizeOpened(data) => [Discard(Oversize, |data|, data)]
    case ResyncAtSeparator(bytes) => [Discard(Resync, bytes, [])]
    case ResyncAtSilence(bytes) => if bytes == 0 then [] else [Discard(Resync, bytes, [])]
    case TimedOut(data) => [Discard(InterCharTimeout, |data|, data)]
  }

  function Discards(cfg: Config, events: seq<Event>): seq<Discard> {
    if events == [] then [] else DiscardOf(cfg, events[0]) + Discards(cfg, events[1..])
  }

  lemma {:induction false} FramesConcat(a: seq<Event>, b: seq<Event>)
    ensures Frames(a + b) == Frames(a) + Frames(b)
  {
    if a == [] {
      assert a + b == b;
    } else {
      assert (a + b)[0] == a[0] && (a + b)[1..] == a[1..] + b;
      FramesConcat(a[1..], b);
      var head := if a[0].Framed? then [a[0].data] else [];
      assert head + (Frames(a[1..]) + Frames(b)) == (head + Frames(a[1..])) + Frames(b);
    }
  }

  lemma {:induction false} DiscardsConcat(cfg: Config, a: seq<Event>, b: seq<Event>)
    ensures Discards(cfg, a + b) == Discards(cfg, a) + Discards(cfg, b)
  {
    if a == [] {
      assert a + b == b;
    } else {
      assert (a + b)[1..] == a[1..] + b;
      DiscardsConcat(cfg, a[1..], b);
    }
  }

  /** One more event adds its own frame or discards at the end. */
  lemma ResultsOfOneMore(cfg: Config, events: seq<Event>, event: Event)
    ensures Frames(events + [event]) == Frames(events) + (if event.Framed? then [event.data] else [])
    ensures Discards(cfg, events + [event]) == Discards(cfg, events) + DiscardOf(cfg, event)
  {
    assert [event][1..] == [];
    assert Frames([event]) == if event.Framed? then [event.data] else [];
    assert Discards(cfg, [event]) == DiscardOf(cfg, event);
    FramesConcat(events, [event]);
    DiscardsConcat(cfg, events, [event]);
  }

  // One read.

  /** What the bytes before the separator at position at, and it, become. */
  function Closing(cfg: Config, st: State, at: nat): Event
    requires cfg.Valid() && at + |cfg.sep| <= |st.buf|
  {
    if st.dropping then ResyncAtSeparator(st.dropped + at + |cfg.sep|)
    else if at == 0 then EmptyFrame
    else if at > cfg.maxFrame then OversizeClosed(st.buf[..at])
    else Framed(st.buf[..at])
  }

  function After(cfg: Config, st: State, at: nat): State
    requires cfg.Valid() && at + |cfg.sep| <= |st.buf|
  {
    State(st.buf[at + |cfg.sep|..], false, if st.dropping then 0 else st.dropped)
  }

  /** Consumes every separator in the buffer, leftmost first. */
  function Drain(cfg: Config, st: State): (step: Step)
    requires cfg.Valid()
    ensures Index(step.state.buf, cfg.sep) == -1
    decreases |st.buf|
  {
    var at := Index(st.buf, cfg.sep);
    if at == -1 then Step(st, [])
    else
      var rest := Drain(cfg, After(cfg, st, at));
      Step(rest.state, [Closing(cfg, st, at)] + rest.events)
  }

  /** Bounds what is left: while dropping only the carry stays, and a payload
      past the limit starts dropping. */
  function Settle(cfg: Config, st: State): Step
    requires cfg.Valid()
  {
    var keep := cfg.Carry();
    if st.dropping then
      if |st.buf| <= keep then Step(st, [])
      else Step(State(st.buf[|st.buf| - keep..], true, st.dropped + |st.buf| - keep), [])
    else if |st.buf| > cfg.maxFrame + keep then
      Step(State(st.buf[|st.buf| - keep..], true, |st.buf| - keep), [OversizeOpened(st.buf)])
    else Step(st, [])
  }

  function Process(cfg: Config, st: State): Step
    requires cfg.Valid()
  {
    var drained := Drain(cfg, st);
    var settled := Settle(cfg, drained.state);
    Step(settled.state, drained.events + settled.events)
  }

  function Read(cfg: Config, st: State, src: Bytes): Step
    requires cfg.Valid()
  {
    Process(cfg, st.(buf := st.buf + src))
  }

  /** The inter-character timeout. */
  function Silence(st: State): Step {
    if st.dropping then Step(INITIAL, [ResyncAtSilence(st.dropped + |st.buf|)])
    else if st.buf == [] then Step(st, [])
    else Step(State([], true, 0), [TimedOut(st.buf)])
  }

  /** Draining start has come to st, with events that gave these results. */
  ghost predicate Collected(cfg: Config, start: State, st: State, events: seq<Event>,
                            frames: seq<Bytes>, discards: seq<Discard>)
    requires cfg.Valid()
  {
    && Drain(cfg, start) == Step(Drain(cfg, st).state, events + Drain(cfg, st).events)
    && frames == Frames(events)
    && discards == Discards(cfg, events)
  }

  lemma CollectedOneMore(cfg: Config, start: State, st: State, events: seq<Event>,
                         frames: seq<Bytes>, discards: seq<Discard>, at: nat)
    requires cfg.Valid() && Index(st.buf, cfg.sep) == at && Collected(cfg, start, st, events, frames, discards)
    ensures var closing := Closing(cfg, st, at);
            Collected(cfg, start, After(cfg, st, at), events + [closing],
                      frames + (if closing.Framed? then [closing.data] else []), discards + DiscardOf(cfg, closing))
  {
    var closing, rest := Closing(cfg, st, at), Drain(cfg, After(cfg, st, at)).events;
    assert events + ([closing] + rest) == (events + [closing]) + rest;
    ResultsOfOneMore(cfg, events, closing);
  }

  lemma CollectedAll(cfg: Config, start: State, st: State, events: seq<Event>,
                     frames: seq<Bytes>, discards: seq<Discard>)
    requires cfg.Valid() && Index(st.buf, cfg.sep) == -1 && Collected(cfg, start, st, events, frames, discards)
    ensures Process(cfg, start).state == Settle(cfg, st).state
    ensures frames == Frames(Process(cfg, start).events)
    ensures discards + (if Settle(cfg, st).events == [] then [] else [Discard(Oversize, |st.buf|, st.buf)])
         == Discards(cfg, Process(cfg, start).events)
  {
    assert events + [] == events;
    assert Process(cfg, start) == Step(Settle(cfg, st).state, events + Settle(cfg, st).events);
    ResultsOfOneMore(cfg, events, OversizeOpened(st.buf));
  }

  /** A buffer without a separator is only bounded. */
  lemma ProcessWithout(cfg: Config, st: State)
    requires cfg.Valid() && Index(st.buf, cfg.sep) == -1
    ensures Process(cfg, st) == Settle(cfg, st)
  {
    assert [] + Settle(cfg, st).events == Settle(cfg, st).events;
  }

  /** The leftmost separator closes what is before it; the rest is processed as
      if it had been alone. */
  lemma ProcessWith(cfg: Config, st: State)
    requires cfg.Valid() && Index(st.buf, cfg.sep) != -1
    ensures var at := Index(st.buf, cfg.sep);
            var rest := Process(cfg, After(cfg, st, at));
            && Process(cfg, st) == Step(rest.state, [Closing(cfg, st, at)] + rest.events)
            && Frames(Process(cfg, st).events) == Frames([Closing(cfg, st, at)]) + Frames(rest.events)
  {
    var at := Index(st.buf, cfg.sep);
    var closing, drained := Closing(cfg, st, at), Drain(cfg, After(cfg, st, at));
    var bound := Settle(cfg, drained.state).events;
    assert [closing] + drained.events + bound == [closing] + (drained.events + bound);
    FramesConcat([closing], drained.events + bound);
  }

  lemma {:induction false} DrainClears(cfg: Config, st: State)
    requires cfg.Valid() && (!st.dropping ==> st.dropped == 0)
    ensures !Drain(cfg, st).state.dropping ==> Drain(cfg, st).state.dropped == 0
    decreases |st.buf|
  {
    var at := Index(st.buf, cfg.sep);
    if at != -1 {
      DrainClears(cfg, After(cfg, st, at));
    }
  }

  /** Every read and every timeout leaves a buffer without a separator, within
      the limit plus the carry, and within the carry while dropping. */
  lemma InvKept(cfg: Config, st: State, src: Bytes)
    requires cfg.Valid() && Inv(cfg, st)
    ensures Inv(cfg, INITIAL)
    ensures Inv(cfg, Read(cfg, st, src).state)
    ensures Inv(cfg, Silence(st).state)
  {
    var drained := Drain(cfg, st.(buf := st.buf + src)).state;
    DrainClears(cfg, st.(buf := st.buf + src));
    var keep := cfg.Carry();
    if |drained.buf| > keep {
      NoMatchInTail(drained.buf, cfg.sep, |drained.buf| - keep);
    }
    assert Index([], cfg.sep) == -1;
  }

  /** The framer with its fields, updated in place. */
  class Framer {
    const separator: Bytes
    const maxFrame: nat
    var buf: Bytes
    var dropping: bool
    var dropped: nat

    ghost function Cfg(): Config { Config(separator, maxFrame) }

    ghost function Now(): State
      reads this
    {
      State(buf, dropping, dropped)
    }

    ghost predicate Valid()
      reads this
    {
      Cfg().Valid() && Inv(Cfg(), Now())
    }

    constructor (separator: Bytes, maxFrame: nat)
      requires separator != [] && maxFrame >= 1
      ensures Valid() && Now() == INITIAL && Cfg() == Config(separator, maxFrame)
    {
      this.separator, this.maxFrame := separator, maxFrame;
      buf, dropping, dropped := [], false, 0;
      new;
      assert Index([], separator) == -1;
    }

    method Append(src: Bytes) returns (frames: seq<Bytes>, discards: seq<Discard>)
      requires Valid()
      modifies this
      ensures Valid()
      ensures Now() == Read(Cfg(), old(Now()), src).state
      ensures frames == Frames(Read(Cfg(), old(Now()), src).events)
      ensures discards == Discards(Cfg(), Read(Cfg(), old(Now()), src).events)
    {
      ghost var cfg := Cfg();
      InvKept(cfg, Now(), src);
      frames, discards := [], [];
      buf := buf + src;
      ghost var start := Now();
      ghost var events: seq<Event> := [];

      var separatorAt := Index(buf, separator);
      while separatorAt != -1
        invariant Cfg() == cfg && separatorAt == Index(buf, separator)
        invariant Collected(cfg, start, Now(), events, frames, discards)
        decreases |buf|
      {
        CollectedOneMore(cfg, start, Now(), events, frames, discards, separatorAt);
        events := events + [Closing(cfg, Now(), separatorAt)];
        var frame, discard := Close(separatorAt);
        frames, discards := frames + frame, discards + discard;
        separatorAt := Index(buf, separator);
      }
      CollectedAll(cfg, start, Now(), events, frames, discards);
      var oversize := Bound();
      discards := discards + oversize;
    }

    /** One turn of Append's loop: what the separator at separatorAt closes. */
    method Close(separatorAt: nat) returns (frames: seq<Bytes>, discards: seq<Discard>)
      requires Cfg().Valid() && separatorAt + |separator| <= |buf|
      modifies this
      ensures Now() == After(Cfg(), old(Now()), separatorAt)
      ensures var closing := Closing(Cfg(), old(Now()), separatorAt);
              && frames == (if closing.Framed? then [closing.data] else [])
              && discards == DiscardOf(Cfg(), closing)
    {
      frames, discards := [], [];
      if dropping {
        dropped := dropped + separatorAt + |separator|;
        discards := [Discard(Resync, dropped, [])];
        dropping, dropped := false, 0;
      } else if separatorAt == 0 {
        discards := [Discard(Empty, |separator|, [])];
      } else if separatorAt > maxFrame {
        discards := [Discard(Oversize, separatorAt, buf[..separatorAt])];
      } else {
        frames := [buf[..separatorAt]];
      }
      Consume(separatorAt + |separator|);
    }

    /** The end of Append: bounds what is left in the buffer. */
    method Bound() returns (discards: seq<Discard>)
      requires Cfg().Valid()
      modifies this
      ensures Now() == Settle(Cfg(), old(Now())).state
      ensures discards == if Settle(Cfg(), old(Now())).events == [] then []
                          else [Discard(Oversize, |old(buf)|, old(buf))]
    {
      discards := [];
      if dropping {
        var trimmed := TrimTo(|separator| - 1);
        dropped := dropped + trimmed;
      } else if |buf| > maxFrame + |separator| - 1 {
        var data := buf;
        dropping := true;
        dropped := TrimTo(|separator| - 1);
        discards := [Discard(Oversize, |data|, data)];
      }
    }

    method Timeout() returns (discard: Discard, reported: bool)
      requires Valid()
      modifies this
      ensures Valid()
      ensures Now() == Silence(old(Now())).state
      ensures (if reported then [discard] else []) == Discards(Cfg(), Silence(old(Now())).events)
    {
      InvKept(Cfg(), Now(), []);
      ghost var events := Silence(Now()).events;
      if events != [] {
        ResultsOfOneMore(Cfg(), [], events[0]);
        assert [] + [events[0]] == events;
      }
      var none := Discard(Resync, 0, []);
      if dropping {
        var consumed := dropped + |buf|;
        Reset();
        if consumed == 0 {
          return none, false;
        }
        return Discard(Resync, consumed, []), true;
      }
      if |buf| == 0 {
        return none, false;
      }
      var data := buf;
      buf := [];
      dropping, dropped := true, 0;
      return Discard(InterCharTimeout, |data|, data), true;
    }

    /** Back to where a new framer starts, whatever was buffered. */
    method Reset()
      requires Cfg().Valid()
      modifies this
      ensures Valid() && Now() == INITIAL
    {
      buf, dropping, dropped := [], false, 0;
      assert Index([], separator) == -1;
    }

    method TrimTo(keep: nat) returns (trimmed: nat)
      modifies this`buf
      ensures trimmed == if |old(buf)| <= keep then 0 else |old(buf)| - keep
      ensures buf == old(buf)[trimmed..]
    {
      if |buf| <= keep {
        return 0;
      }
      trimmed := |buf| - keep;
      Consume(trimmed);
    }

    method Consume(consumed: nat)
      requires consumed <= |buf|
      modifies this`buf
      ensures buf == old(buf)[consumed..]
    {
      buf := buf[consumed..];
    }
  }

  /** NewFramer: no framer for an empty separator or a limit below one byte. */
  method NewFramer(separator: Bytes, maxFrame: int) returns (framer: Framer?)
    ensures framer != null <==> separator != [] && maxFrame >= 1
    ensures framer != null ==>
              fresh(framer) && framer.Valid() && framer.Now() == INITIAL && framer.Cfg() == Config(separator, maxFrame)
  {
    if |separator| == 0 || maxFrame < 1 {
      return null;
    }
    framer := new Framer(separator, maxFrame);
  }
}
