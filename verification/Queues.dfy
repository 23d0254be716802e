/** The queues between goroutines: one consumer, any number of pushers, a
    one-token wake-up channel, and for the status topic a bound on events that
    never drops a tx result. */
module Queues {

  /** What is pushed for the status topic; serial is its place in the order of
      all pushes. */
  datatype Item = Event(serial: nat) | TxResult(serial: nat)

  // Evicting, on values.

  function CountEvents(held: seq<Item>): nat {
    if held == [] then 0 else CountEvents(held[..|held| - 1]) + (if held[|held| - 1].Event? then 1 else 0)
  }

  /** The index of the oldest event, or -1. */
  function OldestEvent(held: seq<Item>): (at: int)
    ensures at == -1 || (0 <= at < |held| && held[at].Event?)
  {
    if held == [] then -1
    else
      var earlier := OldestEvent(held[..|held| - 1]);
      if earlier >= 0 then earlier else if held[|held| - 1].Event? then |held| - 1 else -1
  }

  /** The index a push of item evicts from held, or -1. */
  function Evicts(limit: int, held: seq<Item>, item: Item): (at: int)
    ensures at == -1 || (0 <= at < |held| && held[at].Event?)
  {
    if item.TxResult? || CountEvents(held) < limit then -1 else OldestEvent(held)
  }

  function Without<T>(items: seq<T>, at: int): seq<T>
    requires at == -1 || 0 <= at < |items|
  {
    if at == -1 then items else items[..at] + items[at + 1..]
  }

  function Pushed(limit: int, held: seq<Item>, item: Item): seq<Item> {
    Without(held, Evicts(limit, held, item)) + [item]
  }

  // The classes.

  class WaitingQueue<T> {
    var items: seq<T>
    var closed: bool
    /** Whether the channel of capacity one holds its token. */
    var ready: bool

    constructor ()
      ensures items == [] && !closed && !ready
    {
      items, closed, ready := [], false, false;
    }

    method Push(item: T)
      modifies this
      ensures items == old(items) + [item] && closed == old(closed) && ready
    {
      var none := PushEvicting(item, -1);
    }

    /** Adds item at the end, after removing the one at index, unless that is
        -1. */
    method PushEvicting(item: T, index: int) returns (evicted: seq<T>)
      requires index == -1 || 0 <= index < |items|
      modifies this
      ensures items == Without(old(items), index) + [item] && closed == old(closed) && ready
      ensures evicted == if index == -1 then [] else [old(items)[index]]
    {
      evicted := [];
      if index >= 0 {
        evicted := [items[index]];
        items := items[..index] + items[index + 1..];
      }
      items := items + [item];
      Signal();
    }

    method Close()
      modifies this
      ensures items == old(items) && closed && ready
    {
      closed := true;
      Signal();
    }

    /** The first of the items leaves; of an empty queue, nothing does. */
    method Pop() returns (taken: seq<T>)
      modifies this
      ensures taken + items == old(items) && closed == old(closed) && ready == old(ready)
      ensures |taken| == if old(items) == [] then 0 else 1
    {
      if |items| == 0 {
        return [];
      }
      taken := [items[0]];
      items := items[1..];
    }

    /** A token already there is enough. */
    method Signal()
      modifies this`ready
      ensures ready
    {
      if !ready {
        ready := true;
      }
    }
  }

  class StatusQueue {
    const queue: WaitingQueue<Item>
    const eventLimit: int

    constructor (eventLimit: int)
      ensures fresh(queue) && queue.items == [] && !queue.closed && this.eventLimit == eventLimit
    {
      queue := new WaitingQueue();
      this.eventLimit := eventLimit;
    }

    method Push(item: Item) returns (dropped: seq<Item>)
      modifies queue
      ensures queue.items == Pushed(eventLimit, old(queue.items), item) && queue.closed == old(queue.closed)
      ensures var at := Evicts(eventLimit, old(queue.items), item);
              dropped == if at == -1 then [] else [old(queue.items)[at]]
    {
      if item.TxResult? {
        queue.Push(item);
        return [];
      }
      var index := Oldest();
      dropped := queue.PushEvicting(item, index);
    }

    /** The event to evict: the oldest one, once there are eventLimit. */
    method Oldest() returns (index: int)
      ensures index == if CountEvents(queue.items) < eventLimit then -1 else OldestEvent(queue.items)
    {
      var events, oldest := 0, -1;
      var at := 0;
      while at < |queue.items|
        invariant 0 <= at <= |queue.items|
        invariant events == CountEvents(queue.items[..at]) && oldest == OldestEvent(queue.items[..at])
      {
        assert queue.items[..at + 1][..at] == queue.items[..at];
        if queue.items[at].Event? {
          events := events + 1;
          if oldest < 0 {
            oldest := at;
          }
        }
        at := at + 1;
      }
      assert queue.items[..at] == queue.items;
      if events < eventLimit {
        return -1;
      }
      return oldest;
    }
  }

  // The status queue against two cursors over the history of pushes.

  datatype Op = PushEvent | PushResult | PopOldest

  /** pushed counts all pushes; popped and evicted are what left, each in the
      order it left, and gone the events among them. */
  datatype History = History(pushed: nat, held: seq<Item>, popped: seq<Item>, evicted: seq<Item>, gone: seq<Item>)

  function PushItem(limit: int, history: History, item: Item): History {
    var at := Evicts(limit, history.held, item);
    history.(pushed := history.pushed + 1,
             held := Pushed(limit, history.held, item),
             evicted := history.evicted + (if at == -1 then [] else [history.held[at]]),
             gone := history.gone + (if at == -1 then [] else [history.held[at]]))
  }

  function After(limit: int, history: History, op: Op): History {
    match op
    case PushEvent => PushItem(limit, history, Event(history.pushed))
    case PushResult => PushItem(limit, history, TxResult(history.pushed))
    case PopOldest =>
      if history.held == [] then history
      else
        var first := history.held[0];
        history.(held := history.held[1..], popped := history.popped + [first],
                 gone := history.gone + (if first.Event? then [first] else []))
  }

  function RunOps(limit: int, ops: seq<Op>): History {
    if ops == [] then History(0, [], [], [], []) else After(limit, RunOps(limit, ops[..|ops| - 1]), ops[|ops| - 1])
  }

  /** Everything pushed, in order. */
  function PushedItems(ops: seq<Op>): seq<Item> {
    if ops == [] then []
    else
      var earlier := PushedItems(ops[..|ops| - 1]);
      match ops[|ops| - 1]
      case PushEvent => earlier + [Event(|earlier|)]
      case PushResult => earlier + [TxResult(|earlier|)]
      case PopOldest => earlier
  }

  function Events(items: seq<Item>): seq<Item> {
    if items == [] then []
    else Events(items[..|items| - 1]) + (if items[|items| - 1].Event? then [items[|items| - 1]] else [])
  }

  function Results(items: seq<Item>): seq<Item> {
    if items == [] then []
    else Results(items[..|items| - 1]) + (if items[|items| - 1].TxResult? then [items[|items| - 1]] else [])
  }

  lemma {:induction false} SplitConcat(a: seq<Item>, b: seq<Item>)
    ensures Events(a + b) == Events(a) + Events(b)
    ensures Results(a + b) == Results(a) + Results(b)
    ensures CountEvents(a + b) == CountEvents(a) + CountEvents(b)
  {
    if b == [] {
      assert a + b == a;
    } else {
      assert (a + b)[..|a + b| - 1] == a + b[..|b| - 1];
      SplitConcat(a, b[..|b| - 1]);
    }
  }

  lemma OneItem(item: Item)
    ensures Events([item]) == if item.Event? then [item] else []
    ensures Results([item]) == if item.TxResult? then [item] else []
    ensures CountEvents([item]) == if item.Event? then 1 else 0
  {
    assert [item][..0] == [];
  }

  lemma {:induction false} EventsAreCounted(items: seq<Item>)
    ensures |Events(items)| == CountEvents(items)
  {
    if items != [] {
      EventsAreCounted(items[..|items| - 1]);
    }
  }

  lemma {:induction false} OldestIsFirst(held: seq<Item>)
    ensures OldestEvent(held) == -1 ==> Events(held) == []
    ensures OldestEvent(held) != -1 ==> Events(held[..OldestEvent(held)]) == []
  {
    if held != [] {
      var earlier := held[..|held| - 1];
      OldestIsFirst(earlier);
      var at := OldestEvent(earlier);
      if at != -1 {
        assert held[..at] == earlier[..at];
      } else if held[|held| - 1].Event? {
        assert held[..|held| - 1] == earlier;
      }
    }
  }

  /** Evicting takes the first of the events, and no result. */
  lemma EvictingTakesFirstEvent(held: seq<Item>)
    requires OldestEvent(held) != -1
    ensures var at := OldestEvent(held);
            && Events(held) == [held[at]] + Events(Without(held, at))
            && Results(held) == Results(Without(held, at))
            && CountEvents(held) == 1 + CountEvents(Without(held, at))
  {
    hide Events, Results, CountEvents, OldestEvent;
    var at := OldestEvent(held);
    var front, back := held[..at], held[at + 1..];
    OldestIsFirst(held);
    assert held == front + ([held[at]] + back);
    SplitConcat(front, [held[at]] + back);
    SplitConcat([held[at]], back);
    SplitConcat(front, back);
    OneItem(held[at]);
  }

  /** The two cursors: of the events pushed, some first ones are gone, popped
      or evicted, and the rest are held, at most limit of them; of the results,
      the first ones are popped, the rest held, and none was evicted. */
  ghost predicate TwoCursors(limit: int, history: History, pushed: seq<Item>) {
    && history.pushed == |pushed|
    && Events(pushed) == history.gone + Events(history.held)
    && multiset(history.gone) == multiset(Events(history.popped)) + multiset(history.evicted)
    && Results(pushed) == Results(history.popped) + Results(history.held)
    && (forall i :: 0 <= i < |history.evicted| ==> history.evicted[i].Event?)
    && CountEvents(history.held) <= (if limit < 1 then 1 else limit)
    && |pushed| == |history.popped| + |history.evicted| + |history.held|
  }

  lemma OneMoreOp(limit: int, ops: seq<Op>, op: Op)
    ensures RunOps(limit, ops + [op]) == After(limit, RunOps(limit, ops), op)
  {
    assert (ops + [op])[..|ops|] == ops;
  }

  /** As long as there is room for an event, and always for a result, a push
      only adds the item. */
  lemma RoomKeepsAll(limit: int, ops: seq<Op>)
    ensures var before, after := RunOps(limit, ops), RunOps(limit, ops + [PushEvent]);
            CountEvents(before.held) < limit ==>
              after.held == before.held + [Event(before.pushed)] && after.evicted == before.evicted
    ensures var before, after := RunOps(limit, ops), RunOps(limit, ops + [PushResult]);
            after.held == before.held + [TxResult(before.pushed)] && after.evicted == before.evicted
    ensures RunOps(limit, ops + [PopOldest]).evicted == RunOps(limit, ops).evicted
  {
    hide RunOps, CountEvents, OldestEvent;
    OneMoreOp(limit, ops, PushEvent);
    OneMoreOp(limit, ops, PushResult);
    OneMoreOp(limit, ops, PopOldest);
  }

  /** Without room, an event takes the place of the oldest one, and everything
      else stays. */
  lemma FullEvictsTheOldest(limit: int, ops: seq<Op>)
    requires var held := RunOps(limit, ops).held; CountEvents(held) >= limit && CountEvents(held) > 0
    ensures var before, after := RunOps(limit, ops), RunOps(limit, ops + [PushEvent]);
            exists at :: 0 <= at < |before.held| && before.held[at].Event? && Events(before.held[..at]) == []
                      && after.held == before.held[..at] + before.held[at + 1..] + [Event(before.pushed)]
                      && after.evicted == before.evicted + [before.held[at]]
  {
    hide RunOps, CountEvents, OldestEvent;
    OneMoreOp(limit, ops, PushEvent);
    var held := RunOps(limit, ops).held;
    OldestIsFirst(held);
    EventsAreCounted(held);
    assert OldestEvent(held) != -1;
  }

  /** A run that pushes events only while there is room evicts nothing. */
  lemma {:induction false} NothingEvictedWithRoom(limit: int, ops: seq<Op>)
    requires forall n :: 0 <= n < |ops| && ops[n].PushEvent? ==> CountEvents(RunOps(limit, ops[..n]).held) < limit
    ensures RunOps(limit, ops).evicted == []
  {
    if ops != [] {
      hide CountEvents;
      var earlier, last := ops[..|ops| - 1], ops[|ops| - 1];
      forall n | 0 <= n < |earlier| && earlier[n].PushEvent?
        ensures CountEvents(RunOps(limit, earlier[..n]).held) < limit
      {
        assert earlier[..n] == ops[..n];
      }
      NothingEvictedWithRoom(limit, earlier);
      RoomKeepsAll(limit, earlier);
      assert ops == earlier + [last];
    }
  }

  /** The held events stay within the limit in every run if and only if the
      limit allows one. */
  lemma HeldWithinLimitExactlyWhen(limit: int)
    ensures (forall ops :: CountEvents(RunOps(limit, ops).held) <= limit) <==> limit >= 1
  {
    hide RunOps, TwoCursors;
    if limit >= 1 {
      forall ops
        ensures CountEvents(RunOps(limit, ops).held) <= limit
      {
        RunIsTwoCursors(limit, ops);
        CursorsBoundEvents(limit, RunOps(limit, ops), PushedItems(ops));
      }
    } else {
      FirstEventIsHeld(limit);
    }
  }

  lemma CursorsBoundEvents(limit: int, history: History, pushed: seq<Item>)
    requires TwoCursors(limit, history, pushed)
    ensures CountEvents(history.held) <= (if limit < 1 then 1 else limit)
  {
  }

  /** An event pushed to an empty queue is held, whatever the limit. */
  lemma FirstEventIsHeld(limit: int)
    ensures CountEvents(RunOps(limit, [PushEvent]).held) == 1
  {
    assert [PushEvent][..0] == [];
    assert Pushed(limit, [], Event(0)) == [Event(0)];
    OneItem(Event(0));
  }

  lemma TwoCursorsAfterKeeping(limit: int, history: History, pushed: seq<Item>, item: Item)
    requires TwoCursors(limit, history, pushed) && Evicts(limit, history.held, item) == -1
    ensures TwoCursors(limit, PushItem(limit, history, item), pushed + [item])
  {
    hide Events, Results, CountEvents, OldestEvent;
    var held := history.held;
    SplitConcat(pushed, [item]);
    SplitConcat(held, [item]);
    OneItem(item);
    if item.Event? && CountEvents(held) >= limit {
      OldestIsFirst(held);
      EventsAreCounted(held);
    }
    assert history.gone + Events(held) + Events([item]) == history.gone + (Events(held) + Events([item]));
    assert Results(history.popped) + Results(held) + Results([item])
        == Results(history.popped) + (Results(held) + Results([item]));
    assert history.gone + [] == history.gone && history.evicted + [] == history.evicted;
  }

  lemma TwoCursorsAfterEvicting(limit: int, history: History, pushed: seq<Item>, item: Item)
    requires TwoCursors(limit, history, pushed) && Evicts(limit, history.held, item) != -1
    ensures TwoCursors(limit, PushItem(limit, history, item), pushed + [item])
  {
    hide Events, Results, CountEvents, OldestEvent;
    var held, at := history.held, Evicts(limit, history.held, item);
    var left, dropped := Without(held, at), held[at];
    SplitConcat(pushed, [item]);
    SplitConcat(left, [item]);
    OneItem(item);
    EvictingTakesFirstEvent(held);
    assert history.gone + ([dropped] + Events(left)) + [item] == history.gone + [dropped] + (Events(left) + [item]);
    assert Results(history.popped) + Results(held) + [] == Results(history.popped) + (Results(left) + []);
  }

  lemma TwoCursorsAfterPush(limit: int, history: History, pushed: seq<Item>, item: Item)
    requires TwoCursors(limit, history, pushed)
    ensures TwoCursors(limit, PushItem(limit, history, item), pushed + [item])
  {
    if Evicts(limit, history.held, item) == -1 {
      TwoCursorsAfterKeeping(limit, history, pushed, item);
    } else {
      TwoCursorsAfterEvicting(limit, history, pushed, item);
    }
  }

  lemma TwoCursorsAfterPop(limit: int, history: History, pushed: seq<Item>)
    requires TwoCursors(limit, history, pushed) && history.held != []
    ensures TwoCursors(limit, After(limit, history, PopOldest), pushed)
  {
    hide Events, Results, CountEvents, OldestEvent, PushItem;
    var first, rest := history.held[0], history.held[1..];
    assert history.held == [first] + rest;
    SplitConcat([first], rest);
    SplitConcat(history.popped, [first]);
    OneItem(first);
    assert history.gone + (Events([first]) + Events(rest)) == history.gone + Events([first]) + Events(rest);
    assert Results(history.popped) + (Results([first]) + Results(rest))
        == Results(history.popped) + Results([first]) + Results(rest);
  }

  lemma {:induction false} RunIsTwoCursors(limit: int, ops: seq<Op>)
    ensures TwoCursors(limit, RunOps(limit, ops), PushedItems(ops))
  {
    if ops != [] {
      hide TwoCursors, PushItem;
      var earlier := ops[..|ops| - 1];
      RunIsTwoCursors(limit, earlier);
      var history, pushed := RunOps(limit, earlier), PushedItems(earlier);
      assert history.pushed == |pushed| by { CursorsCountPushes(limit, history, pushed); }
      match ops[|ops| - 1]
      case PushEvent => TwoCursorsAfterPush(limit, history, pushed, Event(|pushed|));
      case PushResult => TwoCursorsAfterPush(limit, history, pushed, TxResult(|pushed|));
      case PopOldest => if history.held != [] { TwoCursorsAfterPop(limit, history, pushed); }
    }
  }

  lemma CursorsCountPushes(limit: int, history: History, pushed: seq<Item>)
    requires TwoCursors(limit, history, pushed)
    ensures history.pushed == |pushed|
  {
  }

  /** Items are in the order of their pushes. */
  ghost predicate InOrder(items: seq<Item>) {
    forall i, j :: 0 <= i < j < |items| ==> items[i].serial < items[j].serial
  }

  ghost predicate AllBelow(items: seq<Item>, bound: nat) {
    forall i :: 0 <= i < |items| ==> items[i].serial < bound
  }

  ghost predicate Ordered(history: History) {
    InOrder(history.popped + history.held) && AllBelow(history.popped + history.held, history.pushed)
  }

  lemma WithoutIsInOrder(items: seq<Item>, at: int)
    requires at == -1 || 0 <= at < |items|
    requires InOrder(items)
    ensures InOrder(Without(items, at))
    ensures forall i :: 0 <= i < |Without(items, at)| ==> Without(items, at)[i] in items
  {
    var less := Without(items, at);
    hide Without;
    forall i | 0 <= i < |less|
      ensures less[i] == items[if at == -1 || i < at then i else i + 1]
    {
      WithoutAt(items, at, i);
    }
  }

  lemma OrderOneMore(items: seq<Item>, item: Item)
    requires InOrder(items) && AllBelow(items, item.serial)
    ensures InOrder(items + [item]) && AllBelow(items + [item], item.serial + 1)
  {
  }

  lemma WithoutKeepsOrder(items: seq<Item>, at: int, item: Item)
    requires at == -1 || 0 <= at < |items|
    requires InOrder(items) && AllBelow(items, item.serial)
    ensures InOrder(Without(items, at) + [item]) && AllBelow(Without(items, at) + [item], item.serial + 1)
  {
    hide Without, InOrder;
    WithoutIsInOrder(items, at);
    OrderOneMore(Without(items, at), item);
  }

  lemma WithoutAt<T>(items: seq<T>, at: int, i: nat)
    requires at == -1 || 0 <= at < |items|
    requires i < |Without(items, at)|
    ensures |Without(items, at)| == if at == -1 then |items| else |items| - 1
    ensures Without(items, at)[i] == items[if at == -1 || i < at then i else i + 1]
  {
  }

  lemma OrderedAfterPush(limit: int, history: History, item: Item)
    requires Ordered(history) && item.serial == history.pushed
    ensures Ordered(PushItem(limit, history, item))
  {
    hide InOrder, AllBelow, Evicts;
    var at := Evicts(limit, history.held, item);
    var all, from := history.popped + history.held, if at == -1 then -1 else |history.popped| + at;
    WithoutKeepsOrder(all, from, item);
    assert history.popped + (Without(history.held, at) + [item]) == Without(all, from) + [item];
  }

  /** What was popped and then what is held is in the order of the pushes. */
  lemma {:induction false} PoppedInPushOrder(limit: int, ops: seq<Op>)
    ensures Ordered(RunOps(limit, ops))
  {
    if ops != [] {
      hide InOrder, AllBelow, PushItem;
      var history := RunOps(limit, ops[..|ops| - 1]);
      PoppedInPushOrder(limit, ops[..|ops| - 1]);
      match ops[|ops| - 1]
      case PushEvent => OrderedAfterPush(limit, history, Event(history.pushed));
      case PushResult => OrderedAfterPush(limit, history, TxResult(history.pushed));
      case PopOldest =>
        if history.held != [] {
          assert history.popped + [history.held[0]] + history.held[1..] == history.popped + history.held;
        }
    }
    else {
      assert RunOps(limit, ops).popped + RunOps(limit, ops).held == [];
    }
  }
}
