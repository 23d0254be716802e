/** The waiting queue under every interleaving of one consumer and any number
    of pushers and closers, at the grain of its mutex and its one-token
    channel: no wake-up is lost, and nothing pushed before the close is. */
module Wakeup {
  import Runs

  /** Where the consumer is in next and wait. It has looked at the queue under
      the lock and then waits for the token, takes, or gives up. */
  datatype Consumer = Outside | Looking | Blocked | Taking | GaveUp

  /** Items are named by the number of their push. taken and evicted are what
      left; closedAt is how many had been pushed at the first close. */
  datatype State = State(
    items: seq<nat>,
    pushed: nat,
    taken: seq<nat>,
    evicted: seq<nat>,
    closed: bool,
    closedAt: nat,
    token: bool,
    consumer: Consumer)

  const INITIAL := State([], 0, [], [], false, 0, false, Outside)

  /** A push may evict the item at an index first. */
  datatype Action = Push(evict: int) | Close | Call | Look | Receive | Take

  function Next(s: State, action: Action): State {
    match action
    case Push(evict) =>
      var evicting := 0 <= evict < |s.items|;
      s.(items := (if evicting then s.items[..evict] + s.items[evict + 1..] else s.items) + [s.pushed],
         evicted := if evicting then s.evicted + [s.items[evict]] else s.evicted,
         pushed := s.pushed + 1,
         token := true)
    case Close => s.(closed := true, closedAt := if s.closed then s.closedAt else s.pushed, token := true)
    case Call => if s.consumer.Outside? || s.consumer.GaveUp? then s.(consumer := Looking) else s
    case Look =>
      if !s.consumer.Looking? then s
      else if s.items != [] then s.(consumer := Taking)
      else if s.closed then s.(consumer := GaveUp)
      else s.(consumer := Blocked)
    case Receive => if s.consumer.Blocked? && s.token then s.(token := false, consumer := Looking) else s
    case Take =>
      if !s.consumer.Taking? then s
      else if s.items == [] then s.(consumer := Looking)
      else s.(items := s.items[1..], taken := s.taken + [s.items[0]], consumer := Outside)
  }

  /** Some run comes to s, whoever's turn it was at each step: every
      interleaving is one. */
  ghost predicate Reachable(s: State) {
    Runs.Reachable(INITIAL, Next, s)
  }

  ghost predicate Increasing(items: seq<nat>) {
    forall i, j :: 0 <= i < j < |items| ==> items[i] < items[j]
  }

  /** Every push is in exactly one place, and places are in push order. */
  ghost predicate Accounted(pushed: nat, items: seq<nat>, taken: seq<nat>, evicted: seq<nat>) {
    && Increasing(taken + items)
    && multiset(taken) + multiset(evicted) + multiset(items) == multiset(seq(pushed, i => i))
  }

  ghost predicate Inv(s: State) {
    && (s.consumer.Blocked? && (s.items != [] || s.closed) ==> s.token)
    && (s.consumer.Taking? ==> s.items != [])
    && (s.closed ==> s.closedAt <= s.pushed)
    && (s.consumer.GaveUp? ==> s.closed && forall i :: 0 <= i < |s.items| ==> s.items[i] >= s.closedAt)
    && Accounted(s.pushed, s.items, s.taken, s.evicted)
  }

  lemma {:induction false} NumbersBelow(pushed: nat, n: nat)
    ensures n in multiset(seq(pushed, i => i)) <==> n < pushed
  {
    var all := seq(pushed, i => i);
    if n < pushed {
      assert all[n] == n;
    }
  }

  lemma AccountedAfterPush(pushed: nat, items: seq<nat>, taken: seq<nat>, evicted: seq<nat>)
    requires Accounted(pushed, items, taken, evicted)
    ensures Accounted(pushed + 1, items + [pushed], taken, evicted)
  {
    assert seq(pushed + 1, i => i) == seq(pushed, i => i) + [pushed];
    forall i | 0 <= i < |taken + items|
      ensures (taken + items)[i] < pushed
    {
      NumbersBelow(pushed, (taken + items)[i]);
      assert (taken + items)[i] in multiset(taken) + multiset(items);
    }
    assert taken + (items + [pushed]) == (taken + items) + [pushed];
  }

  lemma AccountedAfterEvict(pushed: nat, items: seq<nat>, taken: seq<nat>, evicted: seq<nat>, at: nat)
    requires at < |items| && Accounted(pushed, items, taken, evicted)
    ensures Accounted(pushed, items[..at] + items[at + 1..], taken, evicted + [items[at]])
  {
    assert items == items[..at] + ([items[at]] + items[at + 1..]);
    var more, less := taken + items, taken + (items[..at] + items[at + 1..]);
    forall i | 0 <= i < |less|
      ensures less[i] == more[if i < |taken| + at then i else i + 1]
    {
    }
  }

  lemma AccountedAfterTake(pushed: nat, items: seq<nat>, taken: seq<nat>, evicted: seq<nat>)
    requires items != [] && Accounted(pushed, items, taken, evicted)
    ensures Accounted(pushed, items[1..], taken + [items[0]], evicted)
  {
    assert items == [items[0]] + items[1..];
    assert taken + [items[0]] + items[1..] == taken + items;
  }

  lemma InvKept(s: State, action: Action)
    requires Inv(s)
    ensures Inv(Next(s, action))
  {
    hide Accounted;
    match action
    case Push(evict) =>
      if 0 <= evict < |s.items| {
        AccountedAfterEvict(s.pushed, s.items, s.taken, s.evicted, evict);
        AccountedAfterPush(s.pushed, s.items[..evict] + s.items[evict + 1..], s.taken, s.evicted + [s.items[evict]]);
      } else {
        AccountedAfterPush(s.pushed, s.items, s.taken, s.evicted);
      }
    case Take => if s.consumer.Taking? { AccountedAfterTake(s.pushed, s.items, s.taken, s.evicted); }
    case _ =>
  }

  lemma ReachableKeepsInv(s: State)
    requires Reachable(s)
    ensures Inv(s)
  {
    hide Inv, Next;
    forall t, action | Inv(t)
      ensures Inv(Next(t, action))
    {
      InvKept(t, action);
    }
    InvInitially();
    Runs.InvariantHolds(INITIAL, Next, Inv, s);
  }

  lemma InvInitially()
    ensures Inv(INITIAL)
  {
    assert seq<nat>(0, i => i) == [];
  }

  /** Whenever the consumer waits for the token although there is something to
      wake up for, the token is there; and it never finds the queue empty after
      having seen an item. */
  lemma NoLostWakeup(s: State)
    requires Reachable(s)
    ensures s.consumer.Blocked? && (s.items != [] || s.closed) ==> s.token
    ensures s.consumer.Taking? ==> s.items != []
  {
    ReachableKeepsInv(s);
  }

  /** Items are taken in push order, and next gives up only once the queue is
      closed and everything pushed before the close has been taken or evicted. */
  lemma NothingLeftBehind(s: State, n: nat)
    requires Reachable(s)
    ensures Increasing(s.taken + s.items)
    ensures s.consumer.GaveUp? ==> s.closed && (n < s.closedAt ==> n in s.taken || n in s.evicted)
  {
    ReachableKeepsInv(s);
    if s.consumer.GaveUp? && n < s.closedAt {
      NumbersBelow(s.pushed, n);
      assert n in multiset(s.taken) + multiset(s.evicted) + multiset(s.items);
    }
  }

  // The consumer gets on by itself.

  ghost predicate LeadsTo(s: State, end: State) {
    Runs.Reachable(s, Next, end)
  }

  lemma OneStepOn(s: State, at: State, action: Action)
    requires LeadsTo(s, at)
    ensures LeadsTo(s, Next(at, action))
  {
    hide Next;
    Runs.NextIsReachable(s, Next, at, action);
  }

  /** The consumer can look at the queue from wherever it is, unless it waits
      for a wake-up with nothing to wake up for, or has looked already. */
  lemma ConsumerLooks(s: State) returns (looking: State)
    requires Reachable(s) && !s.consumer.Taking? && (s.items != [] || s.closed)
    ensures LeadsTo(s, looking) && looking.consumer.Looking?
    ensures looking.items == s.items && looking.taken == s.taken && looking.closed == s.closed
  {
    assert LeadsTo(s, s) by { Runs.InitialIsReachable(s, Next); }
    hide Reachable, LeadsTo;
    NoLostWakeup(s);
    OneStepOn(s, s, Call);
    OneStepOn(s, s, Receive);
    looking := if s.consumer.Looking? then s else if s.consumer.Blocked? then Next(s, Receive) else Next(s, Call);
  }

  /** Wherever the consumer is, it can take the oldest item, if there is one, by
      its own steps alone. */
  lemma OldestCanBeTaken(s: State) returns (end: State)
    requires Reachable(s) && s.items != []
    ensures LeadsTo(s, end) && end.taken == s.taken + [s.items[0]] && end.items == s.items[1..]
  {
    assert LeadsTo(s, s) by { Runs.InitialIsReachable(s, Next); }
    hide Reachable, LeadsTo;
    if s.consumer.Taking? {
      OneStepOn(s, s, Take);
      end := Next(s, Take);
    } else {
      var looking := ConsumerLooks(s);
      OneStepOn(s, looking, Look);
      OneStepOn(s, Next(looking, Look), Take);
      end := Next(Next(looking, Look), Take);
    }
  }

  /** And once the queue is closed and empty, it can give up. */
  lemma CanGiveUp(s: State) returns (end: State)
    requires Reachable(s) && s.items == [] && s.closed
    ensures LeadsTo(s, end) && end.consumer.GaveUp?
  {
    hide Reachable, LeadsTo;
    NoLostWakeup(s);
    var looking := ConsumerLooks(s);
    OneStepOn(s, looking, Look);
    end := Next(looking, Look);
  }
}
