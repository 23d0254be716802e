/** The waits between retries, in the 64-bit arithmetic of the program. */
module Backoff {

  const INT64_MAX: int := 0x7fff_ffff_ffff_ffff
  const TWO_TO_62: int := 0x4000_0000_0000_0000

  /** Durations are int64 nanoseconds. */
  datatype Policy = Policy(interval: int, grow: bool, max: int, jitter: real) {
    predicate InRange() { -INT64_MAX - 1 <= interval <= INT64_MAX && -INT64_MAX - 1 <= max <= INT64_MAX }

    /** Validate: max and jitter matter only when the wait grows. */
    predicate Usable() {
      && interval > 0
      && (grow ==> max >= interval && 0.0 <= jitter <= 1.0)
    }
  }

  /** Two's-complement wrap-around to 64 bits. */
  function Wrap(value: int): (wrapped: int)
    ensures -INT64_MAX - 1 <= wrapped <= INT64_MAX
    ensures -INT64_MAX - 1 <= value <= INT64_MAX ==> wrapped == value
  {
    (value + INT64_MAX + 1) % (2 * (INT64_MAX + 1)) - INT64_MAX - 1
  }

  /** Interval doubled times times, without a bound. */
  function Doubled(interval: int, times: nat): int {
    if times == 0 then interval else 2 * Doubled(interval, times - 1)
  }

  function Min(a: int, b: int): int { if a <= b then a else b }

  lemma {:induction false} DoubledGrows(interval: int, a: nat, b: nat)
    requires interval >= 0 && a <= b
    ensures Doubled(interval, a) <= Doubled(interval, b) && Doubled(interval, a) >= 0
    decreases b
  {
    if a < b {
      DoubledGrows(interval, a, b - 1);
    } else if a > 0 {
      DoubledGrows(interval, a - 1, b - 1);
    }
  }

  /** Doubling from interval never takes a value below max past 64 bits. */
  ghost predicate FitsIn64(policy: Policy) {
    forall k: nat :: Doubled(policy.interval, k) < policy.max ==> Doubled(policy.interval, k + 1) <= INT64_MAX
  }

  /** The doubling of a wait that is still below max, for so many turns, in 64
      bits. */
  function LoopWait(policy: Policy, wait: int, turns: nat): int
    decreases turns
  {
    if turns == 0 || wait >= policy.max then wait else LoopWait(policy, Wrap(wait * 2), turns - 1)
  }

  /** The wait before jitter. */
  function WaitFor(policy: Policy, retry: int): int {
    if !policy.grow then policy.interval
    else Min(LoopWait(policy, policy.interval, if retry >= 1 then retry - 1 else 0), policy.max)
  }

  method Unjittered(policy: Policy, retry: int) returns (wait: int)
    requires policy.InRange() && policy.Usable()
    ensures wait == WaitFor(policy, retry)
    ensures !policy.grow ==> wait == policy.interval
    ensures policy.grow && retry >= 1 && FitsIn64(policy) ==> wait == Ideal(policy, retry)
    ensures policy.grow && retry < 1 ==> wait == policy.interval
  {
    if !policy.grow {
      return policy.interval;
    }
    wait := policy.interval;
    var doubled := 1;
    while doubled < retry && wait < policy.max
      invariant 1 <= doubled && (retry >= 1 ==> doubled <= retry)
      invariant LoopWait(policy, policy.interval, if retry >= 1 then retry - 1 else 0)
             == LoopWait(policy, wait, if retry >= 1 then retry - doubled else 0)
      decreases retry - doubled
    {
      wait := Wrap(wait * 2);
      doubled := doubled + 1;
    }
    wait := Min(wait, policy.max);
    if retry >= 1 && FitsIn64(policy) {
      LoopDoubles(policy, 0, retry - 1);
    }
  }

  /** Where no doubling wraps, the loop doubles, up to the first value that
      reaches max. */
  lemma {:induction false} LoopDoubles(policy: Policy, done: nat, turns: nat)
    requires policy.Usable() && policy.InRange() && FitsIn64(policy)
    ensures Min(LoopWait(policy, Doubled(policy.interval, done), turns), policy.max)
         == Min(Doubled(policy.interval, done + turns), policy.max)
    decreases turns
  {
    var wait := Doubled(policy.interval, done);
    if wait >= policy.max {
      DoubledGrows(policy.interval, done, done + turns);
    } else if turns > 0 {
      DoubledGrows(policy.interval, 0, done + 1);
      assert Doubled(policy.interval, done + 1) == wait * 2 <= INT64_MAX;
      LoopDoubles(policy, done + 1, turns - 1);
    }
  }

  /** The turns before the first doubling that reaches max double, as far as 64
      bits go; the one that leaves them makes the wait negative. */
  lemma {:induction false} LoopWraps(policy: Policy, done: nat, first: nat)
    requires policy.Usable() && policy.InRange() && done < first
    requires Doubled(policy.interval, first - 1) < policy.max && Doubled(policy.interval, first) > INT64_MAX
    ensures LoopWait(policy, Doubled(policy.interval, done), first - done) < 0
    decreases first - done
  {
    DoubledGrows(policy.interval, 0, done);
    DoubledGrows(policy.interval, done, first - 1);
    var wait := Doubled(policy.interval, done);
    assert Doubled(policy.interval, done + 1) == wait * 2;
    if done + 1 < first {
      DoubledGrows(policy.interval, done + 1, first - 1);
      LoopWraps(policy, done + 1, first);
    } else {
      assert Wrap(wait * 2) < 0;
    }
  }

  /** A max of up to 2^62 ns, about 146 years, is enough to rule out any
      wrap. */
  lemma ModerateMaxFits(policy: Policy)
    requires policy.max <= TWO_TO_62
    ensures FitsIn64(policy)
  {
  }

  /** Every interval reaches max after some doublings. */
  lemma {:induction false} ReachesMax(policy: Policy, from: nat) returns (first: nat)
    requires policy.grow && policy.Usable()
    requires from > 0 ==> Doubled(policy.interval, from - 1) < policy.max
    ensures Doubled(policy.interval, first) >= policy.max
    ensures first > 0 ==> Doubled(policy.interval, first - 1) < policy.max
    decreases policy.max - Doubled(policy.interval, from)
  {
    DoubledGrows(policy.interval, 0, from);
    if Doubled(policy.interval, from) >= policy.max {
      first := from;
    } else {
      first := ReachesMax(policy, from + 1);
    }
  }

  /** No doubling below max leaves 64 bits exactly if the first one that
      reaches max does not. */
  lemma FitsExactlyWhen(policy: Policy, first: nat)
    requires policy.grow && policy.Usable() && policy.InRange()
    requires Doubled(policy.interval, first) >= policy.max
    requires first > 0 ==> Doubled(policy.interval, first - 1) < policy.max
    ensures FitsIn64(policy) <==> Doubled(policy.interval, first) <= INT64_MAX
  {
    if Doubled(policy.interval, first) <= INT64_MAX {
      forall k: nat | Doubled(policy.interval, k) < policy.max
        ensures Doubled(policy.interval, k + 1) <= INT64_MAX
      {
        if k >= first {
          DoubledGrows(policy.interval, first, k);
        } else {
          DoubledGrows(policy.interval, k + 1, first);
        }
      }
    } else {
      assert first > 0;
      assert Doubled(policy.interval, first - 1 + 1) > INT64_MAX;
    }
  }

  /** The ideal wait: the doubled interval, at most max. */
  function Ideal(policy: Policy, retry: nat): int
    requires retry >= 1
  {
    Min(Doubled(policy.interval, retry - 1), policy.max)
  }

  /** Which policies wait as they should: the wait is the ideal one at every
      retry if and only if the first doubling to reach max stays within 64
      bits. If it does not, the retry after it waits a negative time. */
  lemma WaitsIdeallyExactlyWhen(policy: Policy, first: nat)
    requires policy.grow && policy.Usable() && policy.InRange()
    requires Doubled(policy.interval, first) >= policy.max
    requires first > 0 ==> Doubled(policy.interval, first - 1) < policy.max
    ensures (forall retry: nat :: retry >= 1 ==> WaitFor(policy, retry) == Ideal(policy, retry))
       <==> Doubled(policy.interval, first) <= INT64_MAX
    ensures Doubled(policy.interval, first) > INT64_MAX ==> WaitFor(policy, first + 1) < 0
  {
    FitsExactlyWhen(policy, first);
    if Doubled(policy.interval, first) <= INT64_MAX {
      forall retry: nat | retry >= 1
        ensures WaitFor(policy, retry) == Ideal(policy, retry)
      {
        LoopDoubles(policy, 0, retry - 1);
      }
    } else {
      LoopWraps(policy, 0, first);
      DoubledGrows(policy.interval, 0, first);
      assert WaitFor(policy, first + 1) < 0 <= Ideal(policy, first + 1);
    }
  }

  /** An interval just past 2^62 ns with the longest max is a policy that
      validates, and whose second wait is negative. */
  lemma LongMaxWraps()
    ensures var policy := Policy(TWO_TO_62 + 1, true, INT64_MAX, 0.0);
            policy.Usable() && policy.InRange() && WaitFor(policy, 2) < 0
  {
    var policy := Policy(TWO_TO_62 + 1, true, INT64_MAX, 0.0);
    assert Doubled(policy.interval, 0) < policy.max;
    assert Doubled(policy.interval, 0 + 1) == 2 * Doubled(policy.interval, 0);
    WaitsIdeallyExactlyWhen(policy, 1);
  }

  /** Waits never shrink as retries go on, and stay within the interval and
      max. */
  lemma IdealGrows(policy: Policy, retry: nat, later: nat)
    requires policy.grow && policy.Usable() && 1 <= retry <= later
    ensures policy.interval <= Ideal(policy, retry) <= Ideal(policy, later) <= policy.max
  {
    DoubledGrows(policy.interval, 0, retry - 1);
    DoubledGrows(policy.interval, retry - 1, later - 1);
  }

  /** The jitter, over the reals; chance is the random fraction drawn. */
  function Jittered(policy: Policy, wait: int, chance: real): real {
    if policy.jitter <= 0.0 then wait as real
    else
      var spread := wait as real * policy.jitter;
      wait as real - spread + chance * 2.0 * spread
  }

  /** The jittered wait is within the fraction of the wait either way. */
  ghost predicate Within(policy: Policy, wait: int, jittered: real) {
    wait as real * (1.0 - policy.jitter) <= jittered <= wait as real * (1.0 + policy.jitter)
  }

  /** A jittered wait lies within the fraction either way, and is not
      negative. */
  lemma JitterEnvelope(policy: Policy, wait: int, chance: real)
    requires policy.grow && policy.Usable() && wait >= 0 && 0.0 <= chance < 1.0
    ensures Within(policy, wait, Jittered(policy, wait, chance))
    ensures 0.0 <= Jittered(policy, wait, chance)
  {
    var base := wait as real;
    var spread := base * policy.jitter;
    assert 0.0 <= spread by { ProductNotNegative(base, policy.jitter); }
    assert 0.0 <= chance * (2.0 * spread) by { ProductNotNegative(chance, 2.0 * spread); }
    assert 0.0 <= (1.0 - chance) * (2.0 * spread) by { ProductNotNegative(1.0 - chance, 2.0 * spread); }
    assert base * (1.0 - policy.jitter) == base - spread;
    assert base * (1.0 + policy.jitter) == base + spread;
    assert chance * 2.0 * spread == chance * (2.0 * spread);
    assert 0.0 <= base * (1.0 - policy.jitter) by { ProductNotNegative(base, 1.0 - policy.jitter); }
  }

  /** The draw spreads the wait evenly from one edge to the other. */
  lemma JitterSpreads(policy: Policy, wait: int, chance: real, more: real)
    requires policy.grow && policy.Usable() && wait >= 0
    ensures Jittered(policy, wait, 0.0) == wait as real * (1.0 - policy.jitter)
    ensures Jittered(policy, wait, 1.0) == wait as real * (1.0 + policy.jitter)
    ensures Jittered(policy, wait, 0.5) == wait as real
    ensures Jittered(policy, wait, chance + more) - Jittered(policy, wait, chance)
         == more * (Jittered(policy, wait, 1.0) - Jittered(policy, wait, 0.0))
  {
    var spread := wait as real * policy.jitter;
    assert wait as real * (1.0 - policy.jitter) == wait as real - spread;
    assert wait as real * (1.0 + policy.jitter) == wait as real + spread;
    assert (chance + more) * 2.0 * spread == chance * 2.0 * spread + more * (2.0 * spread);
  }

  lemma ProductNotNegative(a: real, b: real)
    requires 0.0 <= a && 0.0 <= b
    ensures 0.0 <= a * b
  {
  }

  /** The wait before a retry, with chance drawn at random. */
  method Wait(policy: Policy, retry: int, chance: real) returns (wait: real)
    requires policy.InRange() && policy.Usable() && 0.0 <= chance < 1.0
    ensures !policy.grow ==> wait == policy.interval as real
    ensures policy.grow ==> wait == Jittered(policy, WaitFor(policy, retry), chance)
    ensures policy.grow && retry >= 1 && FitsIn64(policy) ==> Within(policy, Ideal(policy, retry), wait)
  {
    hide Within, Jittered;
    var unjittered := Unjittered(policy, retry);
    if !policy.grow {
      return unjittered as real;
    }
    wait := Jittered(policy, unjittered, chance);
    if retry >= 1 && FitsIn64(policy) {
      IdealGrows(policy, retry, retry);
      JitterEnvelope(policy, unjittered, chance);
    }
  }

  /** The delay before a connection attempt, counted from 0: none before the
      agent's very first one, and otherwise the policy's wait for the attempt's
      number, or one more than that after a connection was lost. */
  method ReconnectDelay(policy: Policy, connectedBefore: bool, attempt: int, chance: real) returns (delay: real)
    requires policy.InRange() && policy.Usable() && 0.0 <= chance < 1.0
    ensures !connectedBefore && attempt <= 0 ==> delay == 0.0
    ensures !policy.grow && (connectedBefore || attempt > 0) ==> delay == policy.interval as real
    ensures policy.grow && (connectedBefore || attempt > 0) ==>
              delay == Jittered(policy, WaitFor(policy, if connectedBefore then attempt + 1 else attempt), chance)
    ensures policy.grow && FitsIn64(policy) && attempt >= 0 && (connectedBefore || attempt > 0) ==>
              var ideal := Ideal(policy, if connectedBefore then attempt + 1 else attempt);
              && ideal >= policy.interval
              && Within(policy, ideal, delay)
  {
    hide Within, FitsIn64, Doubled, Ideal, Jittered, WaitFor;
    if policy.grow && attempt >= 0 {
      IdealGrows(policy, attempt + 1, attempt + 1);
      if attempt > 0 {
        IdealGrows(policy, attempt, attempt);
      }
    }
    if connectedBefore {
      delay := Wait(policy, attempt + 1, chance);
    } else if attempt <= 0 {
      delay := 0.0;
    } else {
      delay := Wait(policy, attempt, chance);
    }
  }
}
