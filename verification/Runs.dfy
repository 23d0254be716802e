/** What it is for a machine that goes from state to state by steps, chosen
    freely, to come to a state, and how to prove what all such states keep. */
module Runs {

  ghost predicate Follows<S(!new), A(!new)>(next: (S, A) -> S, states: seq<S>, i: nat)
    requires i + 1 < |states|
  {
    exists action :: states[i + 1] == next(states[i], action)
  }

  ghost predicate IsRun<S(!new), A(!new)>(initial: S, next: (S, A) -> S, states: seq<S>) {
    && states != [] && states[0] == initial
    && forall i: nat :: i + 1 < |states| ==> Follows(next, states, i)
  }

  ghost predicate Reachable<S(!new), A(!new)>(initial: S, next: (S, A) -> S, s: S) {
    exists states :: IsRun(initial, next, states) && states[|states| - 1] == s
  }

  lemma InitialIsReachable<S(!new), A(!new)>(initial: S, next: (S, A) -> S)
    ensures Reachable(initial, next, initial)
  {
    var states := [initial];
    assert IsRun(initial, next, states) && states[|states| - 1] == initial;
  }

  lemma NextIsReachable<S(!new), A(!new)>(initial: S, next: (S, A) -> S, s: S, action: A)
    requires Reachable(initial, next, s)
    ensures Reachable(initial, next, next(s, action))
  {
    var states :| IsRun(initial, next, states) && states[|states| - 1] == s;
    var more := states + [next(s, action)];
    forall i: nat | i + 1 < |more|
      ensures Follows(next, more, i)
    {
      if i + 1 < |states| {
        assert Follows(next, states, i) && more[i] == states[i] && more[i + 1] == states[i + 1];
      } else {
        assert more[i + 1] == next(more[i], action);
      }
    }
    assert more[|more| - 1] == next(s, action);
  }

  /** What can be reached after a step can be reached before it. */
  lemma ReachableFromNext<S(!new), A(!new)>(next: (S, A) -> S, s: S, action: A, end: S)
    requires Reachable(next(s, action), next, end)
    ensures Reachable(s, next, end)
  {
    var states :| IsRun(next(s, action), next, states) && states[|states| - 1] == end;
    var more := [s] + states;
    forall i: nat | i + 1 < |more|
      ensures Follows(next, more, i)
    {
      if i == 0 {
        assert more[0] == s && more[1] == states[0] == next(more[0], action);
      } else {
        assert Follows(next, states, i - 1);
        assert more[i] == states[i - 1] && more[i + 1] == states[i];
      }
    }
    assert IsRun(s, next, more) && more[|more| - 1] == end;
  }

  ghost predicate Kept<S(!new), A(!new)>(next: (S, A) -> S, inv: S -> bool) {
    forall s, action :: inv(s) ==> inv(next(s, action))
  }

  lemma {:induction false} InvariantAtEnd<S(!new), A(!new)>(
      initial: S, next: (S, A) -> S, inv: S -> bool, states: seq<S>)
    requires inv(initial) && Kept(next, inv) && IsRun(initial, next, states)
    ensures inv(states[|states| - 1])
  {
    if |states| > 1 {
      var earlier := states[..|states| - 1];
      forall i: nat | i + 1 < |earlier|
        ensures Follows(next, earlier, i)
      {
        assert Follows(next, states, i);
      }
      InvariantAtEnd(initial, next, inv, earlier);
      assert Follows(next, states, |states| - 2);
    }
  }

  /** What holds initially and is kept by every step holds in every state a
      run comes to. */
  lemma InvariantHolds<S(!new), A(!new)>(initial: S, next: (S, A) -> S, inv: S -> bool, s: S)
    requires inv(initial) && Kept(next, inv) && Reachable(initial, next, s)
    ensures inv(s)
  {
    var states :| IsRun(initial, next, states) && states[|states| - 1] == s;
    InvariantAtEnd(initial, next, inv, states);
  }
}
