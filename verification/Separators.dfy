/** Leftmost search for a separator that may overlap itself, and how a search
    behaves when the text grows at its end or is trimmed at its front. */
module Separators {

  newtype byte = i: int | 0 <= i < 256

  type Bytes = seq<byte>

  predicate MatchAt(text: Bytes, sep: Bytes, at: int)
    ensures MatchAt(text, sep, at) ==> 0 <= at && at + |sep| <= |text|
  {
    0 <= at && at + |sep| <= |text| && text[at..at + |sep|] == sep
  }

  /** No separator starts at from or later, and before to. */
  ghost predicate NoMatchIn(text: Bytes, sep: Bytes, from: int, to: int) {
    forall at :: from <= at < to ==> !MatchAt(text, sep, at)
  }

  function IndexFrom(text: Bytes, sep: Bytes, from: nat): (at: int)
    requires from <= |text|
    ensures at == -1 || (from <= at && at + |sep| <= |text|)
    decreases |text| - from
  {
    if MatchAt(text, sep, from) then from
    else if from == |text| then -1
    else IndexFrom(text, sep, from + 1)
  }

  /** The leftmost separator, or -1: what bytes.Index returns. */
  function Index(text: Bytes, sep: Bytes): (at: int)
    ensures at == -1 || (0 <= at && at + |sep| <= |text|)
  {
    IndexFrom(text, sep, 0)
  }

  lemma {:induction false} IndexFromIsLeftmost(text: Bytes, sep: Bytes, from: nat)
    requires from <= |text|
    ensures var at := IndexFrom(text, sep, from);
            && (at != -1 ==> MatchAt(text, sep, at))
            && NoMatchIn(text, sep, from, if at == -1 then |text| else at)
    decreases |text| - from
  {
    if !MatchAt(text, sep, from) && from < |text| {
      IndexFromIsLeftmost(text, sep, from + 1);
    }
  }

  /** Index finds a separator whenever there is one, and the leftmost. */
  lemma IndexIsLeftmost(text: Bytes, sep: Bytes)
    requires sep != []
    ensures Index(text, sep) == -1 <==> NoMatchIn(text, sep, 0, |text|)
    ensures Index(text, sep) != -1 ==> MatchAt(text, sep, Index(text, sep)) && NoMatchIn(text, sep, 0, Index(text, sep))
  {
    IndexFromIsLeftmost(text, sep, 0);
  }

  lemma IndexIs(text: Bytes, sep: Bytes, at: nat)
    requires sep != [] && MatchAt(text, sep, at) && NoMatchIn(text, sep, 0, at)
    ensures Index(text, sep) == at
  {
    hide Index, IndexFrom, MatchAt;
    IndexIsLeftmost(text, sep);
    assert at < |text|;
  }

  /** A match that ends inside the first part does not see the second. */
  lemma MatchInFirst(first: Bytes, second: Bytes, sep: Bytes, at: int)
    requires at + |sep| <= |first|
    ensures MatchAt(first + second, sep, at) <==> MatchAt(first, sep, at)
  {
    if 0 <= at {
      assert (first + second)[at..at + |sep|] == first[at..at + |sep|];
    }
  }

  lemma MatchInSecond(first: Bytes, second: Bytes, sep: Bytes, at: int)
    requires 0 <= at
    ensures MatchAt(first + second, sep, |first| + at) <==> MatchAt(second, sep, at)
  {
    if at + |sep| <= |second| {
      assert (first + second)[|first| + at..|first| + at + |sep|] == second[at..at + |sep|];
    }
  }

  /** Bytes that arrive later do not move a separator already found. */
  lemma IndexOfPrefix(text: Bytes, more: Bytes, sep: Bytes)
    requires sep != [] && Index(text, sep) != -1
    ensures Index(text + more, sep) == Index(text, sep)
  {
    hide Index, IndexFrom, MatchAt;
    IndexIsLeftmost(text, sep);
    var at := Index(text, sep);
    forall i | 0 <= i <= at
      ensures MatchAt(text + more, sep, i) <==> MatchAt(text, sep, i)
    {
      MatchInFirst(text, more, sep, i);
    }
    IndexIs(text + more, sep, at);
  }

  /** Why |sep| - 1 carried bytes are enough: when front + tail holds no
      separator and tail is at least that long, searching tail + more finds
      what searching front + tail + more finds. */
  lemma IndexAfterTrim(front: Bytes, tail: Bytes, more: Bytes, sep: Bytes)
    requires sep != [] && |tail| >= |sep| - 1
    requires Index(front + tail, sep) == -1
    ensures Index(front + tail + more, sep)
         == (if Index(tail + more, sep) == -1 then -1 else |front| + Index(tail + more, sep))
  {
    hide Index, IndexFrom, MatchAt;
    var text, kept := front + tail, tail + more;
    assert text + more == front + kept;
    IndexIsLeftmost(text, sep);
    IndexIsLeftmost(kept, sep);
    IndexIsLeftmost(text + more, sep);
    forall at | 0 <= at < |front|
      ensures !MatchAt(text + more, sep, at)
    {
      MatchInFirst(text, more, sep, at);
    }
    forall at | 0 <= at < |kept|
      ensures MatchAt(text + more, sep, |front| + at) <==> MatchAt(kept, sep, at)
    {
      MatchInSecond(front, kept, sep, at);
    }
    var found := Index(kept, sep);
    if found == -1 {
      forall at | 0 <= at < |text + more|
        ensures !MatchAt(text + more, sep, at)
      {
        if at >= |front| {
          assert !MatchAt(kept, sep, at - |front|);
          assert |front| + (at - |front|) == at;
        }
      }
    } else {
      forall at | 0 <= at < |front| + found
        ensures !MatchAt(text + more, sep, at)
      {
        if at >= |front| {
          assert !MatchAt(kept, sep, at - |front|);
          assert |front| + (at - |front|) == at;
        }
      }
      IndexIs(text + more, sep, |front| + found);
    }
  }

  /** No separator is found in a tail of a text that holds none. */
  lemma NoMatchInTail(text: Bytes, sep: Bytes, from: nat)
    requires sep != [] && from <= |text| && Index(text, sep) == -1
    ensures Index(text[from..], sep) == -1
  {
    hide Index, IndexFrom, MatchAt;
    IndexIsLeftmost(text, sep);
    IndexIsLeftmost(text[from..], sep);
    forall at | 0 <= at < |text[from..]|
      ensures !MatchAt(text[from..], sep, at)
    {
      assert text == text[..from] + text[from..];
      MatchInSecond(text[..from], text[from..], sep, at);
      assert !MatchAt(text, sep, from + at);
    }
  }

  // The leftmost non-overlapping split, stated without an algorithm.

  /** cuts are the positions of the separators of the leftmost
      non-overlapping split of text[from..]: each is the first separator at or
      after the end of the one before, and none is left after the last. */
  ghost predicate LeftmostCuts(text: Bytes, sep: Bytes, from: nat, cuts: seq<nat>)
    decreases |cuts|
  {
    if cuts == [] then NoMatchIn(text, sep, from, |text|)
    else
      && from <= cuts[0] && MatchAt(text, sep, cuts[0]) && NoMatchIn(text, sep, from, cuts[0])
      && LeftmostCuts(text, sep, cuts[0] + |sep|, cuts[1..])
  }

  /** A text has at most one leftmost non-overlapping split. */
  lemma {:induction false} SplitIsUnique(text: Bytes, sep: Bytes, from: nat, a: seq<nat>, b: seq<nat>)
    requires sep != []
    requires LeftmostCuts(text, sep, from, a) && LeftmostCuts(text, sep, from, b)
    ensures a == b
    decreases |a|
  {
    hide MatchAt;
    if a != [] && b != [] {
      assert MatchAt(text, sep, a[0]) && MatchAt(text, sep, b[0]);
      SplitIsUnique(text, sep, a[0] + |sep|, a[1..], b[1..]);
      assert a == [a[0]] + a[1..] && b == [b[0]] + b[1..];
    }
  }

  /** A text has a leftmost non-overlapping split. */
  lemma {:induction false} SplitExists(text: Bytes, sep: Bytes, from: nat) returns (cuts: seq<nat>)
    requires sep != [] && from <= |text|
    ensures LeftmostCuts(text, sep, from, cuts)
    decreases |text| - from
  {
    hide MatchAt, IndexFrom;
    IndexFromIsLeftmost(text, sep, from);
    var at := IndexFrom(text, sep, from);
    if at == -1 {
      cuts := [];
    } else {
      var rest := SplitExists(text, sep, at + |sep|);
      cuts := [at] + rest;
      assert cuts[1..] == rest;
    }
  }
}
