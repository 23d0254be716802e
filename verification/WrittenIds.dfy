/** The most recently written tx ids of one device, oldest forgotten first. */
module WrittenIds {
  import opened Helpers

  type Id = nat
  type Time = int

  /** What is remembered: when each id was written, and the ids oldest first. */
  datatype Memory = Memory(at: map<Id, Time>, order: seq<Id>)

  const EMPTY := Memory(map[], [])

  /** The order lists each remembered id once, and is within the limit. */
  ghost predicate Coherent(memory: Memory, limit: nat) {
    && Distinct(memory.order)
    && |memory.order| <= limit
    && (forall id :: id in memory.at <==> id in memory.order)
  }

  function Remember(memory: Memory, limit: nat, id: Id, at: Time): Memory {
    if id in memory.at then memory.(at := memory.at[id := at])
    else if |memory.order| >= limit && memory.order != [] then
      Memory((memory.at - {memory.order[0]})[id := at], memory.order[1..] + [id])
    else Memory(memory.at[id := at], memory.order + [id])
  }

  /** The last count ids of a history, or all of it when it is shorter. */
  function Recent(history: seq<Id>, count: nat): seq<Id> {
    if |history| <= count then history else history[|history| - count..]
  }

  /** Remembering keeps the memory coherent. */
  lemma RememberCoherent(memory: Memory, limit: nat, id: Id, at: Time)
    requires limit >= 1 && Coherent(memory, limit)
    ensures Coherent(Remember(memory, limit, id, at), limit)
    ensures id in Remember(memory, limit, id, at).at && Remember(memory, limit, id, at).at[id] == at
    ensures var after := Remember(memory, limit, id, at).at;
            forall x :: x in after && x != id ==> x in memory.at && after[x] == memory.at[x]
  {
    var after, order := Remember(memory, limit, id, at), memory.order;
    if id !in memory.at && |order| >= limit {
      forall x
        ensures x in after.at <==> x in after.order
      {
        assert order == [order[0]] + order[1..];
        assert order[0] !in order[1..];
      }
    }
  }

  /** Memory holds exactly the last limit ids of the history, as long as no
      id is written again while it is remembered. */
  lemma RememberTracksRecent(memory: Memory, limit: nat, id: Id, at: Time, history: seq<Id>)
    requires limit >= 1 && Coherent(memory, limit) && id !in memory.at
    requires memory.order == Recent(history, limit)
    ensures Remember(memory, limit, id, at).order == Recent(history + [id], limit)
  {
  }

  /** The ids as the pipeline holds them, updated under its lock. */
  class WrittenIDs {
    const limit: nat
    var at: map<Id, Time>
    var order: seq<Id>
    /** Every id written, in order; one that is still remembered is not listed
        again. */
    ghost var history: seq<Id>

    ghost function Contents(): Memory
      reads this
    {
      Memory(at, order)
    }

    ghost predicate Valid()
      reads this
    {
      limit >= 1 && Coherent(Contents(), limit) && order == Recent(history, limit)
    }

    constructor (limit: nat)
      requires limit >= 1
      ensures Valid() && this.limit == limit && Contents() == EMPTY && history == []
    {
      this.limit := limit;
      at, order, history := map[], [], [];
    }

    method Add(id: Id, when: Time)
      requires Valid()
      modifies this
      ensures Valid() && Contents() == Remember(old(Contents()), limit, id, when)
      ensures history == old(history) + (if id in Recent(old(history), limit) then [] else [id])
    {
      assert id in at <==> id in Recent(history, limit);
      RememberCoherent(Contents(), limit, id, when);
      if id !in at {
        RememberTracksRecent(Contents(), limit, id, when, history);
      }
      hide Recent, Coherent;
      if id in at {
        at := at[id := when];
        return;
      }
      history := history + [id];
      if |order| >= limit {
        at := at - {order[0]};
        order := order[1..];
      }
      at := at[id := when];
      order := order + [id];
    }

    /** Finds exactly the last limit ids written, with the time each was. */
    method Lookup(id: Id) returns (when: Time, known: bool)
      requires Valid()
      ensures known <==> id in Recent(history, limit)
      ensures known <==> id in order
      ensures known ==> id in at && when == at[id]
    {
      known := id in at;
      when := if known then at[id] else 0;
    }
  }
}
