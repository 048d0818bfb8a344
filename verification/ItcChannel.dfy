/** The inbox of a core (`src/core/itc_channel.hpp`), one call at a time: the mutex makes each call
    of the class one step of the protocol. */
module ItcChannel {
  import opened Bytes

  class ItcChannel<M> {
    var queue: seq<M>
    /** Everything ever pushed, and everything ever handed to a consumer. */
    ghost var pushed: seq<M>
    ghost var taken: seq<M>

    /** Nothing is lost, duplicated or reordered. */
    ghost predicate Valid()
      reads this
    {
      pushed == taken + queue
    }

    constructor ()
      ensures Valid() && pushed == taken == []
    {
      queue, pushed, taken := [], [], [];
    }

    method Push(m: M)
      requires Valid()
      modifies this
      ensures Valid() && pushed == old(pushed) + [m] && taken == old(taken)
    {
      queue := queue + [m];
      pushed := pushed + [m];
      assert taken + queue == taken + old(queue) + [m];
    }

    method TryPop() returns (m: Option<M>)
      requires Valid()
      modifies this
      ensures Valid() && pushed == old(pushed)
      ensures m.None? <==> old(pushed) == old(taken)
      ensures taken == old(taken) + if m.Some? then [m.value] else []
    {
      if queue == [] { return None; }
      m := Some(queue[0]);
      taken := taken + [queue[0]];
      queue := queue[1..];
    }

    /** The swap of `consume_all`; the batch is then handled without the lock. */
    method Swap() returns (batch: seq<M>)
      requires Valid()
      modifies this
      ensures Valid() && queue == [] && pushed == old(pushed)
      ensures taken == old(taken) + batch == pushed
    {
      batch, queue := queue, [];
      taken := taken + batch;
    }

    /** `consume_all`'s loop over the batch, with the handler a function of what it has built so far. */
    method ConsumeAll<S>(handle: (S, M) -> S, start: S) returns (end: S, ghost batch: seq<M>)
      requires Valid()
      modifies this
      ensures Valid() && taken == old(taken) + batch == pushed == old(pushed)
      ensures end == Fold(handle, start, batch)
    {
      var ms := Swap();
      batch, end := ms, start;
      for i := 0 to |ms|
        invariant end == Fold(handle, start, ms[..i])
      {
        assert ms[..i + 1][..i] == ms[..i];
        end := handle(end, ms[i]);
      }
      assert ms[..|ms|] == ms;
    }
  }

  function Fold<S, M>(handle: (S, M) -> S, start: S, ms: seq<M>): S {
    if ms == [] then start else handle(Fold(handle, start, ms[..|ms| - 1]), ms[|ms| - 1])
  }
}
