/** The channel's linked list, rewired in place under the mutex. */
module Channel {
  import opened CTypes
  import opened ChannelSpec

  class Element {
    var block: Ptr
    var prev: Element?

    constructor (block: Ptr)
      ensures this.block == block && prev == null
    {
      this.block, prev := block, null;
    }
  }

  ghost function Nth(nodes: seq<Element>, i: int): Element?
  {
    if 0 <= i < |nodes| then nodes[i] else null
  }

  /** Element i holds its block and leads to the one behind it. */
  ghost predicate LinkOk(nodes: seq<Element>, queue: seq<Ptr>, i: int)
    reads nodes
  {
    0 <= i < |nodes| == |queue| ==> nodes[i].block == queue[i] && nodes[i].prev == Nth(nodes, i + 1)
  }

  class ChannelHandle {
    var count: int
    var max_size: nat
    var blocking: bool
    var head: Element?
    var tail: Element?
    var get_waiting_threads: int
    var put_waiting_threads: int
    ghost var nodes: seq<Element>
    ghost var queue: seq<Ptr>

    ghost function V(): Chan
      reads this
    {
      Chan(queue, max_size, blocking, get_waiting_threads, put_waiting_threads)
    }

    /** From head, the elements hold the queue in order; head and tail are NULL exactly when it is empty. */
    ghost predicate Valid()
      reads this, nodes
    {
      && count == |queue| == |nodes|
      && head == Nth(nodes, 0) && tail == Nth(nodes, |nodes| - 1)
      && (forall i, j :: 0 <= i < j < |nodes| ==> nodes[i] != nodes[j])
      && (forall i :: LinkOk(nodes, queue, i))
    }

    /** ch_create. */
    constructor ()
      ensures Valid() && V() == Chan([], 0, true, 0, 0) && nodes == []
    {
      count, max_size, blocking := 0, 0, true;
      head, tail := null, null;
      get_waiting_threads, put_waiting_threads := 0, 0;
      nodes, queue := [], [];
    }

    /**
     The body of _ch_put from a thread's taking the mutex (coming back from the wait if resumed) to
     its releasing it or waiting again; says whether the get condition variable was signalled.
     */
    method PutPass(element: Element, place: Place, resumed: bool) returns (e: PutEnd, signals: bool)
      requires Valid() && element !in nodes && element.prev == null
      modifies this, nodes, element
      ensures Valid()
      ensures var c := old(V()).(putWaiting := old(put_waiting_threads) - if resumed then 1 else 0);
              (V(), e) == Put(c, old(element.block), place) && signals == PutSignals(V(), e)
      ensures e.PutDone? ==> nodes == if place == Last then old(nodes) + [element] else [element] + old(nodes)
      ensures !e.PutDone? ==> nodes == old(nodes) && element.prev == null && element.block == old(element.block)
    {
      signals := false;
      if resumed {
        put_waiting_threads := put_waiting_threads - 1;
      }
      if max_size > 0 && count >= max_size {
        if !blocking {
          return PutFull, false;
        }
        put_waiting_threads := put_waiting_threads + 1;
        return PutSleeps, false;
      }
      Attach(element, place);
      if blocking {
        signals := true;
      }
      return PutDone(count), signals;
    }

    /** Links the element in at either end. */
    method Attach(element: Element, place: Place)
      requires Valid() && element !in nodes && element.prev == null
      modifies this`head, this`tail, this`count, this`nodes, this`queue, nodes, element
      ensures Valid() && count == old(count) + 1
      ensures nodes == if place == Last then old(nodes) + [element] else [element] + old(nodes)
      ensures queue == if place == Last then old(queue) + [old(element.block)] else [old(element.block)] + old(queue)
    {
      ghost var n := |nodes|;
      assert LinkOk(nodes, queue, n - 1);
      if place == Last {
        if count == 0 {
          head := element;
        } else {
          tail.prev := element;
        }
        tail := element;
        nodes, queue, count := nodes + [element], queue + [element.block], count + 1;
        forall i ensures LinkOk(nodes, queue, i) { assert old(LinkOk(nodes, queue, i)); }
      } else {
        if count == 0 {
          tail := element;
        } else {
          element.prev := head;
        }
        head := element;
        nodes, queue, count := [element] + nodes, [element.block] + queue, count + 1;
        forall i ensures LinkOk(nodes, queue, i) { assert old(LinkOk(nodes, queue, i - 1)); }
      }
    }

    /** The body of ch_get from a thread's taking the mutex to its releasing it or waiting again. */
    method GetPass(resumed: bool) returns (e: GetEnd, signals: bool)
      requires Valid()
      modifies this
      ensures Valid()
      ensures var c := old(V()).(getWaiting := old(get_waiting_threads) - if resumed then 1 else 0);
              (V(), e) == Get(c) && signals == GetSignals(V(), e)
      ensures nodes == if e.Got? || e.EndOfTransmission? then old(nodes)[1..] else old(nodes)
      ensures e.Got? ==> |old(queue)| > 0 && e.block == old(queue)[0] != CH_ENDOFTRANSMISSION
      ensures e.EndOfTransmission? ==> |old(queue)| > 0 && old(queue)[0] == CH_ENDOFTRANSMISSION
    {
      if resumed {
        get_waiting_threads := get_waiting_threads - 1;
      }
      if count == 0 {
        if !blocking {
          return NoData, false;
        }
        get_waiting_threads := get_waiting_threads + 1;
        return GetSleeps, false;
      }
      var block := Detach();
      e := if block == CH_ENDOFTRANSMISSION then EndOfTransmission else Got(block);
      signals := max_size != 0 && put_waiting_threads > 0;
    }

    /** Unlinks the first element. */
    method Detach() returns (block: Ptr)
      requires Valid() && count > 0
      modifies this`head, this`tail, this`count, this`nodes, this`queue
      ensures Valid() && count == old(count) - 1 && |old(queue)| > 0 && |old(nodes)| > 0
      ensures block == old(queue)[0] && queue == old(queue)[1..] && nodes == old(nodes)[1..]
    {
      assert LinkOk(nodes, queue, 0);
      block := head.block;
      head := head.prev;
      if head == null {
        tail := null;
      }
      count := count - 1;
      nodes, queue := nodes[1..], queue[1..];
      forall i ensures LinkOk(nodes, queue, i) { assert old(LinkOk(nodes, queue, i + 1)); }
    }
  }
}
