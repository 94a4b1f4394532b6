/**
 The dynamic vector of libvector/vector.c: a sequence in an array that doubles when it is full and is
 halved when a quarter of it is in use.
 */
module Vector {
  import opened CTypes

  const VECTOR_INIT_CAPACITY: nat := 20

  // ---------- what is computed ----------

  /** The elements, the room for them, and how many elements reallocations have carried over so far. */
  datatype View = View(items: seq<Ptr>, capacity: nat, carried: nat)

  datatype Call = AddCall(item: Ptr) | SetCall(index: int, item: Ptr) | DeleteCall(index: int)

  function Created(dim: int): View
  {
    View([], if dim > VECTOR_INIT_CAPACITY then dim else VECTOR_INIT_CAPACITY, 0)
  }

  function Resized(v: View, capacity: nat): View
  {
    View(v.items, capacity, v.carried + |v.items|)
  }

  function Added(v: View, item: Ptr): View
  {
    var w := if v.capacity == |v.items| then Resized(v, v.capacity * 2) else v;
    w.(items := w.items + [item])
  }

  function Assigned(v: View, index: int, item: Ptr): View
  {
    if 0 <= index < |v.items| then v.(items := v.items[index := item]) else v
  }

  function Deleted(v: View, index: int): View
  {
    if 0 <= index < |v.items| then
      var w := v.(items := v.items[..index] + v.items[index + 1..]);
      if |w.items| > 0 && |w.items| == w.capacity / 4 then Resized(w, w.capacity / 2) else w
    else v
  }

  function Perform(v: View, c: Call): View
  {
    match c
    case AddCall(item) => Added(v, item)
    case SetCall(index, item) => Assigned(v, index, item)
    case DeleteCall(index) => Deleted(v, index)
  }

  function After(dim: int, calls: seq<Call>): View
  {
    if calls == [] then Created(dim) else Perform(After(dim, calls[..|calls| - 1]), calls[|calls| - 1])
  }

  // ---------- every run ----------

  /** The room is never exceeded and never falls below two. */
  predicate Fits(v: View)
  {
    |v.items| <= v.capacity && 2 <= v.capacity
  }

  /** What has been saved up for the next reallocation: above half full for growing, below for shrinking. */
  function Saved(v: View): int
  {
    var n := |v.items|;
    if 2 * n >= v.capacity then 2 * n - v.capacity
    else if n <= v.capacity / 2 then v.capacity / 2 - n
    else 0
  }

  function Adds(calls: seq<Call>): nat
  {
    if calls == [] then 0 else Adds(calls[..|calls| - 1]) + if calls[|calls| - 1].AddCall? then 1 else 0
  }

  function Deletes(calls: seq<Call>): nat
  {
    if calls == [] then 0 else Deletes(calls[..|calls| - 1]) + if calls[|calls| - 1].DeleteCall? then 1 else 0
  }

  /** Each add pays for two elements and each delete for one. */
  lemma StepIsPaid(v: View, c: Call)
    requires Fits(v)
    ensures var w := Perform(v, c);
            && Fits(w)
            && w.carried + Saved(w)
               <= v.carried + Saved(v) + if c.AddCall? then 2 else if c.DeleteCall? then 1 else 0
  {
  }

  /**
   Over any run the elements carried by reallocations number at most twice the adds plus the deletes plus
   half the first capacity, and the vector stays within its room.
   */
  lemma {:induction false} AmortisedBound(dim: int, calls: seq<Call>)
    ensures var v := After(dim, calls);
            && |v.items| <= v.capacity && 2 <= v.capacity
            && v.carried + Saved(v) <= 2 * Adds(calls) + Deletes(calls) + Created(dim).capacity / 2
            && v.carried <= 2 * Adds(calls) + Deletes(calls) + Created(dim).capacity / 2
  {
    if calls != [] {
      AmortisedBound(dim, calls[..|calls| - 1]);
      StepIsPaid(After(dim, calls[..|calls| - 1]), calls[|calls| - 1]);
    }
  }

  /** The list that the calls make, whatever room there is. */
  function ListAfter(calls: seq<Call>): seq<Ptr>
  {
    if calls == [] then []
    else
      var s := ListAfter(calls[..|calls| - 1]);
      match calls[|calls| - 1]
      case AddCall(item) => s + [item]
      case SetCall(index, item) => if 0 <= index < |s| then s[index := item] else s
      case DeleteCall(index) => if 0 <= index < |s| then s[..index] + s[index + 1..] else s
  }

  /** No reallocation is visible in the elements. */
  lemma {:induction false} RefinesList(dim: int, calls: seq<Call>)
    ensures After(dim, calls).items == ListAfter(calls)
  {
    if calls != [] {
      RefinesList(dim, calls[..|calls| - 1]);
    }
  }

  // ---------- how it is computed ----------

  class VectorHandle {
    var items: array<Ptr>
    var total: nat
    var capacity: nat
    ghost var carried: nat

    ghost predicate Valid()
      reads this, items
    {
      total <= items.Length == capacity && 2 <= capacity
    }

    ghost function Now(): View
      reads this, items
    {
      View(if total <= items.Length then items[..total] else [], capacity, carried)
    }

    /** v_create */
    constructor (dim: int)
      ensures Valid() && fresh(items) && Now() == Created(dim)
    {
      var c := VECTOR_INIT_CAPACITY;
      if dim > VECTOR_INIT_CAPACITY {
        c := dim;
      }
      capacity := c;
      total := 0;
      items := new Ptr[c];
      carried := 0;
    }

    /** v_len */
    method Len() returns (n: nat)
      requires Valid()
      ensures n == |Now().items|
    {
      n := total;
    }

    /** _v_resize */
    method Resize(newCapacity: nat)
      requires Valid() && total <= newCapacity && 2 <= newCapacity
      modifies this
      ensures Valid() && fresh(items) && total == old(total) && Now() == Resized(old(Now()), newCapacity)
    {
      var moved := new Ptr[newCapacity];
      var i := 0;
      while i < total
        invariant i <= total <= items.Length
        invariant moved[..i] == items[..i]
        modifies moved
      {
        moved[i] := items[i];
        i := i + 1;
      }
      assert moved[..total] == items[..total];
      items := moved;
      capacity := newCapacity;
      carried := carried + total;
    }

    /** v_add */
    method Add(item: Ptr)
      requires Valid()
      modifies this, items
      ensures Valid() && (items == old(items) || fresh(items))
      ensures Now() == Added(old(Now()), item)
    {
      if capacity == total {
        Resize(capacity * 2);
      }
      items[total] := item;
      total := total + 1;
    }

    /** v_set */
    method Set(index: int, item: Ptr)
      requires Valid()
      modifies items
      ensures Valid() && Now() == Assigned(old(Now()), index, item)
    {
      if index >= 0 && index < total {
        items[index] := item;
      }
    }

    /** v_get */
    method Get(index: int) returns (item: Ptr)
      requires Valid()
      ensures item == if 0 <= index < |Now().items| then Now().items[index] else NULL
    {
      if index >= 0 && index < total {
        return items[index];
      }
      return NULL;
    }

    /** v_delete */
    method Delete(index: int)
      requires Valid()
      modifies this, items
      ensures Valid() && (items == old(items) || fresh(items))
      ensures Now() == Deleted(old(Now()), index)
    {
      if index < 0 || index >= total {
        return;
      }
      ghost var before := items[..total];
      ghost var after := before[..index] + before[index + 1..];
      items[index] := NULL;
      var i := index;
      while i < total - 1
        invariant index <= i <= total - 1
        invariant forall k :: 0 <= k < i ==> items[k] == after[k]
        invariant forall k :: i < k < total ==> items[k] == before[k]
        modifies items
      {
        items[i] := items[i + 1];
        items[i + 1] := NULL;
        i := i + 1;
      }
      total := total - 1;
      assert items[..total] == after;
      if total > 0 && total == capacity / 4 {
        Resize(capacity / 2);
      }
    }
  }
}
