/**
 The LRU cache under any number of threads. Every ll_* call is one step, for it runs under the list
 mutex; every fh_* call is one step, taken when the lock of the key's shard is free; lru_check keeps
 that lock from its lookup to its release. Between the steps anything may happen.
 */
module LruProtocol {
  import opened CTypes
  import L = LruList

  type Tid = nat
  type Slot = nat

  datatype Block = Block(key: Key, value: Ptr, self: Slot)

  /** Where a thread is; a thread that is in no call has no phase. */
  datatype Phase =
    | AddTake(key: Key, value: Ptr)                  // about to call ll_slot_new
    | AddEvict(key: Key, value: Ptr)                 // it returned NULL: about to call ll_remove_last
    | AddUnhash(key: Key, value: Ptr, slot: Slot)    // about to call fh_del for the evicted slot
    | AddRecycle(key: Key, value: Ptr, slot: Slot)   // about to give the evicted slot back
    | AddFill(key: Key, value: Ptr, slot: Slot)      // has a slot: about to fill its block
    | AddInsert(key: Key, value: Ptr, slot: Slot)    // about to call fh_insert
    | AddDiscard(slot: Slot)                         // duplicate: about to give the slot back
    | AddPublish(slot: Slot)                         // about to call ll_slot_add_to_top
    | CheckLook(key: Key)                            // about to call fh_searchlock
    | CheckRead(key: Key, slot: Slot)                // holds the lock: about to copy the payload
    | CheckMove(key: Key, slot: Slot, value: Ptr)    // about to call ll_slot_move_to_top
    | CheckUnlock(key: Key, value: Ptr)              // about to call fh_releaselock
    | ClearPop                                       // about to call ll_remove_last
    | ClearUnhash(slot: Slot)                        // about to call fh_del for the removed slot
    | ClearRecycle(slot: Slot)                       // about to give the removed slot back

  datatype State = State(
    lists: L.View,
    blocks: map<Slot, Block>,
    table: map<Key, Slot>,
    locks: map<nat, Tid>,
    threads: map<Tid, Phase>,
    given: set<(Key, Ptr)>)

  /** What a call that ends with this step returns. */
  datatype Outcome = Goes | Stored | Duplicate | NoMemory | Hit(key: Key, value: Ptr) | Miss | Cleared | ClearFailed

  /** The start of a call by a thread that is in none. */
  datatype Start = StartAdd(key: Key, value: Ptr) | StartCheck(key: Key) | StartClear

  /** The slot a thread has in hand: the one it took from the free list or out of the list. */
  ghost function InHand(p: Phase): Option<Slot>
  {
    match p
    case AddUnhash(_, _, s) => Some(s)
    case AddRecycle(_, _, s) => Some(s)
    case AddFill(_, _, s) => Some(s)
    case AddInsert(_, _, s) => Some(s)
    case AddDiscard(s) => Some(s)
    case AddPublish(s) => Some(s)
    case ClearUnhash(s) => Some(s)
    case ClearRecycle(s) => Some(s)
    case _ => None
  }

  /** While in these phases the slot in hand is one that ll_slot_new gave out for the entry to be added. */
  ghost predicate FromFreelist(p: Phase)
  {
    p.AddFill? || p.AddInsert? || p.AddPublish?
  }

  /** The key whose shard lock a thread holds. */
  ghost function LockedKey(p: Phase): Option<Key>
  {
    match p
    case CheckRead(k, _) => Some(k)
    case CheckMove(k, _, _) => Some(k)
    case CheckUnlock(k, _) => Some(k)
    case _ => None
  }

  ghost function Begin(s: State, t: Tid, c: Start): State
  {
    match c
    case StartAdd(k, v) => s.(threads := s.threads[t := AddTake(k, v)], given := s.given + {(k, v)})
    case StartCheck(k) => s.(threads := s.threads[t := CheckLook(k)])
    case StartClear => s.(threads := s.threads[t := ClearPop])
  }

  ghost function At(s: State, t: Tid, p: Phase): State
  {
    s.(threads := s.threads[t := p])
  }

  ghost function Return(s: State, t: Tid): State
  {
    s.(threads := s.threads - {t})
  }

  /** The key the next fh_* call of a thread is about, if that is what it does next. */
  ghost function WantsShard(s: State, p: Phase): Option<Key>
  {
    match p
    case AddUnhash(_, _, slot) => if slot in s.blocks then Some(s.blocks[slot].key) else None
    case ClearUnhash(slot) => if slot in s.blocks then Some(s.blocks[slot].key) else None
    case AddInsert(k, _, _) => Some(k)
    case CheckLook(k) => Some(k)
    case _ => None
  }

  /** A thread waits for a shard lock that is taken; all its other steps are always possible. */
  ghost predicate CanStep(s: State, t: Tid, shard: Key -> nat)
  {
    t in s.threads &&
    var k := WantsShard(s, s.threads[t]);
    k.Some? ==> shard(k.value) !in s.locks
  }

  /** Undefined in the source: the block of a slot that was never filled. */
  ghost function BlockOf(s: State, slot: Slot): Block
  {
    if slot in s.blocks then s.blocks[slot] else Block([], NULL, slot)
  }

  /** One step of thread t, and what its call returns if it ends with it. */
  ghost function Step(s: State, t: Tid, shard: Key -> nat): (State, Outcome)
    requires t in s.threads
  {
    match s.threads[t]
    case AddTake(k, v) =>
      var (lists, slot) := L.NewSlot(s.lists);
      (match slot
       case None => (At(s, t, AddEvict(k, v)), Goes)
       case Some(x) => (At(s.(lists := lists), t, AddFill(k, v, x)), Goes))
    case AddEvict(k, v) =>
      var (lists, slot) := L.RemoveLast(s.lists);
      (match slot
       case None => (Return(s, t), NoMemory)
       case Some(x) => (At(s.(lists := lists), t, AddUnhash(k, v, x)), Goes))
    case AddUnhash(k, v, x) =>
      // the source only reports a failing fh_del, and goes on
      (At(s.(table := s.table - {BlockOf(s, x).key}), t, AddRecycle(k, v, x)), Goes)
    case AddRecycle(k, v, x) => (At(s.(lists := L.FreeSlot(s.lists, x)), t, AddTake(k, v)), Goes)
    case AddFill(k, v, x) => (At(s.(blocks := s.blocks[x := Block(k, v, x)]), t, AddInsert(k, v, x)), Goes)
    case AddInsert(k, v, x) =>
      if k in s.table then (At(s, t, AddDiscard(x)), Goes)
      else (At(s.(table := s.table[k := x]), t, AddPublish(x)), Goes)
    case AddDiscard(x) => (Return(s.(lists := L.FreeSlot(s.lists, x)), t), Duplicate)
    case AddPublish(x) => (Return(s.(lists := L.AddToTop(s.lists, x)), t), Stored)
    case CheckLook(k) =>
      if k in s.table then (At(s.(locks := s.locks[shard(k) := t]), t, CheckRead(k, s.table[k])), Goes)
      else (Return(s, t), Miss)
    case CheckRead(k, x) => (At(s, t, CheckMove(k, x, BlockOf(s, x).value)), Goes)
    case CheckMove(k, x, v) => (At(s.(lists := L.MoveToTop(s.lists, BlockOf(s, x).self)), t, CheckUnlock(k, v)), Goes)
    case CheckUnlock(k, v) => (Return(s.(locks := s.locks - {shard(k)}), t), Hit(k, v))
    case ClearPop =>
      var (lists, slot) := L.RemoveLast(s.lists);
      (match slot
       case None => (Return(s, t), Cleared)
       case Some(x) => (At(s.(lists := lists), t, ClearUnhash(x)), Goes))
    case ClearUnhash(x) =>
      if BlockOf(s, x).key in s.table then (At(s.(table := s.table - {BlockOf(s, x).key}), t, ClearRecycle(x)), Goes)
      else (Return(s, t), ClearFailed)
    case ClearRecycle(x) => (At(s.(lists := L.FreeSlot(s.lists, x)), t, ClearPop), Goes)
  }

  // ---------- runs ----------

  /** A scheduler's choice: thread t begins a call, or takes its next step. */
  datatype Move = Calls(t: Tid, c: Start) | Runs(t: Tid)

  ghost predicate Allowed(s: State, m: Move, shard: Key -> nat)
  {
    match m
    case Calls(t, _) => t !in s.threads
    case Runs(t) => CanStep(s, t, shard)
  }

  ghost function Apply(s: State, m: Move, shard: Key -> nat): State
    requires Allowed(s, m, shard)
  {
    match m
    case Calls(t, c) => Begin(s, t, c)
    case Runs(t) => Step(s, t, shard).0
  }

  /** The state after lru_create(dim). */
  ghost function Created(dim: nat): State
  {
    State(L.View(dim, [], seq(dim, i requires 0 <= i < dim => i), {}), map[], map[], map[], map[], {})
  }

  /** The state an interleaving leads to from the new cache, if each of its moves is allowed. */
  ghost function After(dim: nat, moves: seq<Move>, shard: Key -> nat): Option<State>
  {
    if moves == [] then Some(Created(dim))
    else
      match After(dim, moves[..|moves| - 1], shard)
      case None => None
      case Some(s) =>
        if Allowed(s, moves[|moves| - 1], shard) then Some(Apply(s, moves[|moves| - 1], shard)) else None
  }

  // ---------- the invariant ----------

  /** A slot in hand is out of both lists; from ll_slot_new to ll_slot_add_to_top its links stay clear. */
  ghost predicate HandOk(s: State, t: Tid)
  {
    t in s.threads && InHand(s.threads[t]).Some? ==>
      && L.Dangling(s.lists, InHand(s.threads[t]).value)
      && (FromFreelist(s.threads[t]) ==> InHand(s.threads[t]).value in s.lists.clear)
  }

  ghost predicate HandsDiffer(s: State, t: Tid, u: Tid)
  {
    t in s.threads && u in s.threads && t != u && InHand(s.threads[t]).Some? ==>
      InHand(s.threads[t]) != InHand(s.threads[u])
  }

  ghost predicate HeldBy(s: State, slot: Slot, t: Tid)
  {
    t in s.threads && InHand(s.threads[t]) == Some(slot)
  }

  /** No slot gets lost: what is in neither list is in some thread's hand. */
  ghost predicate PlaceOk(s: State, slot: Slot)
  {
    L.Dangling(s.lists, slot) ==> exists t :: HeldBy(s, slot, t)
  }

  /** The block of slot is filled, and the table has it under the block's key. */
  ghost predicate Published(s: State, slot: Slot)
  {
    && slot in s.blocks && s.blocks[slot].self == slot
    && s.blocks[slot].key in s.table && s.table[s.blocks[slot].key] == slot
  }

  ghost predicate LinkedOk(s: State, slot: Slot)
  {
    slot in s.lists.linked ==> Published(s, slot)
  }

  /** A table entry leads to a filled slot that carries its key and a payload given for that key. */
  ghost predicate EntryOk(s: State, k: Key)
  {
    k in s.table ==>
      var x := s.table[k];
      && x in s.blocks && s.blocks[x].key == k && (k, s.blocks[x].value) in s.given
      && x < s.lists.size && x !in s.lists.free
  }

  /** What a phase promises about the slot it deals with. */
  ghost predicate PhaseGood(s: State, p: Phase)
  {
    match p
    case AddTake(k, v) => (k, v) in s.given
    case AddEvict(k, v) => (k, v) in s.given
    case AddUnhash(k, v, x) => (k, v) in s.given && Published(s, x)
    case AddRecycle(k, v, x) => (k, v) in s.given && Unpublished(s, x)
    case AddFill(k, v, x) => (k, v) in s.given && Unpublished(s, x)
    case AddInsert(k, v, x) => (k, v) in s.given && Unpublished(s, x) && x in s.blocks && s.blocks[x] == Block(k, v, x)
    case AddDiscard(x) => Unpublished(s, x)
    case AddPublish(x) => Published(s, x)
    case ClearUnhash(x) => Published(s, x)
    case ClearRecycle(x) => Unpublished(s, x)
    case CheckRead(k, x) => k in s.table && s.table[k] == x && x in s.blocks && s.blocks[x].self == x
    case CheckMove(k, x, v) => k in s.table && s.table[k] == x && x in s.blocks && s.blocks[x] == Block(k, v, x)
    case CheckUnlock(k, v) => (k, v) in s.given
    case _ => true
  }

  ghost predicate PhaseOk(s: State, t: Tid)
  {
    t in s.threads ==> PhaseGood(s, s.threads[t])
  }

  /** No table entry leads to slot. */
  ghost predicate Unpublished(s: State, slot: Slot)
  {
    forall k :: k in s.table ==> s.table[k] != slot
  }

  /** The lock of a key's shard is held by the thread whose phase says so. */
  ghost predicate LockOk(s: State, t: Tid, shard: Key -> nat)
  {
    t in s.threads && LockedKey(s.threads[t]).Some? ==>
      shard(LockedKey(s.threads[t]).value) in s.locks && s.locks[shard(LockedKey(s.threads[t]).value)] == t
  }

  /** A lock that is taken is held by a thread that is in lru_check for a key of its shard. */
  ghost predicate LockHeld(s: State, lock: nat, shard: Key -> nat)
  {
    lock in s.locks ==>
      && s.locks[lock] in s.threads
      && LockedKey(s.threads[s.locks[lock]]).Some? && shard(LockedKey(s.threads[s.locks[lock]]).value) == lock
  }

  ghost predicate Inv(s: State, shard: Key -> nat)
  {
    && L.ValidView(s.lists)
    && (forall t :: HandOk(s, t))
    && (forall t, u :: HandsDiffer(s, t, u))
    && (forall x :: PlaceOk(s, x))
    && (forall x :: LinkedOk(s, x))
    && (forall k :: EntryOk(s, k))
    && (forall t :: PhaseOk(s, t))
    && (forall t :: LockOk(s, t, shard))
    && (forall l :: LockHeld(s, l, shard))
  }

  // ---------- the kinds of step, each keeping the invariant ----------

  ghost function Put(s: State, t: Tid, p: Option<Phase>): State
  {
    if p.Some? then At(s, t, p.value) else Return(s, t)
  }

  ghost function HandOf(p: Option<Phase>): Option<Slot>
  {
    if p.Some? then InHand(p.value) else None
  }

  ghost function LockOf(p: Option<Phase>): Option<Key>
  {
    if p.Some? then LockedKey(p.value) else None
  }

  /** Where thread t is, if it is in a call. */
  ghost function PhaseOf(s: State, t: Tid): Option<Phase>
  {
    if t in s.threads then Some(s.threads[t]) else None
  }

  /** What the new phase of the stepping thread must satisfy on its own account. */
  ghost predicate NextOk(s: State, t: Tid, p: Option<Phase>, shard: Key -> nat)
  {
    p.Some? ==>
      && PhaseGood(s, p.value)
      && (FromFreelist(p.value) ==> InHand(p.value).value in s.lists.clear)
      && (LockedKey(p.value).Some? ==>
            shard(LockedKey(p.value).value) in s.locks && s.locks[shard(LockedKey(p.value).value)] == t)
  }

  /** The thread moves on with the same slot in hand, or none. */
  lemma OnlyPhase(s: State, t: Tid, p: Option<Phase>, shard: Key -> nat)
    requires Inv(s, shard) && NextOk(s, t, p, shard)
    requires HandOf(p) == HandOf(PhaseOf(s, t)) && LockOf(p) == LockOf(PhaseOf(s, t))
    ensures Inv(Put(s, t, p), shard)
  {
    var s' := Put(s, t, p);
    forall u ensures HandOk(s', u) { assert HandOk(s, u); }
    forall u, w ensures HandsDiffer(s', u, w) { assert HandsDiffer(s, u, w); }
    forall x ensures PlaceOk(s', x) {
      assert PlaceOk(s, x);
      if L.Dangling(s.lists, x) {
        var u :| HeldBy(s, x, u);
        assert HeldBy(s', x, u);
      }
    }
    forall x ensures LinkedOk(s', x) { assert LinkedOk(s, x); }
    forall k ensures EntryOk(s', k) { assert EntryOk(s, k); }
    forall u ensures PhaseOk(s', u) { assert PhaseOk(s, u); SameMeaning(s, s'); }
    forall u ensures LockOk(s', u, shard) { assert LockOk(s, u, shard); }
    forall l ensures LockHeld(s', l, shard) { assert LockHeld(s, l, shard); }
  }

  /** A phase promises the same in states with the same blocks, table and gifts. */
  lemma SameMeaning(s: State, s': State)
    requires s'.blocks == s.blocks && s'.table == s.table && s.given <= s'.given
    ensures forall p :: PhaseGood(s, p) ==> PhaseGood(s', p)
  {
    assert forall x :: Unpublished(s, x) ==> Unpublished(s', x);
    assert forall x :: Published(s, x) ==> Published(s', x);
  }

  /** The lists change to others with the same members, but for slot x. */
  ghost predicate SameBut(v: L.View, v': L.View, x: Slot)
  {
    && L.ValidView(v') && v'.size == v.size
    && (forall y :: y != x ==> (y in v'.linked <==> y in v.linked))
    && (forall y :: y != x ==> (y in v'.free <==> y in v.free))
    && (forall y :: y != x ==> (y in v'.clear <==> y in v.clear))
  }

  /** The thread takes slot x out of one of the lists. */
  lemma TakesSlot(s: State, t: Tid, lists: L.View, x: Slot, p: Option<Phase>, shard: Key -> nat)
    requires Inv(s, shard) && NextOk(s.(lists := lists), t, p, shard)
    requires t in s.threads && InHand(s.threads[t]) == None && HandOf(p) == Some(x)
    requires LockOf(PhaseOf(s, t)) == LockOf(p) == None
    requires SameBut(s.lists, lists, x) && L.Dangling(lists, x) && !L.Dangling(s.lists, x)
    ensures Inv(Put(s.(lists := lists), t, p), shard)
  {
    var s' := Put(s.(lists := lists), t, p);
    forall u ensures HandOk(s', u) { assert HandOk(s, u); }
    forall u, w ensures HandsDiffer(s', u, w) { assert HandsDiffer(s, u, w) && HandOk(s, u) && HandOk(s, w); }
    forall y ensures PlaceOk(s', y) {
      assert PlaceOk(s, y);
      if y == x {
        assert HeldBy(s', y, t);
      } else if L.Dangling(s.lists, y) {
        var u :| HeldBy(s, y, u);
        assert HeldBy(s', y, u);
      }
    }
    forall y ensures LinkedOk(s', y) { assert LinkedOk(s, y); }
    forall k ensures EntryOk(s', k) { assert EntryOk(s, k); }
    forall u ensures PhaseOk(s', u) { assert PhaseOk(s, u); SameMeaning(s, s'); }
    forall u ensures LockOk(s', u, shard) { assert LockOk(s, u, shard); }
    forall l ensures LockHeld(s', l, shard) { assert LockHeld(s, l, shard); }
  }

  /** The thread puts the slot in its hand, which the table does not know, into the free list. */
  lemma GivesBack(s: State, t: Tid, x: Slot, p: Option<Phase>, shard: Key -> nat)
    requires Inv(s, shard) && NextOk(s, t, p, shard)
    requires t in s.threads && InHand(s.threads[t]) == Some(x) && HandOf(p) == None && Unpublished(s, x)
    requires LockOf(PhaseOf(s, t)) == LockOf(p) == None
    ensures Inv(Put(s.(lists := L.FreeSlot(s.lists, x)), t, p), shard)
  {
    assert HandOk(s, t);
    ListChange(s, t, L.FreeSlot(s.lists, x), x, p, shard);
  }

  /** The thread puts the slot in its hand into the list. */
  lemma Publishes(s: State, t: Tid, x: Slot, p: Option<Phase>, shard: Key -> nat)
    requires Inv(s, shard) && NextOk(s, t, p, shard)
    requires t in s.threads && InHand(s.threads[t]) == Some(x) && HandOf(p) == None && Published(s, x)
    requires LockOf(PhaseOf(s, t)) == LockOf(p) == None
    ensures Inv(Put(s.(lists := L.AddToTop(s.lists, x)), t, p), shard)
  {
    assert HandOk(s, t);
    ListChange(s, t, L.AddToTop(s.lists, x), x, p, shard);
  }

  /** The thread lets go of slot x, which goes into one of the lists. */
  lemma ListChange(s: State, t: Tid, lists: L.View, x: Slot, p: Option<Phase>, shard: Key -> nat)
    requires Inv(s, shard) && NextOk(s, t, p, shard)
    requires t in s.threads && InHand(s.threads[t]) == Some(x) && HandOf(p) == None
    requires LockOf(PhaseOf(s, t)) == LockOf(p) == None
    requires SameBut(s.lists, lists, x) && !L.Dangling(lists, x)
    requires x in lists.linked ==> Published(s, x)
    requires x in lists.free ==> Unpublished(s, x)
    ensures Inv(Put(s.(lists := lists), t, p), shard)
  {
    var s' := Put(s.(lists := lists), t, p);
    forall u ensures HandOk(s', u) { assert HandOk(s, u) && HandsDiffer(s, t, u); }
    forall u, w ensures HandsDiffer(s', u, w) { assert HandsDiffer(s, u, w); }
    forall y ensures PlaceOk(s', y) {
      assert PlaceOk(s, y);
      if y != x && L.Dangling(s.lists, y) {
        var u :| HeldBy(s, y, u);
        assert HeldBy(s', y, u);
      }
    }
    forall y ensures LinkedOk(s', y) { assert LinkedOk(s, y); }
    forall k ensures EntryOk(s', k) { assert EntryOk(s, k); }
    forall u ensures PhaseOk(s', u) { assert PhaseOk(s, u); SameMeaning(s, s'); }
    forall u ensures LockOk(s', u, shard) { assert LockOk(s, u, shard); }
    forall l ensures LockHeld(s', l, shard) { assert LockHeld(s, l, shard); }
  }

  /** A linked slot, or none, is moved to the top: the lists keep their members. */
  lemma Reorders(s: State, t: Tid, x: Slot, p: Option<Phase>, shard: Key -> nat)
    requires Inv(s, shard) && NextOk(s, t, p, shard)
    requires t in s.threads && InHand(s.threads[t]) == None && HandOf(p) == None
    requires LockOf(p) == LockOf(PhaseOf(s, t))
    ensures Inv(Put(s.(lists := L.MoveToTop(s.lists, x)), t, p), shard)
  {
    MoveKeepsMembers(s.lists, x);
    var s' := Put(s.(lists := L.MoveToTop(s.lists, x)), t, p);
    forall u ensures HandOk(s', u) { assert HandOk(s, u); }
    forall u, w ensures HandsDiffer(s', u, w) { assert HandsDiffer(s, u, w); }
    forall y ensures PlaceOk(s', y) {
      assert PlaceOk(s, y);
      if L.Dangling(s.lists, y) {
        var u :| HeldBy(s, y, u);
        assert HeldBy(s', y, u);
      }
    }
    forall y ensures LinkedOk(s', y) { assert LinkedOk(s, y); }
    forall k ensures EntryOk(s', k) { assert EntryOk(s, k); }
    forall u ensures PhaseOk(s', u) { assert PhaseOk(s, u); SameMeaning(s, s'); }
    forall u ensures LockOk(s', u, shard) { assert LockOk(s, u, shard); }
    forall l ensures LockHeld(s', l, shard) { assert LockHeld(s, l, shard); }
  }

  lemma MoveKeepsMembers(v: L.View, x: Slot)
    requires L.ValidView(v)
    ensures L.ValidView(L.MoveToTop(v, x)) && L.MoveToTop(v, x).size == v.size
    ensures forall y :: y in L.MoveToTop(v, x).linked <==> y in v.linked
    ensures L.MoveToTop(v, x).free == v.free && L.MoveToTop(v, x).clear == v.clear
  {
    if x in v.linked {
      var i :| 0 <= i < |v.linked| && v.linked[i] == x;
      L.FrontedKeeps(v.linked, i);
    }
  }

  // ---------- the steps that touch blocks, table and locks ----------

  /** Another thread's phase keeps its promise while the entry of slot x goes. */
  lemma UnhashElsewhere(s: State, x: Slot, q: Phase)
    requires Published(s, x) && PhaseGood(s, q)
    requires InHand(q) != Some(x) && LockedKey(q) != Some(s.blocks[x].key)
    ensures PhaseGood(s.(table := s.table - {s.blocks[x].key}), q)
  {
  }

  /** The thread removes the entry of the slot in its hand from the table. */
  lemma Unhashes(s: State, t: Tid, x: Slot, p: Option<Phase>, shard: Key -> nat)
    requires Inv(s, shard) && t in s.threads && InHand(s.threads[t]) == Some(x) == HandOf(p) && Published(s, x)
    requires shard(s.blocks[x].key) !in s.locks && LockedKey(s.threads[t]) == LockOf(p) == None
    requires NextOk(s.(table := s.table - {s.blocks[x].key}), t, p, shard)
    ensures Inv(Put(s.(table := s.table - {s.blocks[x].key}), t, p), shard)
  {
    var s' := Put(s.(table := s.table - {s.blocks[x].key}), t, p);
    assert HandOk(s, t);
    forall u ensures HandOk(s', u) { assert HandOk(s, u); }
    forall u, w ensures HandsDiffer(s', u, w) { assert HandsDiffer(s, u, w); }
    PlacesKept(s, s', t);
    forall y ensures LinkedOk(s', y) { assert LinkedOk(s, y); }
    forall k ensures EntryOk(s', k) { assert EntryOk(s, k); }
    forall u ensures LockOk(s', u, shard) { assert LockOk(s, u, shard); }
    forall l ensures LockHeld(s', l, shard) { assert LockHeld(s, l, shard); }
    forall u ensures PhaseOk(s', u) {
      assert PhaseOk(s, u) && HandsDiffer(s, t, u) && LockOk(s, u, shard);
      if u in s.threads && u != t {
        UnhashElsewhere(s, x, s.threads[u]);
        SameMeaning(s.(table := s.table - {s.blocks[x].key}), s');
      }
    }
  }

  /** When hands and lists stay as they are, nothing gets lost. */
  lemma PlacesKept(s: State, s': State, t: Tid)
    requires forall x :: PlaceOk(s, x)
    requires s'.lists == s.lists && s'.threads.Keys == s.threads.Keys
    requires forall u :: u in s.threads ==> InHand(s'.threads[u]) == InHand(s.threads[u])
    ensures forall x :: PlaceOk(s', x)
  {
    forall y ensures PlaceOk(s', y) {
      assert PlaceOk(s, y);
      if L.Dangling(s.lists, y) {
        var u :| HeldBy(s, y, u);
        assert HeldBy(s', y, u);
      }
    }
  }

  /** Another thread's phase keeps its promise while the block of an unpublished slot is filled. */
  lemma FillElsewhere(s: State, x: Slot, b: Block, q: Phase)
    requires Unpublished(s, x) && PhaseGood(s, q) && InHand(q) != Some(x)
    ensures PhaseGood(s.(blocks := s.blocks[x := b]), q)
  {
    var s' := s.(blocks := s.blocks[x := b]);
    assert forall y :: y != x && Published(s, y) ==> Published(s', y);
    assert forall y :: Unpublished(s, y) ==> Unpublished(s', y);
  }

  /** The thread fills the block of the slot in its hand. */
  lemma Fills(s: State, t: Tid, x: Slot, b: Block, p: Option<Phase>, shard: Key -> nat)
    requires Inv(s, shard) && t in s.threads && InHand(s.threads[t]) == Some(x) == HandOf(p) && Unpublished(s, x)
    requires NextOk(s.(blocks := s.blocks[x := b]), t, p, shard) && LockedKey(s.threads[t]) == LockOf(p) == None
    ensures Inv(Put(s.(blocks := s.blocks[x := b]), t, p), shard)
  {
    var s1 := s.(blocks := s.blocks[x := b]);
    var s' := Put(s1, t, p);
    assert HandOk(s, t);
    forall u ensures HandOk(s', u) { assert HandOk(s, u); }
    forall u, w ensures HandsDiffer(s', u, w) { assert HandsDiffer(s, u, w); }
    PlacesKept(s, s', t);
    forall y ensures LinkedOk(s', y) { assert LinkedOk(s, y); }
    forall k ensures EntryOk(s', k) { assert EntryOk(s, k); }
    forall u ensures LockOk(s', u, shard) { assert LockOk(s, u, shard); }
    forall l ensures LockHeld(s', l, shard) { assert LockHeld(s, l, shard); }
    SameMeaning(s1, s');
    forall u ensures PhaseOk(s', u) {
      assert PhaseOk(s, u) && HandsDiffer(s, t, u);
      if u in s.threads && u != t {
        FillElsewhere(s, x, b, s.threads[u]);
      }
    }
  }

  /** Another thread's phase keeps its promise while a new key is bound to slot x. */
  lemma BindElsewhere(s: State, k: Key, x: Slot, q: Phase)
    requires k !in s.table && PhaseGood(s, q) && InHand(q) != Some(x)
    ensures PhaseGood(s.(table := s.table[k := x]), q)
  {
    var s' := s.(table := s.table[k := x]);
    assert forall y :: Published(s, y) ==> Published(s', y);
    assert forall y :: y != x && Unpublished(s, y) ==> Unpublished(s', y);
  }

  /** The thread binds a new key to the slot in its hand. */
  lemma Binds(s: State, t: Tid, k: Key, v: Ptr, x: Slot, p: Option<Phase>, shard: Key -> nat)
    requires Inv(s, shard) && t in s.threads && InHand(s.threads[t]) == Some(x) == HandOf(p)
    requires k !in s.table && x in s.blocks && s.blocks[x] == Block(k, v, x) && (k, v) in s.given
    requires NextOk(s.(table := s.table[k := x]), t, p, shard) && LockedKey(s.threads[t]) == LockOf(p) == None
    ensures Inv(Put(s.(table := s.table[k := x]), t, p), shard)
  {
    var s1 := s.(table := s.table[k := x]);
    var s' := Put(s1, t, p);
    assert HandOk(s, t);
    forall u ensures HandOk(s', u) { assert HandOk(s, u); }
    forall u, w ensures HandsDiffer(s', u, w) { assert HandsDiffer(s, u, w); }
    PlacesKept(s, s', t);
    forall y ensures LinkedOk(s', y) { assert LinkedOk(s, y); }
    forall k' ensures EntryOk(s', k') { assert EntryOk(s, k'); }
    forall u ensures LockOk(s', u, shard) { assert LockOk(s, u, shard); }
    forall l ensures LockHeld(s', l, shard) { assert LockHeld(s, l, shard); }
    SameMeaning(s1, s');
    forall u ensures PhaseOk(s', u) {
      assert PhaseOk(s, u) && HandsDiffer(s, t, u);
      if u in s.threads && u != t {
        BindElsewhere(s, k, x, s.threads[u]);
      }
    }
  }

  /** Locks are taken only when free and given back only by their holder. */
  lemma LocksChange(s: State, t: Tid, locks: map<nat, Tid>, p: Option<Phase>, shard: Key -> nat)
    requires Inv(s, shard) && t in s.threads && InHand(s.threads[t]) == None && HandOf(p) == None
    requires NextOk(s.(locks := locks), t, p, shard)
    requires forall l :: l in s.locks && s.locks[l] != t ==> l in locks && locks[l] == s.locks[l]
    requires forall l :: l in locks ==>
               || (locks[l] != t && l in s.locks && s.locks[l] == locks[l])
               || (locks[l] == t && LockOf(p).Some? && shard(LockOf(p).value) == l)
    ensures Inv(Put(s.(locks := locks), t, p), shard)
  {
    var s1 := s.(locks := locks);
    var s' := Put(s1, t, p);
    forall u ensures HandOk(s', u) { assert HandOk(s, u); }
    forall u, w ensures HandsDiffer(s', u, w) { assert HandsDiffer(s, u, w); }
    forall y ensures PlaceOk(s', y) {
      assert PlaceOk(s, y);
      if L.Dangling(s.lists, y) {
        var u :| HeldBy(s, y, u);
        assert HeldBy(s', y, u);
      }
    }
    forall y ensures LinkedOk(s', y) { assert LinkedOk(s, y); }
    forall k ensures EntryOk(s', k) { assert EntryOk(s, k); }
    forall u ensures LockOk(s', u, shard) { assert LockOk(s, u, shard); }
    forall l ensures LockHeld(s', l, shard) { assert LockHeld(s, l, shard); }
    SameMeaning(s, s');
    forall u ensures PhaseOk(s', u) { assert PhaseOk(s, u); }
  }

  // ---------- every step is of one of these kinds ----------

  lemma NewSlotMembers(v: L.View)
    requires L.ValidView(v) && v.free != []
    ensures SameBut(v, L.NewSlot(v).0, v.free[0])
    ensures L.Dangling(L.NewSlot(v).0, v.free[0]) && !L.Dangling(v, v.free[0])
  {
    assert v.free == [v.free[0]] + v.free[1..];
  }

  lemma RemoveLastMembers(v: L.View)
    requires L.ValidView(v) && v.linked != []
    ensures var x := v.linked[|v.linked| - 1];
            SameBut(v, L.RemoveLast(v).0, x) && L.Dangling(L.RemoveLast(v).0, x) && !L.Dangling(v, x)
  {
    var n := |v.linked| - 1;
    assert v.linked == v.linked[..n] + [v.linked[n]];
  }

  /** ll_slot_new in lru_add. */
  lemma StepTake(s: State, t: Tid, shard: Key -> nat)
    requires Inv(s, shard) && t in s.threads && s.threads[t].AddTake?
    ensures Inv(Step(s, t, shard).0, shard)
  {
    var AddTake(k, v) := s.threads[t];
    assert PhaseOk(s, t);
    if s.lists.free == [] {
      OnlyPhase(s, t, Some(AddEvict(k, v)), shard);
    } else {
      var x := s.lists.free[0];
      NewSlotMembers(s.lists);
      forall k | k in s.table ensures s.table[k] != x { assert EntryOk(s, k); }
      TakesSlot(s, t, L.NewSlot(s.lists).0, x, Some(AddFill(k, v, x)), shard);
    }
  }

  /** ll_remove_last in lru_add and lru_clear. */
  lemma StepRemove(s: State, t: Tid, shard: Key -> nat)
    requires Inv(s, shard) && t in s.threads && (s.threads[t].AddEvict? || s.threads[t].ClearPop?)
    ensures Inv(Step(s, t, shard).0, shard)
  {
    assert PhaseOk(s, t);
    if s.lists.linked == [] {
      OnlyPhase(s, t, None, shard);
    } else {
      var x := s.lists.linked[|s.lists.linked| - 1];
      RemoveLastMembers(s.lists);
      assert LinkedOk(s, x);
      var p := match s.threads[t] case AddEvict(k, v) => AddUnhash(k, v, x) case _ => ClearUnhash(x);
      TakesSlot(s, t, L.RemoveLast(s.lists).0, x, Some(p), shard);
    }
  }

  /** fh_del in lru_add and lru_clear. */
  lemma StepUnhash(s: State, t: Tid, shard: Key -> nat)
    requires Inv(s, shard) && CanStep(s, t, shard) && (s.threads[t].AddUnhash? || s.threads[t].ClearUnhash?)
    ensures Inv(Step(s, t, shard).0, shard)
  {
    assert PhaseOk(s, t);
    var x := s.threads[t].slot;
    var key := s.blocks[x].key;
    forall k | k in s.table - {key} ensures s.table[k] != x { assert EntryOk(s, k); }
    var p := match s.threads[t] case AddUnhash(k, v, _) => AddRecycle(k, v, x) case _ => ClearRecycle(x);
    Unhashes(s, t, x, Some(p), shard);
  }

  /** ll_slot_free, wherever it is called. */
  lemma StepFree(s: State, t: Tid, shard: Key -> nat)
    requires Inv(s, shard) && t in s.threads
    requires s.threads[t].AddRecycle? || s.threads[t].AddDiscard? || s.threads[t].ClearRecycle?
    ensures Inv(Step(s, t, shard).0, shard)
  {
    assert PhaseOk(s, t);
    var x := s.threads[t].slot;
    match s.threads[t]
    case AddRecycle(k, v, _) => GivesBack(s, t, x, Some(AddTake(k, v)), shard);
    case ClearRecycle(_) => GivesBack(s, t, x, Some(ClearPop), shard);
    case AddDiscard(_) => GivesBack(s, t, x, None, shard);
  }

  /** Filling the block, fh_insert and ll_slot_add_to_top in lru_add. */
  lemma StepStore(s: State, t: Tid, shard: Key -> nat)
    requires Inv(s, shard) && t in s.threads
    requires s.threads[t].AddFill? || s.threads[t].AddInsert? || s.threads[t].AddPublish?
    ensures Inv(Step(s, t, shard).0, shard)
  {
    assert PhaseOk(s, t) && HandOk(s, t);
    match s.threads[t]
    case AddFill(k, v, x) =>
      Fills(s, t, x, Block(k, v, x), Some(AddInsert(k, v, x)), shard);
    case AddInsert(k, v, x) =>
      if k in s.table {
        OnlyPhase(s, t, Some(AddDiscard(x)), shard);
      } else {
        Binds(s, t, k, v, x, Some(AddPublish(x)), shard);
      }
    case AddPublish(x) =>
      Publishes(s, t, x, None, shard);
  }

  /** lru_check. */
  lemma StepCheck(s: State, t: Tid, shard: Key -> nat)
    requires Inv(s, shard) && CanStep(s, t, shard)
    requires s.threads[t].CheckLook? || s.threads[t].CheckRead? || s.threads[t].CheckMove? || s.threads[t].CheckUnlock?
    ensures Inv(Step(s, t, shard).0, shard)
  {
    assert PhaseOk(s, t) && LockOk(s, t, shard);
    match s.threads[t]
    case CheckLook(k) =>
      assert EntryOk(s, k);
      if k in s.table {
        EntrySelf(s, k, shard);
        forall l | l in s.locks ensures s.locks[l] != t { assert LockHeld(s, l, shard); }
        LocksChange(s, t, s.locks[shard(k) := t], Some(CheckRead(k, s.table[k])), shard);
      } else {
        OnlyPhase(s, t, None, shard);
      }
    case CheckRead(k, x) =>
      assert EntryOk(s, k);
      OnlyPhase(s, t, Some(CheckMove(k, x, s.blocks[x].value)), shard);
    case CheckMove(k, x, v) =>
      assert EntryOk(s, k);
      Reorders(s, t, x, Some(CheckUnlock(k, v)), shard);
    case CheckUnlock(k, v) =>
      forall l | l in s.locks - {shard(k)} ensures s.locks[l] != t { assert LockHeld(s, l, shard); }
      LocksChange(s, t, s.locks - {shard(k)}, None, shard);
  }

  /** The slot a table entry leads to has a block that leads back to it. */
  lemma EntrySelf(s: State, k: Key, shard: Key -> nat)
    requires Inv(s, shard) && k in s.table
    ensures Published(s, s.table[k])
  {
    var x := s.table[k];
    assert EntryOk(s, k) && LinkedOk(s, x) && PlaceOk(s, x);
    if x !in s.lists.linked {
      var u :| HeldBy(s, x, u);
      assert PhaseOk(s, u);
    }
  }

  lemma StepKeepsInv(s: State, t: Tid, shard: Key -> nat)
    requires Inv(s, shard) && CanStep(s, t, shard)
    ensures Inv(Step(s, t, shard).0, shard)
  {
    match s.threads[t]
    case AddTake(_, _) => StepTake(s, t, shard);
    case AddEvict(_, _) => StepRemove(s, t, shard);
    case ClearPop => StepRemove(s, t, shard);
    case AddUnhash(_, _, _) => StepUnhash(s, t, shard);
    case ClearUnhash(_) => StepUnhash(s, t, shard);
    case AddRecycle(_, _, _) => StepFree(s, t, shard);
    case AddDiscard(_) => StepFree(s, t, shard);
    case ClearRecycle(_) => StepFree(s, t, shard);
    case AddFill(_, _, _) => StepStore(s, t, shard);
    case AddInsert(_, _, _) => StepStore(s, t, shard);
    case AddPublish(_) => StepStore(s, t, shard);
    case CheckLook(_) => StepCheck(s, t, shard);
    case CheckRead(_, _) => StepCheck(s, t, shard);
    case CheckMove(_, _, _) => StepCheck(s, t, shard);
    case CheckUnlock(_, _) => StepCheck(s, t, shard);
  }

  lemma BeginKeepsInv(s: State, t: Tid, c: Start, shard: Key -> nat)
    requires Inv(s, shard) && t !in s.threads
    ensures Inv(Begin(s, t, c), shard)
  {
    var s1 := if c.StartAdd? then s.(given := s.given + {(c.key, c.value)}) else s;
    forall u ensures HandOk(s1, u) { assert HandOk(s, u); }
    forall u, w ensures HandsDiffer(s1, u, w) { assert HandsDiffer(s, u, w); }
    PlacesKept(s, s1, t);
    forall y ensures LinkedOk(s1, y) { assert LinkedOk(s, y); }
    forall k ensures EntryOk(s1, k) { assert EntryOk(s, k); }
    forall u ensures LockOk(s1, u, shard) { assert LockOk(s, u, shard); }
    forall l ensures LockHeld(s1, l, shard) { assert LockHeld(s, l, shard); }
    SameMeaning(s, s1);
    forall u ensures PhaseOk(s1, u) { assert PhaseOk(s, u); }
    OnlyPhase(s1, t, Some(Begin(s, t, c).threads[t]), shard);
  }

  lemma CreatedInv(dim: nat, shard: Key -> nat)
    ensures Inv(Created(dim), shard)
  {
    var s := Created(dim);
    forall x: Slot ensures PlaceOk(s, x) {
      assert x < dim ==> s.lists.free[x] == x;
    }
  }

  /** The invariant holds in every state that any interleaving of any number of threads can reach. */
  lemma {:induction false} ReachableInv(dim: nat, moves: seq<Move>, shard: Key -> nat)
    ensures After(dim, moves, shard).Some? ==>
              Inv(After(dim, moves, shard).value, shard) && After(dim, moves, shard).value.lists.size == dim
  {
    if moves == [] {
      CreatedInv(dim, shard);
    } else {
      ReachableInv(dim, moves[..|moves| - 1], shard);
      var before := After(dim, moves[..|moves| - 1], shard);
      if before.Some? && Allowed(before.value, moves[|moves| - 1], shard) {
        match moves[|moves| - 1]
        case Calls(t, c) => BeginKeepsInv(before.value, t, c, shard);
        case Runs(t) => StepKeepsInv(before.value, t, shard); StepKeepsSize(before.value, t, shard);
      }
    }
  }

  lemma StepKeepsSize(s: State, t: Tid, shard: Key -> nat)
    requires t in s.threads
    ensures Step(s, t, shard).0.lists.size == s.lists.size
  {
  }

  // ---------- what follows, for every interleaving ----------

  /** Every slot is linked, free, or in the hand of exactly one thread, and of these only one. */
  lemma SlotsAreOwned(dim: nat, moves: seq<Move>, shard: Key -> nat, x: Slot)
    requires After(dim, moves, shard).Some? && x < dim
    ensures var s := After(dim, moves, shard).value;
            && (x in s.lists.linked ==> x !in s.lists.free)
            && (x in s.lists.linked || x in s.lists.free <==> forall t :: !HeldBy(s, x, t))
            && (forall t, u :: HeldBy(s, x, t) && HeldBy(s, x, u) ==> t == u)
  {
    ReachableInv(dim, moves, shard);
    var s := After(dim, moves, shard).value;
    assert PlaceOk(s, x);
    forall t | HeldBy(s, x, t) ensures L.Dangling(s.lists, x) { assert HandOk(s, t); }
    forall t, u | HeldBy(s, x, t) && HeldBy(s, x, u) ensures t == u { assert HandsDiffer(s, t, u); }
  }

  /** Table and list agree: an entry leads to a slot with its key that is not free, and a linked slot has its entry. */
  lemma TableAgrees(dim: nat, moves: seq<Move>, shard: Key -> nat, k: Key, x: Slot)
    requires After(dim, moves, shard).Some?
    ensures var s := After(dim, moves, shard).value;
            && (k in s.table ==>
                  && s.table[k] < dim && s.table[k] !in s.lists.free
                  && s.table[k] in s.blocks && s.blocks[s.table[k]].key == k)
            && (x in s.lists.linked ==> x in s.blocks && s.blocks[x].key in s.table && s.table[s.blocks[x].key] == x)
  {
    ReachableInv(dim, moves, shard);
    var s := After(dim, moves, shard).value;
    assert EntryOk(s, k) && LinkedOk(s, x);
  }

  /**
   The next step of any thread never meets what the source only reports: fh_del finds the key of the
   evicted slot, ll_slot_add_to_top is given a dangling slot with clear links, ll_slot_move_to_top a slot that is not
   free and carries the key looked up, and a hit returns a payload that was added for that key.
   */
  lemma StepsMeetNoSurprise(dim: nat, moves: seq<Move>, shard: Key -> nat, t: Tid)
    requires After(dim, moves, shard).Some? && CanStep(After(dim, moves, shard).value, t, shard)
    ensures var s := After(dim, moves, shard).value;
            match s.threads[t]
            case AddUnhash(_, _, x) => x in s.blocks && s.blocks[x].key in s.table && s.table[s.blocks[x].key] == x
            case ClearUnhash(x) => x in s.blocks && s.blocks[x].key in s.table && s.table[s.blocks[x].key] == x
            case AddPublish(x) =>
              && L.Dangling(s.lists, x) && x in s.lists.clear
              && Step(s, t, shard).0.lists.linked == [x] + s.lists.linked
            case CheckMove(k, x, _) => x !in s.lists.free && x in s.blocks && s.blocks[x].key == k && s.blocks[x].self == x
            case CheckUnlock(k, v) => (k, v) in s.given
            case _ => true
    ensures Step(After(dim, moves, shard).value, t, shard).1 != ClearFailed
  {
    ReachableInv(dim, moves, shard);
    var s := After(dim, moves, shard).value;
    assert HandOk(s, t) && PhaseOk(s, t);
    match s.threads[t]
    case CheckMove(k, x, v) => assert EntryOk(s, k);
    case _ =>
  }

  /** When lru_add gives up, nothing is linked: every slot is free or in the hand of another thread. */
  lemma NoMemoryMeansNothingLinked(dim: nat, moves: seq<Move>, shard: Key -> nat, t: Tid, x: Slot)
    requires After(dim, moves, shard).Some? && CanStep(After(dim, moves, shard).value, t, shard)
    requires Step(After(dim, moves, shard).value, t, shard).1 == NoMemory && x < dim
    ensures var s := After(dim, moves, shard).value;
            s.lists.linked == [] && (x in s.lists.free || exists u :: u != t && HeldBy(s, x, u))
  {
    ReachableInv(dim, moves, shard);
    var s := After(dim, moves, shard).value;
    assert PlaceOk(s, x);
    if x !in s.lists.free {
      var u :| HeldBy(s, x, u);
      assert u != t;
    }
  }
}
