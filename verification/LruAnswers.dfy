/**
 What the calls on the LRU cache return under any number of threads, by what an observer of the run
 saw: the call each thread began, the table at the moment the call looked its key up in it, and the
 list at the moment it moved the slot.
 */
module LruAnswers {
  import opened CTypes
  import opened LruProtocol
  import L = LruList
  import R = LruRuns

  // ---------- the observer ----------

  /** What the table had for the key of a call when the call looked: the slot, and the slot's block. */
  datatype Seen = NotYet | Absent | Present(slot: Slot, block: Block)

  /** The call thread t began last. */
  ghost function LastCall(moves: seq<Move>, t: Tid): Option<Start>
  {
    if moves == [] then None
    else
      match moves[|moves| - 1]
      case Calls(u, c) => if u == t then Some(c) else LastCall(moves[..|moves| - 1], t)
      case Runs(_) => LastCall(moves[..|moves| - 1], t)
  }

  ghost predicate HasKey(c: Option<Start>)
  {
    c.Some? && !c.value.StartClear?
  }

  /** The two steps at which a call asks the table: fh_insert in lru_add, fh_searchlock in lru_check. */
  ghost predicate Asks(s: State, t: Tid)
  {
    t in s.threads && (s.threads[t].AddInsert? || s.threads[t].CheckLook?)
  }

  ghost function LookUp(s: State, c: Option<Start>): Seen
  {
    if HasKey(c) && c.value.key in s.table then
      Present(s.table[c.value.key], BlockOf(s, s.table[c.value.key]))
    else
      Absent
  }

  /** What is known after a step of t from s that was seen before it. */
  ghost function SeenNext(s: State, t: Tid, c: Option<Start>, seen: Seen): Seen
  {
    if Asks(s, t) then LookUp(s, c) else seen
  }

  /** What the call of t that began last saw in the table. */
  ghost function SeenBy(dim: nat, moves: seq<Move>, t: Tid, shard: Key -> nat): Seen
  {
    if moves == [] then NotYet
    else
      var less := moves[..|moves| - 1];
      match moves[|moves| - 1]
      case Calls(u, _) => if u == t then NotYet else SeenBy(dim, less, t, shard)
      case Runs(u) =>
        if u == t && After(dim, less, shard).Some? then
          SeenNext(After(dim, less, shard).value, t, LastCall(less, t), SeenBy(dim, less, t, shard))
        else
          SeenBy(dim, less, t, shard)
  }

  /** From s to s' the slot of the key of the call, if it is linked, becomes the most recently used one. */
  ghost predicate Fronts(s: State, s': State, c: Option<Start>)
  {
    && HasKey(c) && c.value.key in s.table
    && var x := s.table[c.value.key];
    if x in s.lists.linked then s'.lists.linked != [] && s'.lists.linked[0] == x else s'.lists == s.lists
  }

  ghost function FrontNext(s: State, s': State, t: Tid, c: Option<Start>, front: bool): bool
  {
    if t in s.threads && s.threads[t].CheckMove? then Fronts(s, s', c) else front
  }

  /** Whether the call of t that began last has brought the slot of its key to the front, if it was linked. */
  ghost predicate FrontedBy(dim: nat, moves: seq<Move>, t: Tid, shard: Key -> nat)
  {
    moves != [] &&
    var less := moves[..|moves| - 1];
    match moves[|moves| - 1]
    case Calls(u, _) => u != t && FrontedBy(dim, less, t, shard)
    case Runs(u) =>
      if u == t && After(dim, less, shard).Some? && After(dim, moves, shard).Some? then
        FrontNext(After(dim, less, shard).value, After(dim, moves, shard).value, t, LastCall(less, t),
                  FrontedBy(dim, less, t, shard))
      else
        FrontedBy(dim, less, t, shard)
  }

  // ---------- what a phase says about the call ----------

  /** The phase a thread is in goes with the call it began and with what that call has seen. */
  ghost predicate Tracks(s: State, p: Phase, c: Start, seen: Seen, front: bool)
  {
    match p
    case AddTake(k, v) => c == StartAdd(k, v)
    case AddEvict(k, v) => c == StartAdd(k, v)
    case AddUnhash(k, v, _) => c == StartAdd(k, v)
    case AddRecycle(k, v, _) => c == StartAdd(k, v)
    case AddFill(k, v, _) => c == StartAdd(k, v)
    case AddInsert(k, v, _) => c == StartAdd(k, v)
    case AddDiscard(_) => c.StartAdd? && seen.Present?
    case AddPublish(x) =>
      c.StartAdd? && seen == Absent && x in s.blocks && s.blocks[x] == Block(c.key, c.value, x)
    case CheckLook(k) => c == StartCheck(k)
    case CheckRead(k, x) =>
      c == StartCheck(k) && x in s.blocks && s.blocks[x].key == k && seen == Present(x, s.blocks[x])
    case CheckMove(k, x, v) => c == StartCheck(k) && seen == Present(x, Block(k, v, x))
    case CheckUnlock(k, v) =>
      c == StartCheck(k) && seen.Present? && seen.block == Block(k, v, seen.slot) && front
    case _ => c == StartClear
  }

  ghost predicate TrackOk(s: State, t: Tid, c: Option<Start>, seen: Seen, front: bool)
  {
    t in s.threads ==> c.Some? && Tracks(s, s.threads[t], c.value, seen, front)
  }

  /** What a call that has seen this may return as it goes from s to s'. */
  ghost predicate RightAnswer(s: State, s': State, t: Tid, c: Start, seen: Seen, front: bool, o: Outcome)
  {
    match o
    case Goes => t in s'.threads
    case Miss => c.StartCheck? && seen == Absent
    case Hit(k, v) =>
      c == StartCheck(k) && seen.Present? && seen.block.key == k && seen.block.value == v && front
    case Stored =>
      && c.StartAdd? && seen == Absent && c.key in s'.table
      && var x := s'.table[c.key];
      && HeldBy(s, x, t) && x in s'.blocks && s'.blocks[x] == Block(c.key, c.value, x)
      && s'.lists.linked == [x] + s.lists.linked && s'.table == s.table
    case Duplicate =>
      && c.StartAdd? && seen.Present?
      && (exists x :: HeldBy(s, x, t) && s'.lists.free == [x] + s.lists.free)
      && s'.lists.linked == s.lists.linked && s'.table == s.table && s'.blocks == s.blocks
    case NoMemory => c.StartAdd? && s.lists.linked == []
    case Cleared => c == StartClear && s.lists.linked == []
    case ClearFailed => false
  }

  // ---------- steps ----------

  /** What a step of the thread's own does to what is known of its call. */
  ghost predicate StepTracked(s: State, t: Tid, c: Start, seen: Seen, front: bool, shard: Key -> nat)
    requires t in s.threads
  {
    var (s', o) := Step(s, t, shard);
    var seen', front' := SeenNext(s, t, Some(c), seen), FrontNext(s, s', t, Some(c), front);
    && RightAnswer(s, s', t, c, seen', front', o)
    && TrackOk(s', t, Some(c), seen', front')
    && (o == Goes <==> t in s'.threads)
  }

  /** lru_add before it looks for its key in the table. */
  lemma TakeStepTracks(s: State, t: Tid, c: Start, seen: Seen, front: bool, shard: Key -> nat)
    requires Inv(s, shard) && CanStep(s, t, shard) && c.StartAdd? && Tracks(s, s.threads[t], c, seen, front)
    requires !s.threads[t].AddInsert? && !s.threads[t].AddDiscard? && !s.threads[t].AddPublish?
    ensures StepTracked(s, t, c, seen, front, shard)
  {
  }

  /** From fh_insert on. */
  lemma StoreStepTracks(s: State, t: Tid, c: Start, seen: Seen, front: bool, shard: Key -> nat)
    requires Inv(s, shard) && CanStep(s, t, shard) && c.StartAdd? && Tracks(s, s.threads[t], c, seen, front)
    requires s.threads[t].AddInsert? || s.threads[t].AddDiscard? || s.threads[t].AddPublish?
    ensures StepTracked(s, t, c, seen, front, shard)
  {
    assert PhaseOk(s, t) && HandOk(s, t) && HeldBy(s, s.threads[t].slot, t);
  }

  /** The thread's own step in lru_check. */
  lemma CheckStepTracks(s: State, t: Tid, c: Start, seen: Seen, front: bool, shard: Key -> nat)
    requires Inv(s, shard) && CanStep(s, t, shard) && c.StartCheck? && Tracks(s, s.threads[t], c, seen, front)
    ensures StepTracked(s, t, c, seen, front, shard)
  {
    assert PhaseOk(s, t);
    match s.threads[t]
    case CheckLook(k) => assert EntryOk(s, k);
    case CheckRead(k, x) => assert EntryOk(s, k);
    case CheckMove(k, x, v) => assert EntryOk(s, k);
    case _ =>
  }

  /** The thread's own step in lru_clear. */
  lemma ClearStepTracks(s: State, t: Tid, c: Start, seen: Seen, front: bool, shard: Key -> nat)
    requires Inv(s, shard) && CanStep(s, t, shard) && c.StartClear? && Tracks(s, s.threads[t], c, seen, front)
    ensures StepTracked(s, t, c, seen, front, shard)
  {
    assert PhaseOk(s, t);
  }

  lemma OwnStepTracks(s: State, t: Tid, c: Option<Start>, seen: Seen, front: bool, shard: Key -> nat)
    requires Inv(s, shard) && CanStep(s, t, shard) && TrackOk(s, t, c, seen, front)
    ensures StepTracked(s, t, c.value, seen, front, shard)
  {
    match c.value
    case StartAdd(_, _) =>
      if s.threads[t].AddInsert? || s.threads[t].AddDiscard? || s.threads[t].AddPublish? {
        StoreStepTracks(s, t, c.value, seen, front, shard);
      } else {
        TakeStepTracks(s, t, c.value, seen, front, shard);
      }
    case StartCheck(_) => CheckStepTracks(s, t, c.value, seen, front, shard);
    case StartClear => ClearStepTracks(s, t, c.value, seen, front, shard);
  }

  /** A step changes no other thread's phase, and no block but one that no other thread relies on. */
  lemma OthersSafe(s: State, u: Tid, x: Slot, shard: Key -> nat)
    requires Inv(s, shard) && CanStep(s, u, shard) && Published(s, x) && x in s.blocks
    ensures var s' := Step(s, u, shard).0; x in s'.blocks && s'.blocks[x] == s.blocks[x]
  {
    assert PhaseOk(s, u);
  }

  lemma OtherThreadStays(s: State, u: Tid, t: Tid, shard: Key -> nat)
    requires u in s.threads && t != u
    ensures var s' := Step(s, u, shard).0;
            (t in s'.threads <==> t in s.threads) && (t in s.threads ==> s'.threads[t] == s.threads[t])
  {
    R.StepThreads(s, u, shard);
  }

  /** Another thread's step leaves this thread's tracks as they are. */
  lemma ElseStepTracks(s: State, u: Tid, t: Tid, c: Option<Start>, seen: Seen, front: bool, shard: Key -> nat)
    requires Inv(s, shard) && CanStep(s, u, shard) && t != u && TrackOk(s, t, c, seen, front)
    ensures TrackOk(Step(s, u, shard).0, t, c, seen, front)
  {
    OtherThreadStays(s, u, t, shard);
    assert PhaseOk(s, t);
    if t in s.threads {
      match s.threads[t]
      case AddPublish(x) => OthersSafe(s, u, x, shard);
      case CheckRead(k, x) => OthersSafe(s, u, x, shard);
      case _ =>
    }
  }

  // ---------- runs ----------

  /** What is known of thread t in the state a run leads to. */
  ghost predicate RunOk(dim: nat, moves: seq<Move>, t: Tid, shard: Key -> nat)
    requires After(dim, moves, shard).Some?
  {
    TrackOk(After(dim, moves, shard).value, t, LastCall(moves, t), SeenBy(dim, moves, t, shard),
            FrontedBy(dim, moves, t, shard))
  }

  lemma CallTracks(dim: nat, less: seq<Move>, u: Tid, c: Start, t: Tid, shard: Key -> nat)
    requires After(dim, less, shard).Some? && RunOk(dim, less, t, shard) && u !in After(dim, less, shard).value.threads
    requires After(dim, less + [Calls(u, c)], shard).Some?
    ensures RunOk(dim, less + [Calls(u, c)], t, shard)
  {
    var moves := less + [Calls(u, c)];
    assert moves[..|moves| - 1] == less;
  }

  lemma StepTracks(dim: nat, less: seq<Move>, u: Tid, t: Tid, shard: Key -> nat)
    requires After(dim, less, shard).Some? && RunOk(dim, less, t, shard)
    requires After(dim, less + [Runs(u)], shard).Some? && CanStep(After(dim, less, shard).value, u, shard)
    ensures RunOk(dim, less + [Runs(u)], t, shard)
  {
    var moves := less + [Runs(u)];
    assert moves[..|moves| - 1] == less;
    var s := After(dim, less, shard).value;
    var c, seen, front := LastCall(less, t), SeenBy(dim, less, t, shard), FrontedBy(dim, less, t, shard);
    ReachableInv(dim, less, shard);
    if u == t {
      OwnStepTracks(s, t, c, seen, front, shard);
    } else {
      ElseStepTracks(s, u, t, c, seen, front, shard);
    }
  }

  lemma {:induction false} RunTracks(dim: nat, moves: seq<Move>, t: Tid, shard: Key -> nat)
    requires After(dim, moves, shard).Some?
    ensures RunOk(dim, moves, t, shard)
  {
    if moves != [] {
      var less := moves[..|moves| - 1];
      RunTracks(dim, less, t, shard);
      assert moves == less + [moves[|moves| - 1]];
      match moves[|moves| - 1]
      case Calls(u, c) => CallTracks(dim, less, u, c, t, shard);
      case Runs(u) => StepTracks(dim, less, u, t, shard);
    }
  }

  /**
   What calls return, in every interleaving of any number of threads. lru_check returns a miss only
   if its key was not in the table when it looked, and if it was, the value in the key's block then,
   the slot brought to the front if it was linked. lru_add reports success only if its key was not
   in the table when it inserted it, its slot holds key and value, is bound to the key and linked;
   a duplicate only if the key was there, and the slot went back. A call that has not ended goes on.
   */
  lemma AnswersAreRight(dim: nat, moves: seq<Move>, t: Tid, shard: Key -> nat)
    requires After(dim, moves, shard).Some? && CanStep(After(dim, moves, shard).value, t, shard)
    ensures var s := After(dim, moves, shard).value;
            var (s', o) := Step(s, t, shard);
            var run := moves + [Runs(t)];
            && After(dim, run, shard) == Some(s') && LastCall(run, t).Some?
            && RightAnswer(s, s', t, LastCall(run, t).value, SeenBy(dim, run, t, shard), FrontedBy(dim, run, t, shard), o)
            && (o == Goes <==> t in s'.threads)
  {
    var run := moves + [Runs(t)];
    assert run[..|run| - 1] == moves;
    ReachableInv(dim, moves, shard);
    RunTracks(dim, moves, t, shard);
    OwnStepTracks(After(dim, moves, shard).value, t, LastCall(moves, t), SeenBy(dim, moves, t, shard),
                  FrontedBy(dim, moves, t, shard), shard);
  }

  // ---------- a thread alone ----------

  /** Where n > 0 steps of thread t lead that nothing keeps it from, and what the last of them returns. */
  ghost function Alone(s: State, t: Tid, n: nat, shard: Key -> nat): Option<(State, Outcome)>
    decreases n
  {
    if n == 0 || !CanStep(s, t, shard) then None
    else if n == 1 then Some(Step(s, t, shard))
    else Alone(Step(s, t, shard).0, t, n - 1, shard)
  }

  /** Thread t is in a call on its own, in this phase. */
  ghost predicate OnlyIn(s: State, t: Tid, p: Phase)
  {
    t in s.threads && s.threads[t] == p && s.threads.Keys == {t}
  }

  /** A linked slot carries the key. */
  ghost predicate Carries(s: State, x: Slot, k: Key)
  {
    x in s.lists.linked && x in s.blocks && s.blocks[x].key == k
  }

  lemma AloneIsFree(s: State, t: Tid, k: Key, shard: Key -> nat)
    requires Inv(s, shard) && OnlyIn(s, t, CheckLook(k))
    ensures s.locks == map[]
    ensures k in s.table ==> Carries(s, s.table[k], k)
  {
    forall l ensures l !in s.locks { assert LockHeld(s, l, shard); }
    if k in s.table {
      EntrySelf(s, k, shard);
      assert EntryOk(s, k) && PlaceOk(s, s.table[k]);
      assert forall u :: !HeldBy(s, s.table[k], u);
    }
  }

  /** The last three steps, with the lock of the shard held. */
  lemma HitFrom(s: State, t: Tid, k: Key, x: Slot, shard: Key -> nat)
    requires OnlyIn(s, t, CheckRead(k, x)) && Published(s, x) && s.locks == map[shard(k) := t]
    ensures Alone(s, t, 3, shard) ==
              Some((s.(threads := map[], locks := map[], lists := L.MoveToTop(s.lists, x)), Hit(k, s.blocks[x].value)))
  {
    var v := s.blocks[x].value;
    var moving := At(s, t, CheckMove(k, x, v));
    var moved := At(s.(lists := L.MoveToTop(s.lists, x)), t, CheckUnlock(k, v));
    assert Step(s, t, shard).0 == moving;
    assert Step(moving, t, shard).0 == moved by {
      assert moving.threads[t := CheckUnlock(k, v)] == moved.threads;
    }
    assert moved.locks - {shard(k)} == map[] && moved.threads - {t} == map[];
    AloneThree(s, moving, moved, t, shard);
  }

  lemma AloneThree(s: State, one: State, two: State, t: Tid, shard: Key -> nat)
    requires CanStep(s, t, shard) && Step(s, t, shard).0 == one
    requires CanStep(one, t, shard) && Step(one, t, shard).0 == two && CanStep(two, t, shard)
    ensures Alone(s, t, 3, shard) == Some(Step(two, t, shard))
  {
    assert Alone(two, t, 1, shard) == Some(Step(two, t, shard));
    assert Alone(one, t, 2, shard) == Alone(two, t, 1, shard);
  }

  /**
   A thread alone at the start of lru_check finds its key exactly when a linked slot carries it, and
   then returns that slot's payload, with the slot in front of the list and nothing else changed.
   */
  lemma AloneHits(dim: nat, moves: seq<Move>, t: Tid, k: Key, x: Slot, shard: Key -> nat)
    requires After(dim, moves, shard).Some? && OnlyIn(After(dim, moves, shard).value, t, CheckLook(k))
    requires Carries(After(dim, moves, shard).value, x, k)
    ensures var s := After(dim, moves, shard).value;
            var lists := L.MoveToTop(s.lists, x);
            && Alone(s, t, 4, shard) == Some((s.(threads := map[], lists := lists), Hit(k, s.blocks[x].value)))
            && lists.linked[0] == x
  {
    var s := After(dim, moves, shard).value;
    ReachableInv(dim, moves, shard);
    assert LinkedOk(s, x);
    AloneIsFree(s, t, k, shard);
    var held := Step(s, t, shard).0;
    assert held.locks == map[shard(k) := t];
    HitFrom(held, t, k, x, shard);
    assert held.(threads := map[], locks := map[], lists := L.MoveToTop(s.lists, x))
        == s.(threads := map[], lists := L.MoveToTop(s.lists, x));
  }

  lemma AloneMisses(dim: nat, moves: seq<Move>, t: Tid, k: Key, shard: Key -> nat)
    requires After(dim, moves, shard).Some? && OnlyIn(After(dim, moves, shard).value, t, CheckLook(k))
    requires forall x :: !Carries(After(dim, moves, shard).value, x, k)
    ensures var s := After(dim, moves, shard).value;
            Alone(s, t, 1, shard) == Some((s.(threads := map[]), Miss))
  {
    var s := After(dim, moves, shard).value;
    ReachableInv(dim, moves, shard);
    AloneIsFree(s, t, k, shard);
    assert s.threads - {t} == map[];
  }

  /** What becomes of an entry (k, v) in slot x that a thread stores undisturbed. */
  ghost function StoredAlone(s: State, k: Key, v: Ptr, x: Slot): (State, Outcome)
  {
    var filled := s.(threads := map[], blocks := s.blocks[x := Block(k, v, x)]);
    if k in s.table then (filled.(lists := L.FreeSlot(s.lists, x)), Duplicate)
    else (filled.(table := s.table[k := x], lists := L.AddToTop(s.lists, x)), Stored)
  }

  lemma AddFrom(s: State, t: Tid, k: Key, v: Ptr, x: Slot, shard: Key -> nat)
    requires OnlyIn(s, t, AddFill(k, v, x)) && s.locks == map[]
    ensures Alone(s, t, 3, shard) == Some(StoredAlone(s, k, v, x))
  {
    var filled := Step(s, t, shard).0;
    var done := Step(filled, t, shard).0;
    assert done.threads - {t} == map[];
    AloneThree(s, filled, done, t, shard);
  }

  /**
   A thread alone that has taken a slot binds it to its key and puts it in front, or, if the key is
   there, gives it back, which leaves the entry as it was.
   */
  lemma AloneAdds(dim: nat, moves: seq<Move>, t: Tid, k: Key, v: Ptr, x: Slot, shard: Key -> nat)
    requires After(dim, moves, shard).Some? && OnlyIn(After(dim, moves, shard).value, t, AddFill(k, v, x))
    ensures var s := After(dim, moves, shard).value;
            && Alone(s, t, 3, shard) == Some(StoredAlone(s, k, v, x))
            && (k !in s.table ==> L.AddToTop(s.lists, x).linked == [x] + s.lists.linked)
  {
    var s := After(dim, moves, shard).value;
    ReachableInv(dim, moves, shard);
    forall l ensures l !in s.locks { assert LockHeld(s, l, shard); }
    assert HandOk(s, t);
    AddFrom(s, t, k, v, x, shard);
  }
}
