/**
 Whole runs of the LRU cache under threads: some thread can always go on, every call comes to its
 end, and lru_add gives up exactly when more calls of it than there are slots, or a call of
 lru_clear, may be under way with it.
 */
module LruRuns {
  import opened CTypes
  import opened FiniteSets
  import opened LruProtocol
  import L = LruList

  // ---------- no deadlock ----------

  /** A thread in a call that waits for no lock can go on. */
  lemma UnlessWaiting(s: State, t: Tid, shard: Key -> nat)
    requires t in s.threads && (s.locks == map[] || LockedKey(s.threads[t]).Some?)
    ensures CanStep(s, t, shard)
  {
  }

  /** Whoever waits for a shard lock waits for a thread that can go on. */
  lemma HolderCanStep(s: State, lock: nat, shard: Key -> nat)
    requires Inv(s, shard) && lock in s.locks
    ensures CanStep(s, s.locks[lock], shard)
  {
    assert LockHeld(s, lock, shard);
    UnlessWaiting(s, s.locks[lock], shard);
  }

  /** In every state that can be reached some thread can go on, unless no call is under way. */
  lemma SomeoneCanStep(dim: nat, moves: seq<Move>, shard: Key -> nat)
    requires After(dim, moves, shard).Some? && After(dim, moves, shard).value.threads != map[]
    ensures exists t :: CanStep(After(dim, moves, shard).value, t, shard)
  {
    ReachableInv(dim, moves, shard);
    var s := After(dim, moves, shard).value;
    if s.locks == map[] {
      var t :| t in s.threads;
      UnlessWaiting(s, t, shard);
    } else {
      var lock :| lock in s.locks;
      HolderCanStep(s, lock, shard);
    }
  }

  // ---------- every call ends ----------

  /** How much a thread in this phase may still do, apart from what it may do for each linked slot. */
  ghost function Weight(p: Phase): nat
  {
    match p
    case AddUnhash(_, _, _) => 10
    case AddRecycle(_, _, _) => 9
    case AddTake(_, _) => 8
    case AddEvict(_, _) => 7
    case AddFill(_, _, _) => 7
    case AddInsert(_, _, _) => 6
    case AddPublish(_) => 5
    case AddDiscard(_) => 1
    case CheckLook(_) => 4
    case CheckRead(_, _) => 3
    case CheckMove(_, _, _) => 2
    case CheckUnlock(_, _) => 1
    case ClearUnhash(_) => 4
    case ClearRecycle(_) => 3
    case ClearPop => 1
  }

  ghost function Pick(m: map<Tid, Phase>): Tid
    requires m != map[]
    ensures Pick(m) in m
  {
    var t :| t in m; t
  }

  ghost function Total(m: map<Tid, Phase>): nat
    decreases m.Keys
  {
    if m == map[] then 0 else Weight(m[Pick(m)]) + Total(m - {Pick(m)})
  }

  /** The sum does not depend on the order. */
  lemma {:induction false} TotalSplit(m: map<Tid, Phase>, t: Tid)
    requires t in m
    ensures Total(m) == Weight(m[t]) + Total(m - {t})
    decreases m.Keys
  {
    var u := Pick(m);
    if u != t {
      TotalSplit(m - {u}, t);
      TotalSplit(m - {t}, u);
      assert m - {u} - {t} == m - {t} - {u};
    }
  }

  lemma TotalMoves(m: map<Tid, Phase>, t: Tid, p: Phase)
    requires t in m
    ensures Total(m[t := p]) == Total(m) - Weight(m[t]) + Weight(p)
    ensures Total(m - {t}) == Total(m) - Weight(m[t])
  {
    TotalSplit(m, t);
    TotalSplit(m[t := p], t);
    assert m[t := p] - {t} == m - {t};
  }

  lemma {:induction false} TotalAtMost(m: map<Tid, Phase>)
    ensures Total(m) <= 10 * |m|
    decreases m.Keys
  {
    if m != map[] {
      var t := Pick(m);
      TotalAtMost(m - {t});
      assert (m - {t}).Keys == m.Keys - {t};
      assert |(m - {t}).Keys| == |m - {t}| && |m.Keys| == |m|;
    }
  }

  /** Bounds the steps that the calls under way can still make. */
  ghost function WorkLeft(s: State): nat
  {
    4 * |s.lists.linked| + Total(s.threads)
  }

  lemma MoveKeepsLength(v: L.View, x: Slot)
    requires L.ValidView(v)
    ensures |L.MoveToTop(v, x).linked| == |v.linked|
  {
    if x in v.linked {
      var i :| 0 <= i < |v.linked| && v.linked[i] == x;
      L.WithoutCut(v.linked, i);
    }
  }

  /** From m to m' at most the phase of thread t has changed, or it has ended its call. */
  ghost predicate OnlyMoves(m: map<Tid, Phase>, m': map<Tid, Phase>, t: Tid)
  {
    m' == if t in m' then m[t := m'[t]] else m - {t}
  }

  lemma AddMovesItself(s: State, t: Tid, shard: Key -> nat)
    requires t in s.threads && Adding(s.threads[t])
    ensures OnlyMoves(s.threads, Step(s, t, shard).0.threads, t)
  {
  }

  lemma OthersMoveThemselves(s: State, t: Tid, shard: Key -> nat)
    requires t in s.threads && !Adding(s.threads[t])
    ensures OnlyMoves(s.threads, Step(s, t, shard).0.threads, t)
  {
  }

  /** A step changes the phase of its own thread only. */
  lemma StepThreads(s: State, t: Tid, shard: Key -> nat)
    requires t in s.threads
    ensures OnlyMoves(s.threads, Step(s, t, shard).0.threads, t)
  {
    if Adding(s.threads[t]) { AddMovesItself(s, t, shard); } else { OthersMoveThemselves(s, t, shard); }
  }

  lemma AddWeighs(s: State, t: Tid, shard: Key -> nat)
    requires HandOk(s, t) && t in s.threads && Adding(s.threads[t])
    ensures var s' := Step(s, t, shard).0;
            4 * |s'.lists.linked| + (if t in s'.threads then Weight(s'.threads[t]) else 0)
            < 4 * |s.lists.linked| + Weight(s.threads[t])
  {
  }

  /** The list and the phase a step leaves weigh less than those it found. */
  lemma StepWeighs(s: State, t: Tid, shard: Key -> nat)
    requires L.ValidView(s.lists) && HandOk(s, t) && t in s.threads
    ensures var s' := Step(s, t, shard).0;
            4 * |s'.lists.linked| + (if t in s'.threads then Weight(s'.threads[t]) else 0)
            < 4 * |s.lists.linked| + Weight(s.threads[t])
  {
    if Adding(s.threads[t]) {
      AddWeighs(s, t, shard);
    } else if s.threads[t].CheckMove? {
      MoveKeepsLength(s.lists, BlockOf(s, s.threads[t].slot).self);
    }
  }

  lemma StepIsWork(s: State, t: Tid, shard: Key -> nat)
    requires L.ValidView(s.lists) && HandOk(s, t) && t in s.threads
    ensures WorkLeft(Step(s, t, shard).0) < WorkLeft(s)
  {
    var s' := Step(s, t, shard).0;
    StepWeighs(s, t, shard);
    StepThreads(s, t, shard);
    TotalMoves(s.threads, t, if t in s'.threads then s'.threads[t] else s.threads[t]);
  }

  lemma ReachableStepIsWork(dim: nat, moves: seq<Move>, t: Tid, shard: Key -> nat)
    requires After(dim, moves, shard).Some? && t in After(dim, moves, shard).value.threads
    ensures var s := After(dim, moves, shard).value; WorkLeft(Step(s, t, shard).0) < WorkLeft(s)
  {
    ReachableInv(dim, moves, shard);
    StepIsWork(After(dim, moves, shard).value, t, shard);
  }

  lemma WorkBound(dim: nat, moves: seq<Move>, shard: Key -> nat)
    requires After(dim, moves, shard).Some?
    ensures var s := After(dim, moves, shard).value; WorkLeft(s) <= 4 * dim + 10 * |s.threads|
  {
    ReachableInv(dim, moves, shard);
    TotalAtMost(After(dim, moves, shard).value.threads);
    L.SlotsAddUp(After(dim, moves, shard).value.lists);
  }

  lemma {:induction false} WorkGoesDown(dim: nat, moves: seq<Move>, more: seq<Move>, shard: Key -> nat)
    requires After(dim, moves, shard).Some? && After(dim, moves + more, shard).Some?
    requires forall i :: 0 <= i < |more| ==> more[i].Runs?
    ensures |more| + WorkLeft(After(dim, moves + more, shard).value) <= WorkLeft(After(dim, moves, shard).value)
  {
    if more == [] {
      assert moves + more == moves;
    } else {
      var less := more[..|more| - 1];
      assert (moves + more)[..|moves + more| - 1] == moves + less;
      WorkGoesDown(dim, moves, less, shard);
      ReachableStepIsWork(dim, moves + less, more[|more| - 1].t, shard);
    }
  }

  /**
   Whoever is scheduled, and however often calls take each other's slots, the calls under way at some
   point make only so many steps together; after that no call is left, for else some thread could go on.
   */
  lemma CallsEnd(dim: nat, moves: seq<Move>, more: seq<Move>, shard: Key -> nat)
    requires After(dim, moves, shard).Some? && After(dim, moves + more, shard).Some?
    requires forall i :: 0 <= i < |more| ==> more[i].Runs?
    ensures |more| <= 4 * dim + 10 * |After(dim, moves, shard).value.threads|
    ensures var s' := After(dim, moves + more, shard).value;
            s'.threads == map[] || exists t :: CanStep(s', t, shard)
  {
    WorkBound(dim, moves, shard);
    WorkGoesDown(dim, moves, more, shard);
    if After(dim, moves + more, shard).value.threads != map[] {
      SomeoneCanStep(dim, moves + more, shard);
    }
  }

  /** Four steps in a row that nothing keeps thread t from: it evicts, and then finds a slot. */
  ghost predicate EvictsAlone(s: State, t: Tid, shard: Key -> nat)
  {
    && CanStep(s, t, shard) && s.threads[t].AddEvict? && Step(s, t, shard).1 == Goes
    && var out := Step(s, t, shard).0;
    && CanStep(out, t, shard) && out.threads[t].AddUnhash?
    && var bare := Step(out, t, shard).0;
    && CanStep(bare, t, shard) && bare.threads[t].AddRecycle?
    && var gone := Step(bare, t, shard).0;
    && CanStep(gone, t, shard) && gone.threads[t].AddTake? && Step(gone, t, shard).0.threads[t].AddFill?
  }

  /**
   A thread that runs alone from the start of its loop is never kept waiting, and gets a slot after
   evicting at most once.
   */
  lemma AloneGetsASlot(dim: nat, moves: seq<Move>, shard: Key -> nat, t: Tid)
    requires After(dim, moves, shard).Some? && dim > 0
    requires var s := After(dim, moves, shard).value; s.threads.Keys == {t} && s.threads[t].AddTake?
    ensures var s := After(dim, moves, shard).value;
            var once := Step(s, t, shard).0;
            && CanStep(s, t, shard)
            && (if s.lists.free != [] then once.threads[t].AddFill? else EvictsAlone(once, t, shard))
  {
    ReachableInv(dim, moves, shard);
    var s := After(dim, moves, shard).value;
    assert forall u :: !HeldBy(s, 0, u);
    SlotsAreOwned(dim, moves, shard, 0);
    forall l ensures l !in s.locks { assert LockHeld(s, l, shard); }
  }

  // ---------- how many calls are under way ----------

  ghost predicate Adding(p: Phase)
  {
    || p.AddTake? || p.AddEvict? || p.AddUnhash? || p.AddRecycle?
    || p.AddFill? || p.AddInsert? || p.AddDiscard? || p.AddPublish?
  }

  ghost predicate Clearing(p: Phase)
  {
    p.ClearPop? || p.ClearUnhash? || p.ClearRecycle?
  }

  ghost predicate Evicting(p: Phase)
  {
    p.AddEvict?
  }

  ghost predicate Holding(p: Phase)
  {
    InHand(p).Some?
  }

  /** After each of the moves at most adds calls of lru_add and clears calls of lru_clear are under way. */
  ghost predicate Within(dim: nat, moves: seq<Move>, adds: nat, clears: nat, shard: Key -> nat)
  {
    && After(dim, moves, shard).Some?
    && |Those(After(dim, moves, shard).value.threads, Adding)| <= adds
    && |Those(After(dim, moves, shard).value.threads, Clearing)| <= clears
    && (moves == [] || Within(dim, moves[..|moves| - 1], adds, clears, shard))
  }

  // ---------- when lru_add cannot give up ----------

  /** While a thread is about to evict, the slots that are not linked leave one linked for each such thread. */
  ghost predicate Room(s: State, n: nat)
  {
    Those(s.threads, Evicting) != {} ==>
      |s.lists.free| + |Those(s.threads, Holding)| + |Those(s.threads, Evicting)| <= n
  }

  /** Without calls of lru_clear, all who hold or want a slot are in lru_add. */
  lemma AddersAre(s: State, t: Tid, n: nat)
    requires |Those(s.threads, Adding)| <= n && Those(s.threads, Clearing) == {}
    requires t in s.threads && s.threads[t].AddTake?
    ensures |Those(s.threads, Holding)| + |Those(s.threads, Evicting)| + 1 <= n
  {
    var h, e, a := Those(s.threads, Holding), Those(s.threads, Evicting), Those(s.threads, Adding);
    forall u | u in h ensures u in a { assert u !in Those(s.threads, Clearing); }
    SubsetSize(h + e + {t}, a);
    assert h !! e && t !in h + e;
  }

  lemma StepKeepsRoom(s: State, t: Tid, n: nat, shard: Key -> nat)
    requires t in s.threads && Room(s, n)
    requires |Those(s.threads, Adding)| <= n && Those(s.threads, Clearing) == {}
    ensures Room(Step(s, t, shard).0, n)
  {
    var s' := Step(s, t, shard).0;
    StepThreads(s, t, shard);
    if t in s'.threads {
      ThoseUpdate(s.threads, t, s'.threads[t], Evicting);
      ThoseUpdate(s.threads, t, s'.threads[t], Holding);
    } else {
      ThoseRemove(s.threads, t, Evicting);
      ThoseRemove(s.threads, t, Holding);
    }
    assert !Clearing(s.threads[t]) by { assert t !in Those(s.threads, Clearing); }
    if s.threads[t].AddTake? {
      AddersAre(s, t, n);
    }
    StepCounts(s, t, shard);
  }

  /** How a step of lru_add or lru_check changes the number of free slots and the slot in hand. */
  lemma StepCounts(s: State, t: Tid, shard: Key -> nat)
    requires t in s.threads && !Clearing(s.threads[t])
    ensures var s' := Step(s, t, shard).0;
            var holds, evicts := t in s'.threads && Holding(s'.threads[t]), t in s'.threads && Evicting(s'.threads[t]);
            if s.threads[t].AddTake? && s.lists.free == [] then s'.lists.free == [] && !holds
            else
              && (!Evicting(s.threads[t]) ==> |s'.lists.free| + One(holds) <= |s.lists.free| + One(Holding(s.threads[t])))
              && (Evicting(s.threads[t]) ==> |s'.lists.free| + One(holds) <= |s.lists.free| + 1)
              && !evicts
  {
  }

  lemma BeginKeepsRoom(s: State, t: Tid, c: Start, n: nat)
    requires t !in s.threads && Room(s, n)
    ensures Room(Begin(s, t, c), n)
  {
    var s' := Begin(s, t, c);
    assert Those(s'.threads, Evicting) == Those(s.threads, Evicting);
    assert Those(s'.threads, Holding) == Those(s.threads, Holding);
  }

  lemma {:induction false} RoomKept(dim: nat, moves: seq<Move>, n: nat, shard: Key -> nat)
    requires Within(dim, moves, n, 0, shard)
    ensures Room(After(dim, moves, shard).value, n)
  {
    if moves == [] {
      assert Those(Created(dim).threads, Evicting) == {};
    } else {
      var before := moves[..|moves| - 1];
      RoomKept(dim, before, n, shard);
      var s := After(dim, before, shard).value;
      match moves[|moves| - 1]
      case Calls(t, c) => BeginKeepsRoom(s, t, c, n);
      case Runs(t) => StepKeepsRoom(s, t, n, shard);
    }
  }

  /** Different slots in hand are in different hands. */
  lemma {:induction false} HandsCover(slots: set<Slot>, m: map<Tid, Phase>, hands: set<Tid>)
    requires forall x :: x in slots ==> exists t :: t in hands && t in m && InHand(m[t]) == Some(x)
    ensures |slots| <= |hands|
  {
    if slots != {} {
      var x :| x in slots;
      var t :| t in hands && t in m && InHand(m[t]) == Some(x);
      forall y | y in slots - {x} ensures exists u :: u in hands - {t} && u in m && InHand(m[u]) == Some(y) {
        var u :| u in hands && u in m && InHand(m[u]) == Some(y);
        assert u != t;
      }
      HandsCover(slots - {x}, m, hands - {t});
    }
  }

  lemma DanglingAreHeld(s: State, shard: Key -> nat)
    requires Inv(s, shard)
    ensures |L.DanglingSlots(s.lists)| <= |Those(s.threads, Holding)|
  {
    var hands := Those(s.threads, Holding);
    RangeSize(s.lists.size);
    forall x | x in L.DanglingSlots(s.lists)
      ensures exists t :: t in hands && t in s.threads && InHand(s.threads[t]) == Some(x)
    {
      assert PlaceOk(s, x);
      var t :| HeldBy(s, x, t);
      assert t in hands;
    }
    HandsCover(L.DanglingSlots(s.lists), s.threads, hands);
  }

  /** Then there is something to evict. */
  lemma RoomMeansLinked(s: State, t: Tid, shard: Key -> nat)
    requires Inv(s, shard) && Room(s, s.lists.size) && t in s.threads && s.threads[t].AddEvict?
    ensures s.lists.linked != []
  {
    DanglingAreHeld(s, shard);
    L.SlotsAddUp(s.lists);
    assert t in Those(s.threads, Evicting);
  }

  /** Only a thread about to evict can give up, and only when nothing is linked. */
  lemma OnlyEvictorsGiveUp(s: State, t: Tid, shard: Key -> nat)
    requires t in s.threads
    ensures Step(s, t, shard).1 == NoMemory <==> s.threads[t].AddEvict? && s.lists.linked == []
  {
  }

  /**
   With at most dim calls of lru_add at a time and none of lru_clear, lru_add never gives up:
   whoever finds no free slot finds one to evict.
   */
  lemma NeverGivesUp(dim: nat, moves: seq<Move>, t: Tid, shard: Key -> nat)
    requires Within(dim, moves, dim, 0, shard) && CanStep(After(dim, moves, shard).value, t, shard)
    ensures Step(After(dim, moves, shard).value, t, shard).1 != NoMemory
  {
    var s := After(dim, moves, shard).value;
    OnlyEvictorsGiveUp(s, t, shard);
    if s.threads[t].AddEvict? {
      ReachableInv(dim, moves, shard);
      RoomKept(dim, moves, dim, shard);
      RoomMeansLinked(s, t, shard);
    }
  }

  // ---------- when it can ----------

  /** One more move, with no more calls under way than allowed. */
  lemma Extend(dim: nat, moves: seq<Move>, s: State, move: Move, adders: set<Tid>, clearers: set<Tid>,
               adds: nat, clears: nat, shard: Key -> nat)
    returns (longer: seq<Move>)
    requires Within(dim, moves, adds, clears, shard) && After(dim, moves, shard) == Some(s) && Allowed(s, move, shard)
    requires |adders| <= adds && |clearers| <= clears
    requires Those(Apply(s, move, shard).threads, Adding) <= adders
    requires Those(Apply(s, move, shard).threads, Clearing) <= clearers
    ensures Within(dim, longer, adds, clears, shard) && After(dim, longer, shard) == Some(Apply(s, move, shard))
  {
    longer := moves + [move];
    assert longer[..|longer| - 1] == moves;
    SubsetSize(Those(Apply(s, move, shard).threads, Adding), adders);
    SubsetSize(Those(Apply(s, move, shard).threads, Clearing), clearers);
  }

  lemma NoMoves(dim: nat, adds: nat, clears: nat, shard: Key -> nat)
    ensures Within(dim, [], adds, clears, shard) && After(dim, [], shard) == Some(Created(dim))
  {
    assert Those(Created(dim).threads, Adding) == {} && Those(Created(dim).threads, Clearing) == {};
  }

  ghost predicate InCrowd(s: State, i: nat, t: Tid)
  {
    (t in s.threads <==> t < i) && (t in s.threads ==> s.threads[t].AddFill?)
  }

  /** i calls of lru_add by as many threads have each taken a slot. */
  ghost predicate Crowd(s: State, dim: nat, i: nat)
  {
    && s.lists.linked == [] && |s.lists.free| + i == dim
    && (forall t :: InCrowd(s, i, t))
  }

  lemma NoCrowd(dim: nat)
    ensures Crowd(Created(dim), dim, 0)
  {
  }

  /** One more thread has called lru_add. */
  ghost function Joined(s: State, i: nat): State
  {
    Begin(s, i, StartAdd([], NULL))
  }

  /** All its threads are in lru_add. */
  lemma CrowdAdds(s: State, dim: nat, i: nat, p: Phase)
    requires Crowd(s, dim, i) && Adding(p)
    ensures Those(s.threads[i := p], Adding) <= Range(i + 1) && Those(s.threads[i := p], Clearing) == {}
    ensures |Range(i + 1)| == i + 1
  {
    var m := s.threads[i := p];
    RangeSize(i + 1);
    forall u: Tid | u in m ensures u < i + 1 && Adding(m[u]) {
      assert InCrowd(s, i, u);
    }
    assert Those(m, Clearing) == {};
  }

  /** The thread that joins takes a slot too, or finds nothing free and nothing linked. */
  lemma CrowdGrows(s: State, dim: nat, i: nat, shard: Key -> nat)
    requires Crowd(s, dim, i)
    ensures i !in s.threads && CanStep(Joined(s, i), i, shard)
    ensures var s' := Step(Joined(s, i), i, shard).0;
            && i in s'.threads && Adding(s'.threads[i]) && s'.threads == s.threads[i := s'.threads[i]]
            && (if i < dim then Crowd(s', dim, i + 1) else s'.threads[i].AddEvict? && s'.lists.linked == [])
  {
    assert InCrowd(s, i, i);
    var s' := Step(Joined(s, i), i, shard).0;
    if i < dim {
      var n := i + 1;
      forall t: Tid ensures InCrowd(s', n, t) { assert InCrowd(s, i, t); }
    }
  }

  /** The two moves of the thread that joins. */
  lemma CrowdMoves(dim: nat, start: seq<Move>, s: State, i: nat, adds: nat, clears: nat, shard: Key -> nat)
    returns (moves: seq<Move>)
    requires Within(dim, start, adds, clears, shard) && After(dim, start, shard) == Some(s) && Crowd(s, dim, i) && i < adds
    ensures i in Joined(s, i).threads && Within(dim, moves, adds, clears, shard)
    ensures After(dim, moves, shard) == Some(Step(Joined(s, i), i, shard).0)
  {
    CrowdGrows(s, dim, i, shard);
    CrowdAdds(s, dim, i, AddTake([], NULL));
    moves := Extend(dim, start, s, Calls(i, StartAdd([], NULL)), Range(i + 1), {}, adds, clears, shard);
    CrowdAdds(s, dim, i, Step(Joined(s, i), i, shard).0.threads[i]);
    moves := Extend(dim, moves, Joined(s, i), Runs(i), Range(i + 1), {}, adds, clears, shard);
  }

  lemma {:induction false} ReachCrowd(dim: nat, i: nat, adds: nat, clears: nat, shard: Key -> nat)
    returns (moves: seq<Move>, s: State)
    requires i <= dim < adds
    ensures Within(dim, moves, adds, clears, shard) && After(dim, moves, shard) == Some(s) && Crowd(s, dim, i)
  {
    if i == 0 {
      moves, s := [], Created(dim);
      NoMoves(dim, adds, clears, shard);
      NoCrowd(dim);
    } else {
      moves, s := ReachCrowd(dim, i - 1, adds, clears, shard);
      moves, s := CrowdJoined(dim, moves, s, i - 1, adds, clears, shard);
    }
  }

  lemma CrowdJoined(dim: nat, start: seq<Move>, s0: State, i: nat, adds: nat, clears: nat, shard: Key -> nat)
    returns (moves: seq<Move>, s: State)
    requires Within(dim, start, adds, clears, shard) && After(dim, start, shard) == Some(s0) && Crowd(s0, dim, i)
    requires i < dim < adds
    ensures Within(dim, moves, adds, clears, shard) && After(dim, moves, shard) == Some(s) && Crowd(s, dim, i + 1)
  {
    CrowdGrows(s0, dim, i, shard);
    moves := CrowdMoves(dim, start, s0, i, adds, clears, shard);
    s := Step(Joined(s0, i), i, shard).0;
  }

  /** One call of lru_add more than there are slots, all at once: the last finds neither list with a slot. */
  lemma CrowdGivesUp(dim: nat, adds: nat, clears: nat, shard: Key -> nat) returns (moves: seq<Move>)
    requires dim < adds
    ensures Within(dim, moves, adds, clears, shard) && GivesUp(dim, moves, dim, shard)
  {
    var s;
    moves, s := ReachCrowd(dim, dim, adds, clears, shard);
    CrowdGrows(s, dim, dim, shard);
    moves := CrowdMoves(dim, moves, s, dim, adds, clears, shard);
    OnlyEvictorsGiveUp(Step(Joined(s, dim), dim, shard).0, dim, shard);
  }

  /** The next step of thread t is to return LRU_NO_MEMORY. */
  ghost predicate GivesUp(dim: nat, moves: seq<Move>, t: Tid, shard: Key -> nat)
  {
    After(dim, moves, shard).Some? &&
    var s := After(dim, moves, shard).value;
    CanStep(s, t, shard) && Step(s, t, shard).1 == NoMemory
  }

  ghost predicate MayGiveUp(dim: nat, adds: nat, clears: nat, shard: Key -> nat)
  {
    exists moves, t :: Within(dim, moves, adds, clears, shard) && GivesUp(dim, moves, t, shard)
  }

  /** A key of length n. */
  ghost function KeyOf(n: nat): Key
  {
    seq(n, _ => 1)
  }

  /** No call is under way; the keys of length 0 to i - 1 are stored. */
  ghost predicate Filled(s: State, dim: nat, i: nat)
  {
    && s.threads == map[] && s.locks == map[]
    && |s.lists.linked| == i && |s.lists.free| + i == dim
    && (forall k :: k in s.table ==> |k| < i)
  }

  /** Of the one adding thread, 0, and the one clearing thread, 1, the calls that are under way. */
  lemma TwoThreads(s: State)
    requires forall t :: t in s.threads ==> (t == 0 && Adding(s.threads[t])) || (t == 1 && Clearing(s.threads[t]))
    ensures Those(s.threads, Adding) <= {0} && Those(s.threads, Clearing) <= {1}
  {
    forall t ensures t in Those(s.threads, Adding) ==> t == 0 {
      if t in s.threads { assert t == 0 || t == 1; }
    }
    forall t ensures t in Those(s.threads, Clearing) ==> t == 1 {
      if t in s.threads { assert t == 0 || t == 1; }
    }
  }

  /** One more move of these two. */
  lemma Extend2(dim: nat, moves: seq<Move>, s: State, move: Move, adds: nat, clears: nat, shard: Key -> nat)
    returns (longer: seq<Move>)
    requires Within(dim, moves, adds, clears, shard) && After(dim, moves, shard) == Some(s) && Allowed(s, move, shard)
    requires adds > 0 && clears > 0
    requires var s' := Apply(s, move, shard);
             forall t :: t in s'.threads ==> (t == 0 && Adding(s'.threads[t])) || (t == 1 && Clearing(s'.threads[t]))
    ensures Within(dim, longer, adds, clears, shard) && After(dim, longer, shard) == Some(Apply(s, move, shard))
  {
    TwoThreads(Apply(s, move, shard));
    longer := Extend(dim, moves, s, move, {0}, {1}, adds, clears, shard);
  }

  /** Thread 0 on its way to store the key of length i, in phase p. */
  ghost predicate Storing(s: State, dim: nat, i: nat, p: Phase)
  {
    && s.threads == map[0 := p] && s.locks == map[]
    && |s.lists.linked| == i && |s.lists.free| + i + One(Holding(p)) == dim
    && (forall k :: k in s.table ==> |k| < i || p.AddPublish?)
    && (forall k :: k in s.table ==> |k| < i + 1)
  }

  lemma StoringGoesOn(s: State, dim: nat, i: nat, p: Phase, shard: Key -> nat)
    requires i < dim && Storing(s, dim, i, p)
    requires p.AddTake? || p.AddFill? || p.AddInsert?
    requires p.key == KeyOf(i)
    ensures CanStep(s, 0, shard)
    ensures var s' := Step(s, 0, shard).0;
            && 0 in s'.threads && Storing(s', dim, i, s'.threads[0])
            && (p.AddTake? ==> s'.threads[0].AddFill? && s'.threads[0].key == KeyOf(i))
            && (p.AddFill? ==> s'.threads[0].AddInsert? && s'.threads[0].key == KeyOf(i))
            && (p.AddInsert? ==> s'.threads[0].AddPublish?)
  {
    if p.AddInsert? {
      assert KeyOf(i) !in s.table;
    }
  }

  lemma StoringEnds(s: State, dim: nat, i: nat, p: Phase, shard: Key -> nat)
    requires Storing(s, dim, i, p) && p.AddPublish? && HandOk(s, 0)
    ensures CanStep(s, 0, shard) && Filled(Step(s, 0, shard).0, dim, i + 1)
  {
    assert s.threads - {0} == map[];
  }

  /** Thread 0 stores the key of length i. */
  lemma StoreOne(dim: nat, start: seq<Move>, s0: State, i: nat, adds: nat, clears: nat, shard: Key -> nat)
    returns (moves: seq<Move>, s: State)
    requires Within(dim, start, adds, clears, shard) && After(dim, start, shard) == Some(s0)
    requires adds > 0 && clears > 0 && Filled(s0, dim, i) && i < dim
    ensures Within(dim, moves, adds, clears, shard) && After(dim, moves, shard) == Some(s) && Filled(s, dim, i + 1)
  {
    var s1 := Begin(s0, 0, StartAdd(KeyOf(i), NULL));
    moves := Extend2(dim, start, s0, Calls(0, StartAdd(KeyOf(i), NULL)), adds, clears, shard);
    moves, s := StoringMove(dim, moves, s1, i, adds, clears, shard);
    moves, s := StoringMove(dim, moves, s, i, adds, clears, shard);
    moves, s := StoringMove(dim, moves, s, i, adds, clears, shard);
    ReachableHand(dim, moves, 0, shard);
    StoringEnds(s, dim, i, s.threads[0], shard);
    moves := Extend2(dim, moves, s, Runs(0), adds, clears, shard);
    s := Step(s, 0, shard).0;
  }

  /** Before the last step of the call. */
  ghost predicate StoringKey(s: State, dim: nat, i: nat)
  {
    0 in s.threads && Storing(s, dim, i, s.threads[0])
  }

  lemma StoringMove(dim: nat, start: seq<Move>, s0: State, i: nat, adds: nat, clears: nat, shard: Key -> nat)
    returns (moves: seq<Move>, s: State)
    requires Within(dim, start, adds, clears, shard) && After(dim, start, shard) == Some(s0)
    requires adds > 0 && clears > 0 && i < dim && StoringKey(s0, dim, i)
    requires s0.threads[0].AddTake? || s0.threads[0].AddFill? || s0.threads[0].AddInsert?
    requires s0.threads[0].key == KeyOf(i)
    ensures Within(dim, moves, adds, clears, shard) && After(dim, moves, shard) == Some(s) && StoringKey(s, dim, i)
    ensures s0.threads[0].AddTake? ==> s.threads[0].AddFill? && s.threads[0].key == KeyOf(i)
    ensures s0.threads[0].AddFill? ==> s.threads[0].AddInsert? && s.threads[0].key == KeyOf(i)
    ensures s0.threads[0].AddInsert? ==> s.threads[0].AddPublish?
  {
    StoringGoesOn(s0, dim, i, s0.threads[0], shard);
    s := Step(s0, 0, shard).0;
    moves := Extend2(dim, start, s0, Runs(0), adds, clears, shard);
  }

  lemma ReachableHand(dim: nat, moves: seq<Move>, t: Tid, shard: Key -> nat)
    requires After(dim, moves, shard).Some?
    ensures HandOk(After(dim, moves, shard).value, t) && PhaseOk(After(dim, moves, shard).value, t)
  {
    ReachableInv(dim, moves, shard);
  }

  lemma {:induction false} FillUp(dim: nat, i: nat, adds: nat, clears: nat, shard: Key -> nat)
    returns (moves: seq<Move>, s: State)
    requires i <= dim && adds > 0 && clears > 0
    ensures Within(dim, moves, adds, clears, shard) && After(dim, moves, shard) == Some(s) && Filled(s, dim, i)
  {
    if i == 0 {
      moves, s := [], Created(dim);
      NoMoves(dim, adds, clears, shard);
    } else {
      moves, s := FillUp(dim, i - 1, adds, clears, shard);
      moves, s := StoreOne(dim, moves, s, i - 1, adds, clears, shard);
    }
  }

  /** Thread 0 has found no free slot; thread 1 is clearing the cache and n slots are still linked. */
  ghost predicate Emptying(s: State, dim: nat, n: nat)
  {
    && s.threads.Keys == {0, 1} && s.threads[0].AddEvict? && Clearing(s.threads[1]) && s.locks == map[]
    && |s.lists.linked| == n && |s.lists.free| + n + One(Holding(s.threads[1])) == dim
  }

  lemma EmptyingGoesOn(s: State, dim: nat, n: nat, shard: Key -> nat)
    requires Emptying(s, dim, n) && PhaseOk(s, 1)
    requires s.threads[1].ClearPop? ==> n > 0
    ensures CanStep(s, 1, shard)
    ensures var p, s' := s.threads[1], Step(s, 1, shard).0;
            && (if p.ClearPop? then Emptying(s', dim, n - 1) else Emptying(s', dim, n))
            && (p.ClearPop? ==> s'.threads[1].ClearUnhash?) && (p.ClearUnhash? ==> s'.threads[1].ClearRecycle?)
            && (p.ClearRecycle? ==> s'.threads[1].ClearPop?)
  {
  }

  lemma ClearStep(dim: nat, start: seq<Move>, s0: State, n: nat, adds: nat, clears: nat, shard: Key -> nat)
    returns (moves: seq<Move>, s: State)
    requires Within(dim, start, adds, clears, shard) && After(dim, start, shard) == Some(s0)
    requires adds > 0 && clears > 0 && Emptying(s0, dim, n) && (s0.threads[1].ClearPop? ==> n > 0)
    ensures Within(dim, moves, adds, clears, shard) && After(dim, moves, shard) == Some(s)
    ensures if s0.threads[1].ClearPop? then Emptying(s, dim, n - 1) else Emptying(s, dim, n)
    ensures s0.threads[1].ClearPop? ==> s.threads[1].ClearUnhash?
    ensures s0.threads[1].ClearUnhash? ==> s.threads[1].ClearRecycle?
    ensures s0.threads[1].ClearRecycle? ==> s.threads[1].ClearPop?
  {
    ReachableHand(dim, start, 1, shard);
    EmptyingGoesOn(s0, dim, n, shard);
    s := Step(s0, 1, shard).0;
    moves := Extend2(dim, start, s0, Runs(1), adds, clears, shard);
  }

  lemma {:induction false} ClearAll(dim: nat, start: seq<Move>, s0: State, n: nat, adds: nat, clears: nat, shard: Key -> nat)
    returns (moves: seq<Move>, s: State)
    requires Within(dim, start, adds, clears, shard) && After(dim, start, shard) == Some(s0)
    requires adds > 0 && clears > 0 && Emptying(s0, dim, n) && s0.threads[1].ClearPop?
    ensures Within(dim, moves, adds, clears, shard) && After(dim, moves, shard) == Some(s)
    ensures Emptying(s, dim, 0) && s.threads[1].ClearPop?
    decreases n
  {
    if n == 0 {
      moves, s := start, s0;
    } else {
      moves, s := ClearStep(dim, start, s0, n, adds, clears, shard);
      moves, s := ClearStep(dim, moves, s, n - 1, adds, clears, shard);
      moves, s := ClearStep(dim, moves, s, n - 1, adds, clears, shard);
      moves, s := ClearAll(dim, moves, s, n - 1, adds, clears, shard);
    }
  }

  /**
   One call of lru_add and one of lru_clear are enough: between the two looks of lru_add, at the free
   list and at the list, lru_clear may have emptied the one into the other. Then LRU_NO_MEMORY is
   returned although every slot of the cache is free.
   */
  lemma GivesUpWithAllFree(dim: nat, adds: nat, clears: nat, shard: Key -> nat) returns (moves: seq<Move>)
    requires dim > 0 && adds > 0 && clears > 0
    ensures Within(dim, moves, adds, clears, shard) && GivesUp(dim, moves, 0, shard)
    ensures |After(dim, moves, shard).value.lists.free| == dim
  {
    var s, s0;
    moves, s0 := FillUp(dim, dim, adds, clears, shard);
    var s2 := LooksInVain(s0, dim, shard);
    moves := Extend2(dim, moves, s0, Calls(0, StartAdd([], NULL)), adds, clears, shard);
    moves := Extend2(dim, moves, Begin(s0, 0, StartAdd([], NULL)), Runs(0), adds, clears, shard);
    moves := Extend2(dim, moves, s2, Calls(1, StartClear), adds, clears, shard);
    moves, s := ClearAll(dim, moves, Begin(s2, 1, StartClear), dim, adds, clears, shard);
    OnlyEvictorsGiveUp(s, 0, shard);
  }

  /** Thread 0 calls lru_add on a full cache, and finds no free slot. */
  lemma LooksInVain(s0: State, dim: nat, shard: Key -> nat) returns (s: State)
    requires Filled(s0, dim, dim)
    ensures var s1 := Begin(s0, 0, StartAdd([], NULL));
            && s1.threads.Keys == {0} && s1.threads[0].AddTake? && CanStep(s1, 0, shard) && s == Step(s1, 0, shard).0
    ensures s.threads.Keys == {0} && s.threads[0].AddEvict? && Emptying(Begin(s, 1, StartClear), dim, dim)
  {
    s := Step(Begin(s0, 0, StartAdd([], NULL)), 0, shard).0;
  }

  /**
   Exactly when lru_add may give up, by the most calls of lru_add and of lru_clear that are ever under
   way at once: when there may be more of the first than slots, or any of the second.
   */
  lemma GivesUpExactly(dim: nat, adds: nat, clears: nat, shard: Key -> nat)
    ensures MayGiveUp(dim, adds, clears, shard) <==> adds > 0 && (adds > dim || clears > 0)
  {
    if adds > dim {
      var moves := CrowdGivesUp(dim, adds, clears, shard);
    } else if adds > 0 && clears > 0 {
      var moves := GivesUpWithAllFree(dim, adds, clears, shard);
    } else {
      forall moves, t | Within(dim, moves, adds, clears, shard) ensures !GivesUp(dim, moves, t, shard) {
        if After(dim, moves, shard).Some? && CanStep(After(dim, moves, shard).value, t, shard) {
          StaysIn(dim, moves, adds, clears, t, shard);
        }
      }
    }
  }

  lemma StaysIn(dim: nat, moves: seq<Move>, adds: nat, clears: nat, t: Tid, shard: Key -> nat)
    requires Within(dim, moves, adds, clears, shard) && CanStep(After(dim, moves, shard).value, t, shard)
    requires adds == 0 || (adds <= dim && clears == 0)
    ensures Step(After(dim, moves, shard).value, t, shard).1 != NoMemory
  {
    if adds == 0 {
      assert t !in Those(After(dim, moves, shard).value.threads, Adding);
    } else {
      WithinMore(dim, moves, adds, dim, shard);
      NeverGivesUp(dim, moves, t, shard);
    }
  }

  lemma {:induction false} WithinMore(dim: nat, moves: seq<Move>, adds: nat, more: nat, shard: Key -> nat)
    requires Within(dim, moves, adds, 0, shard) && adds <= more
    ensures Within(dim, moves, more, 0, shard)
  {
    if moves != [] {
      WithinMore(dim, moves[..|moves| - 1], adds, more, shard);
    }
  }
}
