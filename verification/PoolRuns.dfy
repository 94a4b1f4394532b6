/**
 What the pool's invariant means for whole runs: no job is lost or run twice, a wait returns exactly
 what was outstanding, and thp_destroy comes to its end.
 */
module PoolRuns {
  import opened CTypes
  import opened FiniteSets
  import opened ThreadPool

  // ---------- jobs ----------

  /** The workers that a map shows with job j. */
  ghost function With(m: map<Wid, JobId>, j: JobId): set<Wid>
  {
    set w | w in m.Keys && m[w] == j
  }

  /** The callers on their way to put job j into the in-queue. */
  ghost function Bringing(p: Pool, j: JobId): set<Tid>
  {
    (set t | t in p.wanting.Keys && p.wanting[t] == WantAdd(j))
    + (if p.holder.Some? && p.holder.value.1 == AddPut(j) then {p.holder.value.0} else {})
  }

  ghost function Collecting(p: Pool, j: JobId): nat
  {
    if p.holder.Some? && p.holder.value.1.WaitGot? && p.holder.value.1.job == j then 1 else 0
  }

  /** How often job j occurs anywhere: with a caller, queued, with a worker, waiting to be collected, freed. */
  ghost function Occurrences(p: Pool, j: JobId): nat
  {
    |Bringing(p, j)| + multiset(p.inQueue)[Job(j)] + |With(p.work.running, j)| + |With(p.work.handing, j)|
    + multiset(p.waitQueue)[j] + Collecting(p, j) + p.books.freed[j]
  }

  ghost predicate OneIf<T>(s: set<T>, c: bool)
  {
    |s| == if c then 1 else 0
  }

  lemma RunningOnce(p: Pool, j: JobId)
    requires JobsOk(p)
    ensures OneIf(With(p.work.running, j), j in p.books.place && p.books.place[j].OnWorker?)
  {
    assert HandsOk(p, j);
    forall w | w in With(p.work.running, j) ensures At(p.books, j, OnWorker(w)) {
      assert WorkerHolds(p, w);
    }
    if j in p.books.place && p.books.place[j].OnWorker? {
      assert With(p.work.running, j) == {p.books.place[j].w};
    } else {
      assert With(p.work.running, j) == {};
    }
  }

  lemma HandingOnce(p: Pool, j: JobId)
    requires JobsOk(p)
    ensures OneIf(With(p.work.handing, j), j in p.books.place && p.books.place[j].Finished?)
  {
    assert HandsOk(p, j);
    forall w | w in With(p.work.handing, j) ensures At(p.books, j, Finished(w)) {
      assert WorkerHolds(p, w);
    }
    if j in p.books.place && p.books.place[j].Finished? {
      assert With(p.work.handing, j) == {p.books.place[j].w};
    } else {
      assert With(p.work.handing, j) == {};
    }
  }

  lemma BroughtOnce(p: Pool, j: JobId)
    requires JobsOk(p)
    ensures OneIf(Bringing(p, j), j in p.books.place && p.books.place[j].Carried?)
  {
    assert HandsOk(p, j);
    forall t | t in Bringing(p, j) ensures At(p.books, j, Carried(t)) {
      assert CallerHolds(p, t);
    }
    if j in p.books.place && p.books.place[j].Carried? {
      assert Bringing(p, j) == {p.books.place[j].t};
    } else {
      assert Bringing(p, j) == {};
    }
  }

  lemma CollectedOnce(p: Pool, j: JobId)
    requires JobsOk(p)
    ensures Collecting(p, j) == if At(p.books, j, Collected) then 1 else 0
  {
    assert HandsOk(p, j);
    if p.holder.Some? {
      assert CallerHolds(p, p.holder.value.0);
    }
  }

  /**
   In every interleaving each job handed to thp_add is in exactly one place, has run at most once, is
   freed at most once, and not before it has run.
   */
  lemma EachJobOnce(size: nat, moves: seq<Move>, j: JobId)
    requires After(size, moves).Some?
    ensures var p := After(size, moves).value;
            && Occurrences(p, j) == (if j < p.books.created then 1 else 0)
            && p.books.freed[j] <= p.books.executed[j] <= 1
            && (p.books.executed[j] == 0 ==> multiset(p.waitQueue)[j] == 0 && With(p.work.handing, j) == {})
  {
    ReachableInv(size, moves);
    var p := After(size, moves).value;
    RunningOnce(p, j);
    HandingOnce(p, j);
    BroughtOnce(p, j);
    CollectedOnce(p, j);
    assert LedgerOk(p, j);
  }

  /**
   Conservation: what is still to be waited for, corrected for the caller that is between two of its
   updates, is what is queued, running, or waiting to be collected; the rest of what was submitted is freed.
   */
  lemma Conservation(size: nat, moves: seq<Move>)
    requires After(size, moves).Some?
    ensures var p := After(size, moves).value;
            && p.toBeWaited + Correction(p.holder)
               == Jobs(p.inQueue) + |p.work.running| + |p.work.handing| + |p.waitQueue|
            && p.submitted == p.toBeWaited + |p.books.freed|
  {
    ReachableInv(size, moves);
    SubmittedOrFreed(size, moves);
  }

  lemma SubmittedKept(p: Pool, m: Move)
    requires Allowed(p, m) && p.submitted == p.toBeWaited + |p.books.freed|
    ensures var p' := Apply(p, m).0; p'.submitted == p'.toBeWaited + |p'.books.freed|
  {
  }

  lemma {:induction false} SubmittedOrFreed(size: nat, moves: seq<Move>)
    requires After(size, moves).Some?
    ensures var p := After(size, moves).value; p.submitted == p.toBeWaited + |p.books.freed|
  {
    if moves != [] {
      var before := moves[..|moves| - 1];
      SubmittedOrFreed(size, before);
      SubmittedKept(After(size, before).value, moves[|moves| - 1]);
    }
  }

  /** An empty pool of outstanding jobs has no job in any place but with a caller or freed. */
  lemma NoneOutstanding(p: Pool, j: JobId)
    requires JobsOk(p) && Outstanding(p) == 0 && j in p.books.place && Collecting(p, j) == 0
    ensures p.books.place[j].Carried? || p.books.place[j].Freed?
  {
    NoJobs(p.inQueue, j);
    assert LedgerOk(p, j) && HandsOk(p, j);
  }

  lemma {:induction false} NoJobs(q: seq<Item>, j: JobId)
    requires Jobs(q) == 0
    ensures multiset(q)[Job(j)] == 0
  {
    if q != [] {
      NoJobs(q[..|q| - 1], j);
      assert q == q[..|q| - 1] + [q[|q| - 1]];
    }
  }

  /** A wait that takes the mutex is due exactly what is outstanding then. */
  lemma WaitTakesOutstanding(size: nat, moves: seq<Move>, t: Tid)
    requires After(size, moves).Some?
    requires var p := After(size, moves).value; Allowed(p, Lock(t)) && p.wanting[t] == WantWait
    ensures var p := After(size, moves).value;
            var (p', o) := LockStep(p, t);
            if Outstanding(p) == 0 then o == Waited(0, 0)
            else o == Goes && p'.holder == Some((t, WaitLoop(0, Outstanding(p))))
  {
    ReachableInv(size, moves);
    LockKeeps(After(size, moves).value, t);
  }

  lemma AllPutAreFreed(p: Pool, j: JobId)
    requires JobsOk(p) && CountOk(p) && p.holder.None? && p.toBeWaited == 0
    requires j < p.books.created && Bringing(p, j) == {}
    ensures p.books.executed[j] == 1 && p.books.freed[j] == 1
  {
    assert LedgerOk(p, j);
    BroughtOnce(p, j);
    NoneOutstanding(p, j);
  }

  lemma WaitedCount(p: Pool, m: Move)
    requires WaitOk(p) && Allowed(p, m) && Apply(p, m).1.Waited?
    ensures var (p', o) := Apply(p, m);
            o.count == o.due && p'.toBeWaited == 0 && p'.holder.None?
  {
  }

  /**
   thp_wait returns exactly the number that was outstanding when it took the mutex, it never reports
   another wait, and when it returns every job put so far has run exactly once and is freed.
   */
  lemma WaitReturns(size: nat, moves: seq<Move>, m: Move)
    requires After(size, moves).Some? && Allowed(After(size, moves).value, m)
    ensures var (p', o) := Apply(After(size, moves).value, m);
            && o != TooManyWaits
            && (o.Waited? ==>
                && o.count == o.due && p'.toBeWaited == 0 && |p'.books.freed| == p'.submitted
                && forall j: JobId :: j < p'.books.created && Bringing(p', j) == {} ==>
                               p'.books.executed[j] == 1 && p'.books.freed[j] == 1)
  {
    ReachableInv(size, moves);
    var p := After(size, moves).value;
    ApplyKeeps(p, m);
    SubmittedOrFreed(size, moves);
    SubmittedKept(p, m);
    if Apply(p, m).1.Waited? {
      WaitedCount(p, m);
      var p' := Apply(p, m).0;
      forall j: JobId | j < p'.books.created && Bringing(p', j) == {}
        ensures p'.books.executed[j] == 1 && p'.books.freed[j] == 1
      {
        AllPutAreFreed(p', j);
      }
    }
  }

  /** A pool with threads cannot deadlock in thp_wait: while its get is blocked some worker can step. */
  lemma WaitGoesOn(size: nat, moves: seq<Move>)
    requires After(size, moves).Some? && size > 0
    requires var p := After(size, moves).value; p.holder.Some? && !HolderCanStep(p)
    ensures exists w {:trigger WorkerStep(w)} :: Allowed(After(size, moves).value, WorkerStep(w))
  {
    ReachableInv(size, moves);
    var p := After(size, moves).value;
    if p.work.running != map[] {
      var w :| w in p.work.running;
      assert Allowed(p, WorkerStep(w));
    } else if p.work.handing != map[] {
      var w :| w in p.work.handing;
      assert Allowed(p, WorkerStep(w));
    } else {
      assert Jobs(p.inQueue) > 0;
      assert 0 !in p.work.exited;
      assert Allowed(p, WorkerStep(0));
    }
  }

  // ---------- what the workers still have to do ----------

  /** Bounds the steps that the workers can make with what is queued and in their hands. */
  ghost function WorkersLeft(p: Pool): int
  {
    3 * Jobs(p.inQueue) + 2 * |p.work.running| + |p.work.handing| + Markers(p.inQueue)
  }

  lemma WorkersLeftOk(p: Pool)
    ensures WorkersLeft(p) >= 0
  {
    JobsAtMost(p.inQueue);
  }

  lemma RunComesNearer(p: Pool, w: Wid)
    requires w in p.work.running && w !in p.work.handing
    ensures WorkersLeft(RunStep(p, w)) < WorkersLeft(p)
  {
    MapRemove(p.work.running, w);
    MapAdd(p.work.handing, w, p.work.running[w]);
  }

  lemma HandComesNearer(p: Pool, w: Wid)
    requires w in p.work.handing
    ensures WorkersLeft(HandStep(p, w)) < WorkersLeft(p)
  {
    MapRemove(p.work.handing, w);
  }

  lemma GetComesNearer(p: Pool, w: Wid)
    requires w !in p.work.running && p.inQueue != []
    ensures WorkersLeft(GetStep(p, w)) < WorkersLeft(p)
  {
    JobsTail(p.inQueue);
    if p.inQueue[0].Job? {
      MapAdd(p.work.running, w, p.inQueue[0].id);
    }
  }

  lemma WorkComesNearer(p: Pool, w: Wid)
    requires WorkersOk(p.work, p.size) && Allowed(p, WorkerStep(w))
    ensures WorkersLeft(WorkStep(p, w)) < WorkersLeft(p)
  {
    assert WorkerOk(p.work, p.size, w);
    if w in p.work.running {
      RunComesNearer(p, w);
    } else if w in p.work.handing {
      HandComesNearer(p, w);
    } else {
      GetComesNearer(p, w);
    }
  }

  /** A caller is in thp_wait with the mutex. */
  ghost predicate Waiting(p: Pool)
  {
    p.holder.Some? && (p.holder.value.1.WaitLoop? || p.holder.value.1.WaitGot?)
  }

  /** Bounds the steps of workers and waiter until thp_wait returns. */
  ghost function WaitStepsLeft(p: Pool): int
  {
    WorkersLeft(p) + 2 * p.toBeWaited + if p.holder.Some? && p.holder.value.1.WaitLoop? then 1 else 0
  }

  /**
   While thp_wait is under way, no job is put: each step of a worker or of the waiter brings its end
   nearer, and the calls of other threads do not put it off.
   */
  lemma WaitComesNearer(p: Pool, m: Move)
    requires Inv(p) && p.closing == Open && Waiting(p) && Allowed(p, m) && !m.CallDestroy?
    ensures 0 <= WaitStepsLeft(p)
    ensures var (p', o) := Apply(p, m);
            if m.WorkerStep? then Waiting(p') && WaitStepsLeft(p') < WaitStepsLeft(p)
            else if m.HolderStep? then
              if o.Waited? then !Waiting(p') else Waiting(p') && WaitStepsLeft(p') < WaitStepsLeft(p)
            else Waiting(p') && WaitStepsLeft(p') == WaitStepsLeft(p)
  {
    WaitDue(p);
    WorkersLeftOk(p);
    if m.WorkerStep? {
      WorkComesNearer(p, m.w);
      WorkKeepsCallers(p, m.w);
    }
  }

  lemma WaitDue(p: Pool)
    requires CountOk(p) && Waiting(p)
    ensures p.toBeWaited >= 0 && (p.holder.value.1.WaitGot? ==> p.toBeWaited > 0)
  {
  }

  // ---------- thp_destroy ----------

  ghost function Stage(p: Pool): int
  {
    match p.closing
    case Open => 0
    case Marking(t, i) => 2 * (p.size - i) + p.size + 2 * p.toBeWaited + 4
    case Joining(t, i) => p.size - i + 2 * p.toBeWaited + 3
    case Draining(t) =>
      if p.holder.None? then 2 * p.toBeWaited + 2
      else 2 * p.toBeWaited + if p.holder.value.1.WaitGot? then 0 else 1
    case Closed => 0
  }

  /** Bounds the number of steps that are left once thp_destroy has begun. */
  ghost function StepsLeft(p: Pool): int
  {
    WorkersLeft(p) + Stage(p)
  }

  lemma CloseComesNearer(p: Pool)
    requires ClosingOk(p) && Allowed(p, DestroyStep)
    ensures StepsLeft(CloseStep(p)) < StepsLeft(p)
  {
    JobsAppend(p.inQueue, Marker);
  }

  lemma FinalWaitComesNearer(p: Pool)
    requires ClosingOk(p) && p.closing.Draining? && HolderCanStep(p)
    ensures StepsLeft(HoldStep(p).0) < StepsLeft(p)
  {
  }

  lemma LockComesNearer(p: Pool, t: Tid)
    requires ClosingOk(p) && p.closing.Draining? && !p.waitRunning && Allowed(p, Lock(t))
    ensures StepsLeft(LockStep(p, t).0) < StepsLeft(p)
  {
  }

  lemma StepComesNearer(p: Pool, m: Move)
    requires Inv(p) && p.closing != Open && Allowed(p, m)
    ensures StepsLeft(Apply(p, m).0) < StepsLeft(p)
  {
    match m
    case WorkerStep(w) => WorkComesNearer(p, w); WorkKeepsCallers(p, w);
    case DestroyStep => CloseComesNearer(p);
    case HolderStep => FinalWaitComesNearer(p);
    case Lock(t) => LockComesNearer(p, t);
  }

  lemma StaysBegun(p: Pool, m: Move)
    requires p.closing != Open && Allowed(p, m)
    ensures Apply(p, m).0.closing != Open
  {
  }

  /** Once thp_destroy has begun every step brings the end nearer. */
  lemma ComesNearer(p: Pool, m: Move)
    requires Inv(p) && p.closing != Open && Allowed(p, m)
    ensures 0 <= StepsLeft(Apply(p, m).0) < StepsLeft(p)
    ensures Apply(p, m).0.closing != Open
  {
    StepComesNearer(p, m);
    StaysBegun(p, m);
    ApplyKeeps(p, m);
    StepsLeftOk(Apply(p, m).0);
  }

  lemma StepsLeftOk(p: Pool)
    requires Inv(p)
    ensures StepsLeft(p) >= 0
  {
    JobsAtMost(p.inQueue);
  }

  /** What is left to be done after all workers have ended: nothing but collecting what the wait-queue holds. */
  lemma AllHaveRun(p: Pool)
    requires Inv(p) && p.size > 0 && AllExited(p)
    ensures Jobs(p.inQueue) == 0 && p.work.running == map[] && p.work.handing == map[]
    ensures |p.waitQueue| == p.toBeWaited + Correction(p.holder)
  {
    assert 0 in p.work.exited;
    forall w ensures w !in p.work.running && w !in p.work.handing {
      assert WorkerOk(p.work, p.size, w);
    }
  }

  /** From the last join on, every job put before thp_destroy was called has run, exactly once. */
  lemma JobsRunBeforeTheLastJoin(size: nat, moves: seq<Move>, j: JobId)
    requires After(size, moves).Some? && size > 0
    requires var p := After(size, moves).value;
             p.closing.Draining? || p.closing.Closed? || (p.closing.Joining? && p.closing.i == size)
    requires j < After(size, moves).value.books.created
    ensures After(size, moves).value.books.executed[j] == 1
  {
    ReachableInv(size, moves);
    var p := After(size, moves).value;
    AllHaveRun(p);
    NoJobs(p.inQueue, j);
    assert LedgerOk(p, j) && HandsOk(p, j);
  }

  /** Each worker consumes one marker: as many have ended as markers have left the queue, none is over at the end. */
  lemma OneMarkerEach(size: nat, moves: seq<Move>)
    requires After(size, moves).Some?
    ensures var p := After(size, moves).value;
            && (p.closing.Marking? ==> |p.work.exited| == p.closing.i - Markers(p.inQueue))
            && (p.closing.Joining? ==> |p.work.exited| == size - Markers(p.inQueue))
            && (p.closing.Joining? && p.closing.i == size ==> Markers(p.inQueue) == 0)
  {
    ReachableInv(size, moves);
    var p := After(size, moves).value;
    if p.closing.Joining? && p.closing.i == size {
      AllWorkers(p.work, size);
      JobsAtMost(p.inQueue);
    }
  }

  lemma AllWorkers(k: Workers, size: nat)
    requires WorkersOk(k, size) && forall w :: 0 <= w < size ==> w in k.exited
    ensures |k.exited| == size
  {
    forall w: Wid ensures w in k.exited ==> w < size {
      assert WorkerOk(k, size, w);
    }
    RangeSize(size);
    assert k.exited == Range(size);
  }

  /** Without workers nothing is ever finished. */
  lemma {:induction false} NothingFinished(size: nat, moves: seq<Move>)
    requires size == 0 && After(size, moves).Some?
    ensures var p := After(size, moves).value; p.waitQueue == [] && !(p.holder.Some? && p.holder.value.1.WaitGot?)
  {
    if moves != [] {
      var before := moves[..|moves| - 1];
      NothingFinished(size, before);
      ReachableInv(size, before);
      NobodyFinishes(After(size, before).value, moves[|moves| - 1]);
    }
  }

  lemma NobodyFinishes(p: Pool, m: Move)
    requires WorkersOk(p.work, 0) && p.size == 0 && Allowed(p, m)
    requires p.waitQueue == [] && !(p.holder.Some? && p.holder.value.1.WaitGot?)
    ensures var p' := Apply(p, m).0; p'.waitQueue == [] && !(p'.holder.Some? && p'.holder.value.1.WaitGot?)
  {
    forall w ensures !Busy(p, w) { assert WorkerOk(p.work, 0, w); }
  }

  /** While destroying, before the final wait, something can be done: a worker's next step or the next join. */
  lemma JoiningGoesOn(p: Pool)
    requires Inv(p) && p.closing.Joining?
    ensures Allowed(p, DestroyStep) || Allowed(p, WorkerStep(p.closing.i))
  {
    var i := p.closing.i;
    if i < p.size && i !in p.work.exited {
      assert WorkerOk(p.work, p.size, i);
      if p.inQueue == [] {
        AllButOne(p.work, p.size, i);
      }
    }
  }

  lemma AllButOne(k: Workers, size: nat, i: nat)
    requires WorkersOk(k, size) && i < size && i !in k.exited
    ensures |k.exited| < size
  {
    forall w: Wid ensures w in k.exited ==> w < size {
      assert WorkerOk(k, size, w);
    }
    RangeSize(size);
    assert k.exited <= Range(size) - {i};
    SubsetSize(k.exited, Range(size) - {i});
  }

  ghost predicate Stuck(p: Pool)
  {
    forall m {:trigger Allowed(p, m)} :: !Allowed(p, m)
  }

  /**
   thp_destroy once begun can always go on, except for a pool created with no threads on which a job
   is outstanding: there, and only there, its final wait blocks for ever.
   */
  lemma StuckExactly(size: nat, moves: seq<Move>)
    requires After(size, moves).Some?
    requires var p := After(size, moves).value; p.closing != Open && p.closing != Closed
    ensures var p := After(size, moves).value;
            Stuck(p) <==> size == 0 && p.toBeWaited != 0 && p.holder.Some?
  {
    ReachableInv(size, moves);
    var p := After(size, moves).value;
    if p.closing.Marking? {
      assert Allowed(p, DestroyStep);
    } else if p.closing.Joining? {
      JoiningGoesOn(p);
    } else if p.holder.None? {
      assert Allowed(p, Lock(p.closing.t));
    } else if size > 0 {
      AllHaveRun(p);
      assert Allowed(p, HolderStep);
    } else {
      NothingFinished(size, moves);
      EmptyPoolStuck(p);
    }
  }

  lemma EmptyPoolStuck(p: Pool)
    requires Inv(p) && p.size == 0 && p.closing.Draining? && p.holder.Some?
    requires p.waitQueue == [] && !p.holder.value.1.WaitGot?
    ensures Stuck(p) <==> p.toBeWaited != 0
  {
    if p.toBeWaited == 0 {
      assert Allowed(p, HolderStep);
    } else {
      forall m ensures !Allowed(p, m) {
        if m.WorkerStep? { assert WorkerOk(p.work, 0, m.w); }
      }
    }
  }

  /** After its end no step is left. */
  lemma ClosedIsTheEnd(p: Pool, m: Move)
    requires Inv(p) && p.closing == Closed
    ensures !Allowed(p, m)
  {
    if m.WorkerStep? {
      assert WorkerOk(p.work, p.size, m.w);
      if p.size > 0 { AllHaveRun(p); }
    }
  }

  /**
   However the steps interleave, a run makes at most StepsLeft steps after a point at which thp_destroy
   has begun.
   */
  lemma {:induction false} DestroyIsBounded(size: nat, moves: seq<Move>, more: seq<Move>)
    requires After(size, moves + more).Some? && After(size, moves).Some?
    requires After(size, moves).value.closing != Open
    ensures 0 <= StepsLeft(After(size, moves + more).value) <= StepsLeft(After(size, moves).value) - |more|
    ensures After(size, moves + more).value.closing != Open
  {
    var all := moves + more;
    ReachableInv(size, moves);
    if more == [] {
      assert all == moves;
      StepsLeftOk(After(size, moves).value);
    } else {
      var before := all[..|all| - 1];
      assert before == moves + more[..|more| - 1];
      DestroyIsBounded(size, moves, more[..|more| - 1]);
      BoundedStep(size, all, StepsLeft(After(size, moves).value) - |more[..|more| - 1]|);
    }
  }

  lemma BoundedStep(size: nat, all: seq<Move>, bound: int)
    requires all != [] && After(size, all).Some?
    requires var p := After(size, all[..|all| - 1]);
             p.Some? ==> p.value.closing != Open && StepsLeft(p.value) <= bound
    ensures After(size, all).value.closing != Open && 0 <= StepsLeft(After(size, all).value) < bound
  {
    var p := After(size, all[..|all| - 1]).value;
    ReachableInv(size, all[..|all| - 1]);
    ComesNearer(p, all[|all| - 1]);
  }

  /** With at least one thread, a run that cannot be continued has completed thp_destroy, with every job run and freed. */
  lemma DestroyCompletes(size: nat, moves: seq<Move>)
    requires After(size, moves).Some? && size > 0
    requires After(size, moves).value.closing != Open && Stuck(After(size, moves).value)
    ensures var p := After(size, moves).value;
            && p.closing == Closed && p.toBeWaited == 0
            && forall j: JobId :: j < p.books.created ==> p.books.executed[j] == 1 && p.books.freed[j] == 1
  {
    var p := After(size, moves).value;
    if p.closing != Closed {
      StuckExactly(size, moves);
    }
    ReachableInv(size, moves);
    AllFreed(p);
  }

  lemma AllFreed(p: Pool)
    requires Inv(p) && p.closing == Closed && p.size > 0
    ensures forall j: JobId :: j < p.books.created ==> p.books.executed[j] == 1 && p.books.freed[j] == 1
  {
    AllHaveRun(p);
    forall j: JobId | j < p.books.created ensures p.books.executed[j] == 1 && p.books.freed[j] == 1 {
      assert LedgerOk(p, j) && HandsOk(p, j);
      NoneOutstanding(p, j);
    }
  }

  // ---------- when thp_destroy hangs ----------

  lemma EmptyPoolStepKeeps(p: Pool, m: Move)
    requires Inv(p) && p.size == 0 && p.closing != Open && Allowed(p, m)
    requires !(p.holder.Some? && p.holder.value.1.WaitGot?)
    ensures Apply(p, m).0.toBeWaited == p.toBeWaited
  {
  }

  /** In a pool without threads what is to be waited for stays so, once thp_destroy has begun. */
  lemma {:induction false} EmptyPoolKeeps(size: nat, moves: seq<Move>, more: seq<Move>)
    requires size == 0 && After(size, moves + more).Some? && After(size, moves).Some?
    requires After(size, moves).value.closing != Open
    ensures After(size, moves + more).value.toBeWaited == After(size, moves).value.toBeWaited
  {
    var all := moves + more;
    if more == [] {
      assert all == moves;
    } else {
      var before := all[..|all| - 1];
      assert before == moves + more[..|more| - 1];
      EmptyPoolKeeps(size, moves, more[..|more| - 1]);
      DestroyIsBounded(size, moves, more[..|more| - 1]);
      ReachableInv(size, before);
      NothingFinished(size, before);
      EmptyPoolStepKeeps(After(size, before).value, all[|all| - 1]);
    }
  }

  /**
   However the steps interleave after thp_destroy has been called in state p: in a state q with no step
   left it has completed if and only if the pool has a thread or nothing was to be waited for at the
   call; and when it has completed no step is left, of any thread.
   */
  lemma DestroyOutcome(size: nat, moves: seq<Move>, p: Pool, more: seq<Move>, q: Pool)
    requires After(size, moves) == Some(p) && p.closing.Marking? && p.closing.i == 0
    requires After(size, moves + more) == Some(q)
    ensures q.closing == Closed ==> Stuck(q)
    ensures Stuck(q) ==> (q.closing == Closed <==> size > 0 || p.toBeWaited == 0)
  {
    DestroyIsBounded(size, moves, more);
    if q.closing == Closed {
      ReachableInv(size, moves + more);
      forall m ensures !Allowed(q, m) { ClosedIsTheEnd(q, m); }
    }
    if Stuck(q) {
      if size > 0 {
        DestroyCompletes(size, moves + more);
      } else {
        EmptyPoolKeeps(size, moves, more);
        EmptyPoolOutcome(size, moves + more);
      }
    }
  }

  lemma EmptyPoolOutcome(size: nat, moves: seq<Move>)
    requires size == 0 && After(size, moves).Some?
    requires After(size, moves).value.closing != Open && Stuck(After(size, moves).value)
    ensures After(size, moves).value.closing == Closed <==> After(size, moves).value.toBeWaited == 0
  {
    ReachableInv(size, moves);
    if After(size, moves).value.closing != Closed {
      StuckExactly(size, moves);
    }
  }

  lemma Extend(size: nat, moves: seq<Move>, p: Pool, m: Move) returns (longer: seq<Move>)
    requires After(size, moves) == Some(p) && Allowed(p, m)
    ensures longer == moves + [m] && After(size, longer) == Some(Apply(p, m).0)
  {
    longer := moves + [m];
    assert longer[..|longer| - 1] == moves;
  }

  /** A job that was added to a pool without threads. */
  ghost function OneAdded(): Pool
  {
    var books := Books(1, map[0 := Queued], multiset{}, multiset{});
    Pool(0, [Job(0)], [], Workers(map[], map[], {}), 1, 1, false, map[], None, Open, books)
  }

  lemma ReachOneAdded() returns (moves: seq<Move>)
    ensures After(0, moves) == Some(OneAdded())
  {
    var p0 := New(0);
    moves := Extend(0, [], p0, CallAdd(0));
    var p1 := Apply(p0, CallAdd(0)).0;
    moves := Extend(0, moves, p1, Lock(0));
    var p2 := Apply(p1, Lock(0)).0;
    moves := Extend(0, moves, p2, HolderStep);
    var p3 := Apply(p2, HolderStep).0;
    moves := Extend(0, moves, p3, HolderStep);
    assert Apply(p3, HolderStep).0 == OneAdded();
  }

  /** A run in which thp_destroy hangs: one job added to a pool without threads. */
  lemma EmptyPoolHangs()
    ensures exists moves: seq<Move> :: After(0, moves).Some? && Stuck(After(0, moves).value)
                                       && After(0, moves).value.closing == Draining(1)
  {
    var moves := ReachOneAdded();
    var p0 := OneAdded();
    moves := Extend(0, moves, p0, CallDestroy(1));
    var p1 := Apply(p0, CallDestroy(1)).0;
    moves := Extend(0, moves, p1, DestroyStep);
    var p2 := Apply(p1, DestroyStep).0;
    moves := Extend(0, moves, p2, DestroyStep);
    var p3 := Apply(p2, DestroyStep).0;
    moves := Extend(0, moves, p3, Lock(1));
    var p4 := Apply(p3, Lock(1)).0;
    assert p4.closing == Draining(1) && p4.toBeWaited == 1 && p4.holder.Some?;
    StuckExactly(0, moves);
  }
}
