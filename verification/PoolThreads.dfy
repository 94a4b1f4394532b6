/**
 The thread pool as its threads run: a worker or a waiter that finds its channel empty goes to sleep on
 the channel's condition variable, a put wakes at least one sleeper if there is one, sleepers may also
 wake for no reason, and thp_add reads the count it returns after it has left the mutex. Every run of
 this machine is a run of ThreadPool between naps, and no sleeper ever keeps the pool from going on.
 */
module PoolThreads {
  import opened CTypes
  import opened FiniteSets
  import opened ThreadPool
  import C = ChannelProtocol
  import R = PoolRuns

  /**
   atWork are the workers asleep on or woken from the in-queue's condition variable, atWait the waiters
   of the wait-queue's, returning the adders that are yet to read the count, with the number of their job.
   */
  datatype Threads = Threads(p: Pool, atWork: C.Sleepers, atWait: C.Sleepers, returning: map<Tid, int>)

  datatype Act =
    | Does(m: Move, wakes: set<nat>)   // a step of the pool, and whom its signal wakes
    | WorkerSleeps(w: Wid)
    | WaiterSleeps(t: Tid)
    | AddReturns(t: Tid)
    | SpuriousWorker(w: Wid)
    | SpuriousWaiter(t: Tid)

  // ---------- the steps ----------

  /** The step puts an item in the in-queue. */
  ghost predicate PutsIn(p: Pool, m: Move)
  {
    || (m.HolderStep? && p.holder.Some? && p.holder.value.1.AddPut?)
    || (m.DestroyStep? && p.closing.Marking? && p.closing.i < p.size)
  }

  /** The step puts a finished job in the wait-queue. */
  ghost predicate PutsWait(p: Pool, m: Move)
  {
    m.WorkerStep? && m.w in p.work.handing && m.w !in p.work.running
  }

  ghost predicate CountsJob(p: Pool, m: Move)
  {
    m.HolderStep? && p.holder.Some? && p.holder.value.1.AddCount?
  }

  /** The thread that is to take the step is awake, and in no other call. */
  ghost predicate Ready(s: Threads, m: Move)
  {
    match m
    case WorkerStep(w) => w !in s.atWork.asleep
    case HolderStep => s.p.holder.Some? && s.p.holder.value.0 !in s.atWait.asleep
    case CallAdd(t) => t !in s.returning
    case CallWait(t) => t !in s.returning
    case CallDestroy(_) => s.returning == map[]
    case _ => true
  }

  /** The caller with the mutex is in the get of thp_wait. */
  ghost predicate AtGet(p: Pool, t: Tid)
  {
    p.holder.Some? && p.holder.value.0 == t && p.holder.value.1.WaitLoop? && p.toBeWaited != 0
  }

  ghost predicate Can(s: Threads, a: Act)
  {
    match a
    case Does(m, wakes) =>
      && Allowed(s.p, m) && Ready(s, m)
      && (if PutsIn(s.p, m) then C.MayWake(s.atWork.asleep, true, wakes)
          else C.MayWake(s.atWait.asleep, PutsWait(s.p, m), wakes))
    case WorkerSleeps(w) => Idle(s.p, w) && s.p.inQueue == [] && w !in s.atWork.asleep
    case WaiterSleeps(t) => AtGet(s.p, t) && s.p.waitQueue == [] && t !in s.atWait.asleep
    case AddReturns(t) => t in s.returning
    case SpuriousWorker(w) => w in s.atWork.asleep
    case SpuriousWaiter(t) => t in s.atWait.asleep
  }

  /** The workers after step m: a put wakes some, a worker that takes a step is no longer one just woken. */
  ghost function WorkersAfter(s: Threads, m: Move, wakes: set<nat>): C.Sleepers
  {
    if PutsIn(s.p, m) then C.Woke(s.atWork, wakes)
    else if m.WorkerStep? then C.Left(s.atWork, m.w)
    else s.atWork
  }

  ghost function WaitersAfter(s: Threads, m: Move, wakes: set<nat>): C.Sleepers
  {
    if PutsWait(s.p, m) then C.Woke(s.atWait, wakes)
    else if m.HolderStep? && s.p.holder.Some? then C.Left(s.atWait, s.p.holder.value.0)
    else s.atWait
  }

  ghost function ReturningAfter(s: Threads, m: Move): map<Tid, int>
  {
    if CountsJob(s.p, m) then s.returning[s.p.holder.value.0 := s.p.submitted + 1] else s.returning
  }

  ghost function Do(s: Threads, a: Act): Threads
    requires Can(s, a)
  {
    match a
    case Does(m, wakes) =>
      Threads(Apply(s.p, m).0, WorkersAfter(s, m, wakes), WaitersAfter(s, m, wakes), ReturningAfter(s, m))
    case WorkerSleeps(w) => s.(atWork := C.Slept(s.atWork, w))
    case WaiterSleeps(t) => s.(atWait := C.Slept(s.atWait, t))
    case AddReturns(t) => s.(returning := s.returning - {t})
    case SpuriousWorker(w) => s.(atWork := C.Woke(s.atWork, {w}))
    case SpuriousWaiter(t) => s.(atWait := C.Woke(s.atWait, {t}))
  }

  /** What thp_add returns: the count of jobs submitted as it is when the caller reads it. */
  ghost function AddResult(s: Threads): int
  {
    s.p.submitted
  }

  ghost function Start(size: nat): Threads
  {
    Threads(New(size), C.Sleepers({}, {}), C.Sleepers({}, {}), map[])
  }

  /** The state a run leads to from a new pool, if each of its acts is possible. */
  ghost function RunTo(size: nat, acts: seq<Act>): Option<Threads>
  {
    if acts == [] then Some(Start(size))
    else
      match RunTo(size, acts[..|acts| - 1])
      case None => None
      case Some(s) => if Can(s, acts[|acts| - 1]) then Some(Do(s, acts[|acts| - 1])) else None
  }

  // ---------- every run is a run of the pool ----------

  /** The steps of the pool in a run. */
  ghost function Steps(acts: seq<Act>): seq<Move>
  {
    if acts == [] then []
    else Steps(acts[..|acts| - 1]) + if acts[|acts| - 1].Does? then [acts[|acts| - 1].m] else []
  }

  lemma {:induction false} StepsConcat(a: seq<Act>, b: seq<Act>)
    ensures Steps(a + b) == Steps(a) + Steps(b)
  {
    if b == [] {
      assert a + b == a;
    } else {
      var n := |b| - 1;
      assert (a + b)[..|a + b| - 1] == a + b[..n];
      StepsConcat(a, b[..n]);
      assert Steps(b) == Steps(b[..n]) + if b[n].Does? then [b[n].m] else [];
    }
  }

  /** What is proved of the runs of ThreadPool holds of the pool in these runs too. */
  lemma {:induction false} RunsArePoolRuns(size: nat, acts: seq<Act>)
    requires RunTo(size, acts).Some?
    ensures After(size, Steps(acts)) == Some(RunTo(size, acts).value.p)
  {
    if acts != [] {
      var before := acts[..|acts| - 1];
      RunsArePoolRuns(size, before);
      if acts[|acts| - 1].Does? {
        var longer := R.Extend(size, Steps(before), RunTo(size, before).value.p, acts[|acts| - 1].m);
        assert Steps(acts) == Steps(before) + [acts[|acts| - 1].m];
      } else {
        assert Steps(acts) == Steps(before) + [] == Steps(before);
      }
    }
  }

  /** The pool with all its threads awake and no adder on its way out. */
  ghost function AllAwake(p: Pool): Threads
  {
    Threads(p, C.Sleepers({}, {}), C.Sleepers({}, {}), map[])
  }

  lemma Extend(size: nat, acts: seq<Act>, s: Threads, a: Act) returns (longer: seq<Act>)
    requires RunTo(size, acts) == Some(s) && Can(s, a)
    ensures longer == acts + [a] && RunTo(size, longer) == Some(Do(s, a))
  {
    longer := acts + [a];
    assert longer[..|longer| - 1] == acts;
  }

  lemma AwakeStep(p: Pool, m: Move)
    requires Allowed(p, m)
    ensures Can(AllAwake(p), Does(m, {}))
    ensures Do(AllAwake(p), Does(m, {})) == AllAwake(Apply(p, m).0).(returning := ReturningAfter(AllAwake(p), m))
  {
  }

  /** Conversely any run of the pool is one of these runs, in which all stay awake. */
  lemma {:induction false} PoolRunsAreRuns(size: nat, moves: seq<Move>) returns (acts: seq<Act>)
    requires After(size, moves).Some?
    ensures RunTo(size, acts) == Some(AllAwake(After(size, moves).value))
  {
    if moves == [] {
      acts := [];
    } else {
      var m, p := moves[|moves| - 1], After(size, moves[..|moves| - 1]).value;
      acts := PoolRunsAreRuns(size, moves[..|moves| - 1]);
      AwakeStep(p, m);
      acts := Extend(size, acts, AllAwake(p), Does(m, {}));
      if CountsJob(p, m) {
        var s := Do(AllAwake(p), Does(m, {}));
        assert s.returning - {p.holder.value.0} == map[];
        acts := Extend(size, acts, s, AddReturns(p.holder.value.0));
      }
    }
  }

  // ---------- the invariant ----------

  /** No wake-up is lost: while one sleeps, what is there to take has as many woken threads coming for it. */
  ghost predicate Covered(w: C.Sleepers, avail: int)
  {
    C.Covered(w, |w.asleep| + |w.woken|, avail, true)
  }

  ghost predicate WorkerAtGet(s: Threads, w: Wid)
  {
    C.Waits(s.atWork, w) ==> Idle(s.p, w)
  }

  ghost predicate WaiterAtGet(s: Threads, t: Tid)
  {
    C.Waits(s.atWait, t) ==> AtGet(s.p, t)
  }

  /** An adder on its way out is in no other call, and the number of its job is its own. */
  ghost predicate AdderOut(s: Threads, t: Tid)
  {
    t in s.returning ==>
      && !InCall(s.p, t) && 0 < s.returning[t] <= s.p.submitted
      && forall u :: u in s.returning && u != t ==> s.returning[u] != s.returning[t]
  }

  ghost predicate Sound(s: Threads)
  {
    && Inv(s.p) && s.p.submitted >= 0
    && Covered(s.atWork, |s.p.inQueue|) && Covered(s.atWait, |s.p.waitQueue|)
    && (forall w :: WorkerAtGet(s, w))
    && (forall t :: WaiterAtGet(s, t))
    && (forall t :: AdderOut(s, t))
    && (s.p.closing != Open ==> s.returning == map[])
  }

  // ---------- every act keeps it ----------

  lemma WokeKeeps(w: C.Sleepers, avail: int, wakes: set<nat>)
    requires Covered(w, avail) && C.MayWake(w.asleep, true, wakes)
    ensures Covered(C.Woke(w, wakes), avail + 1)
  {
    C.WokeCovered(w, |w.asleep| + |w.woken|, avail, true, wakes);
  }

  /** A thread that is not asleep takes something. */
  lemma LeftKeeps(w: C.Sleepers, avail: int, t: nat)
    requires Covered(w, avail) && t !in w.asleep
    ensures Covered(C.Left(w, t), avail - 1)
  {
    C.LeftCovered(w, |w.asleep| + |w.woken|, avail, true, t, t in w.woken);
  }

  /** A thread that is not asleep finds nothing. */
  lemma SleptKeeps(w: C.Sleepers, t: nat)
    requires Covered(w, 0) && t !in w.asleep
    ensures Covered(C.Slept(w, t), 0)
  {
    C.SleptCovered(w, |w.asleep| + |w.woken|, 0, true, t, t in w.woken);
  }

  lemma NotWaiting(w: C.Sleepers, t: nat)
    requires !C.Waits(w, t)
    ensures C.Left(w, t) == w
  {
    assert w.woken - {t} == w.woken;
  }

  /** How a step of the pool changes the in-queue. */
  lemma InQueueAfter(p: Pool, m: Move)
    requires Allowed(p, m)
    ensures var q := Apply(p, m).0.inQueue;
            if PutsIn(p, m) then |q| == |p.inQueue| + 1
            else if m.WorkerStep? && !Busy(p, m.w) then |q| == |p.inQueue| - 1
            else q == p.inQueue
  {
  }

  lemma WaitQueueAfter(p: Pool, m: Move)
    requires Allowed(p, m)
    ensures var q := Apply(p, m).0.waitQueue;
            if PutsWait(p, m) then |q| == |p.waitQueue| + 1
            else if m.HolderStep? && AtGet(p, p.holder.value.0) then |q| == |p.waitQueue| - 1
            else q == p.waitQueue
  {
  }

  lemma StepKeepsWork(s: Threads, m: Move, wakes: set<nat>)
    requires Sound(s) && Can(s, Does(m, wakes))
    ensures Covered(WorkersAfter(s, m, wakes), |Apply(s.p, m).0.inQueue|)
  {
    InQueueAfter(s.p, m);
    if PutsIn(s.p, m) {
      WokeKeeps(s.atWork, |s.p.inQueue|, wakes);
    } else if m.WorkerStep? {
      assert WorkerAtGet(s, m.w);
      if Busy(s.p, m.w) {
        NotWaiting(s.atWork, m.w);
      } else {
        LeftKeeps(s.atWork, |s.p.inQueue|, m.w);
      }
    }
  }

  lemma StepKeepsWait(s: Threads, m: Move, wakes: set<nat>)
    requires Sound(s) && Can(s, Does(m, wakes))
    ensures Covered(WaitersAfter(s, m, wakes), |Apply(s.p, m).0.waitQueue|)
  {
    WaitQueueAfter(s.p, m);
    if PutsWait(s.p, m) {
      WokeKeeps(s.atWait, |s.p.waitQueue|, wakes);
    } else if m.HolderStep? {
      var t := s.p.holder.value.0;
      assert WaiterAtGet(s, t);
      if AtGet(s.p, t) {
        LeftKeeps(s.atWait, |s.p.waitQueue|, t);
      } else {
        NotWaiting(s.atWait, t);
      }
    }
  }

  /** A worker at its get stays there until it takes a step itself. */
  lemma IdleStays(p: Pool, m: Move, w: Wid)
    requires Allowed(p, m) && Idle(p, w) && m != WorkerStep(w)
    ensures Idle(Apply(p, m).0, w)
  {
  }

  /** A waiter at its get stays there until it takes a step itself: it has the mutex. */
  lemma AtGetStays(p: Pool, m: Move, t: Tid)
    requires Allowed(p, m) && AtGet(p, t) && !m.HolderStep?
    ensures AtGet(Apply(p, m).0, t)
  {
  }

  lemma StepKeepsGets(s: Threads, m: Move, wakes: set<nat>)
    requires Sound(s) && Can(s, Does(m, wakes))
    ensures var s' := Do(s, Does(m, wakes));
            (forall w :: WorkerAtGet(s', w)) && (forall t :: WaiterAtGet(s', t))
  {
    var s' := Do(s, Does(m, wakes));
    forall w ensures WorkerAtGet(s', w) {
      assert WorkerAtGet(s, w);
      if C.Waits(s'.atWork, w) { IdleStays(s.p, m, w); }
    }
    forall t ensures WaiterAtGet(s', t) {
      assert WaiterAtGet(s, t);
      if C.Waits(s'.atWait, t) { AtGetStays(s.p, m, t); }
    }
  }

  /** Only the caller itself enters a call, and the jobs counted do not become fewer. */
  lemma CallersAfter(p: Pool, m: Move, t: Tid)
    requires Allowed(p, m) && !InCall(p, t) && m != CallAdd(t) && m != CallWait(t) && p.closing == Open
    ensures !InCall(Apply(p, m).0, t)
  {
  }

  lemma SubmittedAfter(p: Pool, m: Move)
    requires Allowed(p, m)
    ensures Apply(p, m).0.submitted == p.submitted + if CountsJob(p, m) then 1 else 0
  {
  }

  lemma CounterLeaves(p: Pool, m: Move)
    requires Allowed(p, m) && CountsJob(p, m) && CallersOk(p)
    ensures !InCall(Apply(p, m).0, p.holder.value.0)
  {
  }

  /** Once thp_destroy has begun no job is counted any more. */
  lemma ClosingCounts(p: Pool, m: Move)
    requires ClosingOk(p) && Allowed(p, m) && (p.closing != Open || m.CallDestroy?)
    ensures !CountsJob(p, m)
  {
  }

  lemma StaysOpen(p: Pool, m: Move)
    requires Allowed(p, m) && Apply(p, m).0.closing != Open
    ensures p.closing != Open || m.CallDestroy?
  {
  }

  lemma StepKeepsAdders(s: Threads, m: Move, wakes: set<nat>)
    requires Sound(s) && Can(s, Does(m, wakes))
    ensures var s' := Do(s, Does(m, wakes));
            (forall t :: AdderOut(s', t)) && (s'.p.closing != Open ==> s'.returning == map[])
  {
    var s' := Do(s, Does(m, wakes));
    SubmittedAfter(s.p, m);
    if s.p.closing != Open || m.CallDestroy? {
      ClosingCounts(s.p, m);
    } else if s'.p.closing != Open {
      StaysOpen(s.p, m);
    }
    if CountsJob(s.p, m) {
      CounterLeaves(s.p, m);
    }
    forall t ensures AdderOut(s', t) {
      assert AdderOut(s, t);
      assert forall u :: u in s.returning ==> AdderOut(s, u);
      if t in s.returning { CallersAfter(s.p, m, t); }
    }
  }

  lemma NapKeepsWork(s: Threads, k: C.Sleepers)
    requires Sound(s) && Covered(k, |s.p.inQueue|)
    requires forall w :: C.Waits(k, w) ==> Idle(s.p, w)
    ensures Sound(s.(atWork := k))
  {
    var s' := s.(atWork := k);
    forall w ensures WorkerAtGet(s', w) { assert WorkerAtGet(s, w); }
    forall t ensures WaiterAtGet(s', t) { assert WaiterAtGet(s, t); }
    forall t ensures AdderOut(s', t) { assert AdderOut(s, t); }
  }

  lemma NapKeepsWait(s: Threads, k: C.Sleepers)
    requires Sound(s) && Covered(k, |s.p.waitQueue|)
    requires forall t :: C.Waits(k, t) ==> AtGet(s.p, t)
    ensures Sound(s.(atWait := k))
  {
    var s' := s.(atWait := k);
    forall w ensures WorkerAtGet(s', w) { assert WorkerAtGet(s, w); }
    forall t ensures WaiterAtGet(s', t) { assert WaiterAtGet(s, t); }
    forall t ensures AdderOut(s', t) { assert AdderOut(s, t); }
  }

  lemma ReturnKeeps(s: Threads, t: Tid)
    requires Sound(s)
    ensures Sound(s.(returning := s.returning - {t}))
  {
    var s' := s.(returning := s.returning - {t});
    forall w ensures WorkerAtGet(s', w) { assert WorkerAtGet(s, w); }
    forall u ensures WaiterAtGet(s', u) { assert WaiterAtGet(s, u); }
    forall u ensures AdderOut(s', u) { assert AdderOut(s, u); }
  }

  lemma StepKeeps(s: Threads, m: Move, wakes: set<nat>)
    requires Sound(s) && Can(s, Does(m, wakes))
    ensures Sound(Do(s, Does(m, wakes)))
  {
    ApplyKeeps(s.p, m);
    SubmittedAfter(s.p, m);
    StepKeepsWork(s, m, wakes);
    StepKeepsWait(s, m, wakes);
    StepKeepsGets(s, m, wakes);
    StepKeepsAdders(s, m, wakes);
  }

  lemma WorkerFallsAsleep(s: Threads, w: Wid)
    requires Sound(s) && Can(s, WorkerSleeps(w))
    ensures Sound(Do(s, WorkerSleeps(w)))
  {
    SleptKeeps(s.atWork, w);
    forall v | C.Waits(C.Slept(s.atWork, w), v) ensures Idle(s.p, v) { assert WorkerAtGet(s, v); }
    NapKeepsWork(s, C.Slept(s.atWork, w));
  }

  lemma WorkerWakes(s: Threads, w: Wid)
    requires Sound(s) && Can(s, SpuriousWorker(w))
    ensures Sound(Do(s, SpuriousWorker(w)))
  {
    C.SpuriousCovered(s.atWork, |s.atWork.asleep| + |s.atWork.woken|, |s.p.inQueue|, true, w);
    forall v | C.Waits(C.Woke(s.atWork, {w}), v) ensures Idle(s.p, v) { assert WorkerAtGet(s, v); }
    NapKeepsWork(s, C.Woke(s.atWork, {w}));
  }

  lemma WaiterFallsAsleep(s: Threads, t: Tid)
    requires Sound(s) && Can(s, WaiterSleeps(t))
    ensures Sound(Do(s, WaiterSleeps(t)))
  {
    SleptKeeps(s.atWait, t);
    forall v | C.Waits(C.Slept(s.atWait, t), v) ensures AtGet(s.p, v) { assert WaiterAtGet(s, v); }
    NapKeepsWait(s, C.Slept(s.atWait, t));
  }

  lemma WaiterWakes(s: Threads, t: Tid)
    requires Sound(s) && Can(s, SpuriousWaiter(t))
    ensures Sound(Do(s, SpuriousWaiter(t)))
  {
    C.SpuriousCovered(s.atWait, |s.atWait.asleep| + |s.atWait.woken|, |s.p.waitQueue|, true, t);
    forall v | C.Waits(C.Woke(s.atWait, {t}), v) ensures AtGet(s.p, v) { assert WaiterAtGet(s, v); }
    NapKeepsWait(s, C.Woke(s.atWait, {t}));
  }

  lemma DoKeeps(s: Threads, a: Act)
    requires Sound(s) && Can(s, a)
    ensures Sound(Do(s, a))
  {
    match a
    case Does(m, wakes) => StepKeeps(s, m, wakes);
    case WorkerSleeps(w) => WorkerFallsAsleep(s, w);
    case SpuriousWorker(w) => WorkerWakes(s, w);
    case WaiterSleeps(t) => WaiterFallsAsleep(s, t);
    case SpuriousWaiter(t) => WaiterWakes(s, t);
    case AddReturns(t) => ReturnKeeps(s, t);
  }

  lemma StartSound(size: nat)
    ensures Sound(Start(size))
  {
    ReachableInv(size, []);
  }

  lemma {:induction false} RunSound(size: nat, acts: seq<Act>)
    requires RunTo(size, acts).Some?
    ensures Sound(RunTo(size, acts).value) && RunTo(size, acts).value.p.size == size
  {
    if acts == [] {
      StartSound(size);
    } else {
      var before := acts[..|acts| - 1];
      RunSound(size, before);
      DoKeeps(RunTo(size, before).value, acts[|acts| - 1]);
    }
    RunsArePoolRuns(size, acts);
    ReachableInv(size, Steps(acts));
  }

  // ---------- what follows ----------

  /**
   In every interleaving, while a worker sleeps each item of the in-queue has a woken worker coming for
   it, and while the waiter sleeps the wait-queue is empty.
   */
  lemma NoLostWakeUp(size: nat, acts: seq<Act>)
    requires RunTo(size, acts).Some?
    ensures var s := RunTo(size, acts).value;
            && (s.atWork.asleep != {} ==> |s.p.inQueue| <= |s.atWork.woken|)
            && (s.atWait.asleep != {} ==> s.p.waitQueue == [])
  {
    RunSound(size, acts);
    OneWaiter(RunTo(size, acts).value);
  }

  /** The mutex lets one waiter in at a time. */
  lemma OneWaiter(s: Threads)
    requires Sound(s)
    ensures |s.atWait.asleep| <= 1
    ensures s.atWait.asleep != {} ==> s.p.holder.Some? && s.atWait.asleep == {s.p.holder.value.0} && s.atWait.woken == {}
    ensures s.atWait.asleep != {} ==> s.p.waitQueue == []
  {
    if s.atWait.asleep != {} {
      var t :| t in s.atWait.asleep;
      assert WaiterAtGet(s, t);
      forall u | u in s.atWait.asleep ensures u == t { assert WaiterAtGet(s, u); }
      forall u | u in s.atWait.woken ensures u == t { assert WaiterAtGet(s, u); }
      assert s.atWait.asleep == {t};
      assert s.atWait.woken == {};
    }
  }

  /** thp_add returns at least the number its own job got, which no other call's job has. */
  lemma AddReturnsItsCount(size: nat, acts: seq<Act>, t: Tid)
    requires RunTo(size, acts).Some? && t in RunTo(size, acts).value.returning
    ensures var s := RunTo(size, acts).value;
            && Can(s, AddReturns(t)) && 0 < s.returning[t] <= AddResult(s)
            && forall u :: u in s.returning && u != t ==> s.returning[u] != s.returning[t]
  {
    RunSound(size, acts);
    assert AdderOut(RunTo(size, acts).value, t);
  }

  ghost predicate Spurious(a: Act)
  {
    a.SpuriousWorker? || a.SpuriousWaiter?
  }

  /** Nothing can happen but wake-ups for no reason. */
  ghost predicate AtRest(s: Threads)
  {
    forall a :: Can(s, a) ==> Spurious(a)
  }

  /** A worker can go on whenever the pool lets one: itself, or one that was woken in its place. */
  lemma WorkerGoesOn(s: Threads, w: Wid) returns (a: Act)
    requires Sound(s) && Allowed(s.p, WorkerStep(w))
    ensures a.Does? && a.m.WorkerStep? && Can(s, a)
  {
    var u := w;
    assert WorkerAtGet(s, w);
    if w in s.atWork.asleep {
      assert s.atWork.woken != {};
      u :| u in s.atWork.woken;
      assert WorkerAtGet(s, u);
    }
    a := Does(WorkerStep(u), if PutsWait(s.p, WorkerStep(u)) then s.atWait.asleep else {});
  }

  /** Sleeping hides no step: when the pool can go on, so can its threads as they are. */
  lemma SleepHidesNothing(s: Threads, m: Move)
    requires Sound(s) && Allowed(s.p, m)
    ensures !AtRest(s)
  {
    var a;
    if m.WorkerStep? {
      a := WorkerGoesOn(s, m.w);
    } else if m.HolderStep? {
      HolderIsAwake(s);
      a := Does(m, if PutsIn(s.p, m) then s.atWork.asleep else {});
    } else if Ready(s, m) {
      a := Does(m, if PutsIn(s.p, m) then s.atWork.asleep else {});
    } else {
      var t :| t in s.returning;
      a := AddReturns(t);
    }
    assert Can(s, a) && !Spurious(a);
  }

  /** A caller that can take its next step does not sleep. */
  lemma HolderIsAwake(s: Threads)
    requires Sound(s) && HolderCanStep(s.p)
    ensures s.p.holder.value.0 !in s.atWait.asleep
  {
    OneWaiter(s);
    assert WaiterAtGet(s, s.p.holder.value.0);
  }

  lemma RestMeansStuck(s: Threads)
    requires Sound(s) && AtRest(s)
    ensures R.Stuck(s.p)
  {
    forall m ensures !Allowed(s.p, m) {
      if Allowed(s.p, m) { SleepHidesNothing(s, m); }
    }
  }

  /** A pool with threads cannot deadlock in thp_wait: while its get finds nothing, asleep or not, some worker can step. */
  lemma WaitGoesOn(size: nat, acts: seq<Act>, t: Tid)
    requires RunTo(size, acts).Some? && size > 0
    requires var s := RunTo(size, acts).value; AtGet(s.p, t) && s.p.waitQueue == []
    ensures exists a :: Can(RunTo(size, acts).value, a) && a.Does? && a.m.WorkerStep?
  {
    RunSound(size, acts);
    RunsArePoolRuns(size, acts);
    R.WaitGoesOn(size, Steps(acts));
    var s := RunTo(size, acts).value;
    var w :| Allowed(s.p, WorkerStep(w));
    var a := WorkerGoesOn(s, w);
  }

  /**
   thp_destroy under way comes to rest before its end if and only if the pool was created with no threads,
   something is to be waited for, and its own thread sleeps in the final wait.
   */
  lemma RestsExactly(size: nat, acts: seq<Act>)
    requires RunTo(size, acts).Some?
    requires var s := RunTo(size, acts).value; s.p.closing != Open && s.p.closing != Closed
    ensures var s := RunTo(size, acts).value;
            AtRest(s) <==> size == 0 && s.p.toBeWaited != 0 && s.p.holder.Some? && s.p.holder.value.0 in s.atWait.asleep
  {
    RunSound(size, acts);
    RunsArePoolRuns(size, acts);
    R.StuckExactly(size, Steps(acts));
    var s := RunTo(size, acts).value;
    if AtRest(s) {
      RestMeansStuck(s);
      EmptyPoolSleeps(size, acts);
    }
    if size == 0 && s.p.toBeWaited != 0 && s.p.holder.Some? && s.p.holder.value.0 in s.atWait.asleep {
      OnlyWakeUps(s);
    }
  }

  /** In a pool without threads, what can still happen to a final wait that has found nothing is that it goes to sleep. */
  lemma EmptyPoolSleeps(size: nat, acts: seq<Act>)
    requires RunTo(size, acts).Some? && size == 0
    requires var s := RunTo(size, acts).value; s.p.closing.Draining? && s.p.toBeWaited != 0 && s.p.holder.Some? && AtRest(s)
    ensures var s := RunTo(size, acts).value; s.p.holder.value.0 in s.atWait.asleep
  {
    RunSound(size, acts);
    RunsArePoolRuns(size, acts);
    R.NothingFinished(size, Steps(acts));
    var s := RunTo(size, acts).value;
    assert !Can(s, WaiterSleeps(s.p.holder.value.0));
  }

  /** A run in which thp_destroy hangs: one job added to a pool without threads; its thread sleeps for ever. */
  lemma EmptyPoolHangs()
    ensures exists acts: seq<Act> :: RunTo(0, acts).Some? && AtRest(RunTo(0, acts).value)
                                     && RunTo(0, acts).value.p.closing == Draining(1)
  {
    R.EmptyPoolHangs();
    var moves: seq<Move> :| After(0, moves).Some? && R.Stuck(After(0, moves).value)
                            && After(0, moves).value.closing == Draining(1);
    var p := After(0, moves).value;
    var acts := PoolRunsAreRuns(0, moves);
    R.StuckExactly(0, moves);
    ReachableInv(0, moves);
    R.NothingFinished(0, moves);
    acts := Extend(0, acts, AllAwake(p), WaiterSleeps(1));
    RestsExactly(0, acts);
  }

  lemma OnlyWakeUps(s: Threads)
    requires Sound(s) && R.Stuck(s.p) && s.p.closing != Open && s.p.size == 0
    requires s.p.holder.Some? && s.p.holder.value.0 in s.atWait.asleep
    ensures AtRest(s)
  {
    forall m, wakes ensures !Can(s, Does(m, wakes)) {
      assert !Allowed(s.p, m);
    }
  }

  // ---------- thp_destroy comes to its end ----------

  /** The workers that are not asleep, and one more for the waiter. */
  ghost function Awake(s: Threads): int
  {
    s.p.size + 1 - |s.atWork.asleep| - |s.atWait.asleep|
  }

  lemma AwakeBounds(s: Threads)
    requires Sound(s)
    ensures 0 <= Awake(s) <= s.p.size + 1
  {
    OneWaiter(s);
    RangeSize(s.p.size);
    forall w | w in s.atWork.asleep ensures w in Range(s.p.size) { assert WorkerAtGet(s, w); }
    SubsetSize(s.atWork.asleep, Range(s.p.size));
  }

  /** Bounds the acts that are left once thp_destroy has begun, apart from wake-ups for no reason. */
  ghost function ActsLeft(s: Threads): int
  {
    (s.p.size + 2) * R.StepsLeft(s.p) + Awake(s)
  }

  lemma ActsLeftOk(s: Threads)
    requires Sound(s)
    ensures ActsLeft(s) >= 0
  {
    AwakeBounds(s);
    R.StepsLeftOk(s.p);
    Product(s.p.size + 2, R.StepsLeft(s.p), 0);
  }

  lemma Product(n: int, a: int, b: int)
    requires n >= 0 && a >= b
    ensures n * a >= n * b
  {
  }

  /** One step of the pool outweighs waking everyone. */
  lemma StepOutweighs(n: int, a: int, b: int, x: int, y: int)
    requires n >= 0 && b < a && x >= 0 && y < n
    ensures n * b + y < n * a + x
  {
    Product(n, a, b + 1);
    assert n * (b + 1) == n * b + n;
  }

  lemma NapComesNearer(s: Threads, a: Act)
    requires Sound(s) && Can(s, a) && !a.Does? && !a.AddReturns?
    ensures Do(s, a).p == s.p
    ensures Awake(Do(s, a)) == Awake(s) + if Spurious(a) then 1 else -1
  {
    match a
    case SpuriousWorker(w) => C.WokeSizes(s.atWork, {w});
    case SpuriousWaiter(t) => C.WokeSizes(s.atWait, {t});
    case _ =>
  }

  lemma StepComesNearer(s: Threads, m: Move, wakes: set<nat>)
    requires Sound(s) && s.p.closing != Open && Can(s, Does(m, wakes))
    ensures ActsLeft(Do(s, Does(m, wakes))) < ActsLeft(s)
  {
    var s' := Do(s, Does(m, wakes));
    R.StepComesNearer(s.p, m);
    StepKeeps(s, m, wakes);
    ApplyKeeps(s.p, m);
    AwakeBounds(s);
    AwakeBounds(s');
    StepOutweighs(s.p.size + 2, R.StepsLeft(s.p), R.StepsLeft(s'.p), Awake(s), Awake(s'));
  }

  /**
   Once thp_destroy has begun, every act but a wake-up for no reason brings the end nearer, and such a
   wake-up puts it off by one.
   */
  lemma ComesNearer(s: Threads, a: Act)
    requires Sound(s) && s.p.closing != Open && Can(s, a)
    ensures ActsLeft(Do(s, a)) <= ActsLeft(s) + if Spurious(a) then 1 else -1
    ensures Do(s, a).p.closing != Open
  {
    if a.Does? {
      StepComesNearer(s, a.m, a.wakes);
      R.StaysBegun(s.p, a.m);
    } else if !a.AddReturns? {
      NapComesNearer(s, a);
    }
  }

  ghost function Wakeups(acts: seq<Act>): nat
  {
    if acts == [] then 0
    else Wakeups(acts[..|acts| - 1]) + if Spurious(acts[|acts| - 1]) then 1 else 0
  }

  /**
   However the threads are scheduled after the call of thp_destroy, whomever signals wake: apart from
   wake-ups for no reason, each of which can cost one more act, only so many acts can follow.
   */
  lemma {:induction false} DestroyIsBounded(size: nat, acts: seq<Act>, more: seq<Act>)
    requires RunTo(size, acts).Some? && RunTo(size, acts + more).Some?
    requires RunTo(size, acts).value.p.closing != Open
    ensures RunTo(size, acts + more).value.p.closing != Open
    ensures var s, s' := RunTo(size, acts).value, RunTo(size, acts + more).value;
            |more| + ActsLeft(s') <= ActsLeft(s) + 2 * Wakeups(more) && ActsLeft(s') >= 0
  {
    if more == [] {
      assert acts + more == acts;
    } else {
      var less := more[..|more| - 1];
      assert (acts + more)[..|acts + more| - 1] == acts + less;
      DestroyIsBounded(size, acts, less);
      BoundedAct(size, acts + less, more[|more| - 1]);
    }
    RunSound(size, acts + more);
    ActsLeftOk(RunTo(size, acts + more).value);
  }

  lemma BoundedAct(size: nat, acts: seq<Act>, a: Act)
    requires RunTo(size, acts).Some? && RunTo(size, acts).value.p.closing != Open && Can(RunTo(size, acts).value, a)
    ensures var s := RunTo(size, acts).value;
            Do(s, a).p.closing != Open && ActsLeft(Do(s, a)) <= ActsLeft(s) + if Spurious(a) then 1 else -1
  {
    RunSound(size, acts);
    ComesNearer(RunTo(size, acts).value, a);
  }

  /**
   However the threads are scheduled after thp_destroy has been called in state s: in a state q at rest
   it has completed if and only if the pool has a thread or nothing was to be waited for at the call;
   and once it has completed nothing more can happen at all.
   */
  lemma DestroyOutcome(size: nat, acts: seq<Act>, s: Threads, more: seq<Act>, q: Threads)
    requires RunTo(size, acts) == Some(s) && s.p.closing.Marking? && s.p.closing.i == 0
    requires RunTo(size, acts + more) == Some(q)
    ensures AtRest(q) ==> (q.p.closing == Closed <==> size > 0 || s.p.toBeWaited == 0)
    ensures q.p.closing == Closed ==> forall a :: !Can(q, a)
  {
    RunsArePoolRuns(size, acts);
    RunsArePoolRuns(size, acts + more);
    StepsConcat(acts, more);
    R.DestroyOutcome(size, Steps(acts), s.p, Steps(more), q.p);
    RunSound(size, acts + more);
    if AtRest(q) {
      RestMeansStuck(q);
    }
    if q.p.closing == Closed {
      NothingAfterTheEnd(q);
    }
  }

  /** With at least one thread, a run that has come to rest has completed thp_destroy, with every job run and freed. */
  lemma DestroyCompletes(size: nat, acts: seq<Act>)
    requires RunTo(size, acts).Some? && size > 0
    requires RunTo(size, acts).value.p.closing != Open && AtRest(RunTo(size, acts).value)
    ensures var p := RunTo(size, acts).value.p;
            && p.closing == Closed && p.toBeWaited == 0
            && forall j: JobId :: j < p.books.created ==> p.books.executed[j] == 1 && p.books.freed[j] == 1
  {
    RunSound(size, acts);
    RunsArePoolRuns(size, acts);
    RestMeansStuck(RunTo(size, acts).value);
    R.DestroyCompletes(size, Steps(acts));
  }

  lemma NothingAfterTheEnd(s: Threads)
    requires Sound(s) && s.p.closing == Closed && R.Stuck(s.p)
    ensures forall a :: !Can(s, a)
  {
    forall w: Wid ensures !Idle(s.p, w) {
      if w < s.p.size { assert w in s.p.work.exited; }
    }
    forall a ensures !Can(s, a) {
      match a
      case Does(m, _) => assert !Allowed(s.p, m);
      case SpuriousWorker(w) => assert WorkerAtGet(s, w);
      case SpuriousWaiter(t) => assert WaiterAtGet(s, t);
      case _ =>
    }
  }
}
