/**
 The thread pool of libthp under any number of callers: its two unbounded channels as queues whose
 put and get are single steps (a get on an empty one cannot be taken), the pool's mutex, the callers'
 progress through thp_add, thp_wait and thp_destroy, and the workers.
 */
module ThreadPool {
  import opened CTypes

  type Tid = nat
  type Wid = nat
  type JobId = nat

  datatype Item = Job(id: JobId) | Marker

  /** A caller in a call, before it has the mutex. */
  datatype Want = WantAdd(job: JobId) | WantWait

  /** The caller that holds the mutex. In a wait, due is what was outstanding when it took the mutex. */
  datatype Hold =
    | AddPut(job: JobId)                            // about to put the job in the in-queue
    | AddCount(job: JobId)                          // about to count it and unlock
    | WaitLoop(count: int, due: int)                // about to look at to_be_waited
    | WaitGot(job: JobId, count: int, due: int)     // has a finished job: about to free and count it

  /** How far thp_destroy is. */
  datatype Closing = Open | Marking(t: Tid, i: nat) | Joining(t: Tid, i: nat) | Draining(t: Tid) | Closed

  /** Where a job is. */
  datatype Place = Carried(t: Tid) | Queued | OnWorker(w: Wid) | Finished(w: Wid) | Done | Collected | Freed

  /** The workers that have a job to run, those that have run it and are to hand it on, and those that have ended. */
  datatype Workers = Workers(running: map<Wid, JobId>, handing: map<Wid, JobId>, exited: set<Wid>)

  /** What the proofs record about the jobs. */
  datatype Books = Books(created: nat, place: map<JobId, Place>, executed: multiset<JobId>, freed: multiset<JobId>)

  datatype Pool = Pool(
    size: nat,
    inQueue: seq<Item>,
    waitQueue: seq<JobId>,
    work: Workers,
    toBeWaited: int,
    submitted: int,
    waitRunning: bool,
    wanting: map<Tid, Want>,
    holder: Option<(Tid, Hold)>,
    closing: Closing,
    books: Books)

  datatype Move =
    | CallAdd(t: Tid)
    | CallWait(t: Tid)
    | CallDestroy(t: Tid)
    | Lock(t: Tid)
    | HolderStep
    | WorkerStep(w: Wid)
    | DestroyStep

  /** What a call that ends with a step returns. */
  datatype Outcome = Goes | Added | Waited(count: int, due: int) | TooManyWaits

  ghost predicate InCall(p: Pool, t: Tid)
  {
    t in p.wanting || (p.holder.Some? && p.holder.value.0 == t)
  }

  ghost predicate Idle(p: Pool, w: Wid)
  {
    w < p.size && w !in p.work.running && w !in p.work.handing && w !in p.work.exited
  }

  ghost predicate Busy(p: Pool, w: Wid)
  {
    w in p.work.running || w in p.work.handing
  }

  // ---------- the steps ----------

  /** What may happen next. While the pool is being destroyed, no other call begins or is under way. */
  ghost predicate Allowed(p: Pool, m: Move)
  {
    match m
    case CallAdd(t) => p.closing == Open && !InCall(p, t)
    case CallWait(t) => p.closing == Open && !InCall(p, t)
    case CallDestroy(t) => p.closing == Open && p.wanting == map[] && p.holder == None
    case Lock(t) => t in p.wanting && p.holder == None
    case HolderStep => HolderCanStep(p)
    case WorkerStep(w) => Busy(p, w) || (Idle(p, w) && p.inQueue != [])
    case DestroyStep =>
      p.closing.Marking? || (p.closing.Joining? && (p.closing.i < p.size ==> p.closing.i in p.work.exited))
  }

  /** Only the get in thp_wait can be kept waiting, by an empty wait-queue. */
  ghost predicate HolderCanStep(p: Pool)
  {
    p.holder.Some? && (p.holder.value.1.WaitLoop? && p.toBeWaited != 0 ==> p.waitQueue != [])
  }

  ghost function Puts(b: Books, job: JobId, place: Place): Books
  {
    b.(place := b.place[job := place])
  }

  ghost function LockStep(p: Pool, t: Tid): (Pool, Outcome)
    requires t in p.wanting
  {
    var rest := p.wanting - {t};
    match p.wanting[t]
    case WantAdd(j) => (p.(wanting := rest, holder := Some((t, AddPut(j)))), Goes)
    case WantWait =>
      if p.waitRunning then (p.(wanting := rest), TooManyWaits)
      else if p.toBeWaited == 0 then (p.(wanting := rest, closing := Ended(p.closing)), Waited(0, 0))
      else (p.(wanting := rest, waitRunning := true, holder := Some((t, WaitLoop(0, p.toBeWaited)))), Goes)
  }

  /** The end of a wait is the end of thp_destroy if it was waiting. */
  ghost function Ended(c: Closing): Closing
  {
    if c.Draining? then Closed else c
  }

  ghost function PutStep(p: Pool, t: Tid, j: JobId): Pool
  {
    p.(inQueue := p.inQueue + [Job(j)], books := Puts(p.books, j, Queued), holder := Some((t, AddCount(j))))
  }

  ghost function CollectStep(p: Pool, t: Tid, count: int, due: int): Pool
    requires p.waitQueue != []
  {
    var j := p.waitQueue[0];
    p.(waitQueue := p.waitQueue[1..], books := Puts(p.books, j, Collected), holder := Some((t, WaitGot(j, count, due))))
  }

  ghost function FreeStep(p: Pool, t: Tid, j: JobId, count: int, due: int): Pool
  {
    p.(toBeWaited := p.toBeWaited - 1, holder := Some((t, WaitLoop(count + 1, due))),
       books := Puts(p.books, j, Freed).(freed := p.books.freed + multiset{j}))
  }

  ghost function HoldStep(p: Pool): (Pool, Outcome)
    requires HolderCanStep(p)
  {
    var t := p.holder.value.0;
    match p.holder.value.1
    case AddPut(j) => (PutStep(p, t, j), Goes)
    case AddCount(j) =>
      (p.(submitted := p.submitted + 1, toBeWaited := p.toBeWaited + 1, holder := None), Added)
    case WaitLoop(count, due) =>
      if p.toBeWaited == 0 then
        (p.(waitRunning := false, holder := None, closing := Ended(p.closing)), Waited(count, due))
      else (CollectStep(p, t, count, due), Goes)
    case WaitGot(j, count, due) => (FreeStep(p, t, j, count, due), Goes)
  }

  /** thp_queue_runner: run the job in hand, hand on the one that has run, or get the next item. */
  ghost function WorkStep(p: Pool, w: Wid): Pool
    requires Allowed(p, WorkerStep(w))
  {
    if w in p.work.running then RunStep(p, w)
    else if w in p.work.handing then HandStep(p, w)
    else GetStep(p, w)
  }

  ghost function RunStep(p: Pool, w: Wid): Pool
    requires w in p.work.running
  {
    var j := p.work.running[w];
    p.(work := p.work.(running := p.work.running - {w}, handing := p.work.handing[w := j]),
       books := Puts(p.books, j, Finished(w)).(executed := p.books.executed + multiset{j}))
  }

  ghost function HandStep(p: Pool, w: Wid): Pool
    requires w in p.work.handing
  {
    var j := p.work.handing[w];
    p.(work := p.work.(handing := p.work.handing - {w}), waitQueue := p.waitQueue + [j],
       books := Puts(p.books, j, Done))
  }

  ghost function GetStep(p: Pool, w: Wid): Pool
    requires p.inQueue != []
  {
    match p.inQueue[0]
    case Marker => p.(inQueue := p.inQueue[1..], work := p.work.(exited := p.work.exited + {w}))
    case Job(j) =>
      p.(inQueue := p.inQueue[1..], work := p.work.(running := p.work.running[w := j]),
         books := Puts(p.books, j, OnWorker(w)))
  }

  /** thp_destroy up to its final wait: one marker for each worker, then a join with each. */
  ghost function CloseStep(p: Pool): Pool
    requires p.closing.Marking? || p.closing.Joining?
  {
    match p.closing
    case Marking(t, i) =>
      if i < p.size then p.(inQueue := p.inQueue + [Marker], closing := Marking(t, i + 1))
      else p.(closing := Joining(t, 0))
    case Joining(t, i) =>
      if i < p.size then p.(closing := Joining(t, i + 1))
      else p.(closing := Draining(t), wanting := p.wanting[t := WantWait])
  }

  ghost function NewJob(b: Books, t: Tid): Books
  {
    b.(created := b.created + 1, place := b.place[b.created := Carried(t)])
  }

  ghost function Apply(p: Pool, m: Move): (Pool, Outcome)
    requires Allowed(p, m)
  {
    match m
    case CallAdd(t) => (p.(wanting := p.wanting[t := WantAdd(p.books.created)], books := NewJob(p.books, t)), Goes)
    case CallWait(t) => (p.(wanting := p.wanting[t := WantWait]), Goes)
    case CallDestroy(t) => (p.(closing := Marking(t, 0)), Goes)
    case Lock(t) => LockStep(p, t)
    case HolderStep => HoldStep(p)
    case WorkerStep(w) => (WorkStep(p, w), Goes)
    case DestroyStep => (CloseStep(p), Goes)
  }

  /** thp_create. */
  ghost function New(size: nat): Pool
  {
    Pool(size, [], [], Workers(map[], map[], {}), 0, 0, false, map[], None, Open, Books(0, map[], multiset{}, multiset{}))
  }

  /** The state an interleaving leads to from a new pool, if each of its moves is allowed. */
  ghost function After(size: nat, moves: seq<Move>): Option<Pool>
  {
    if moves == [] then Some(New(size))
    else
      match After(size, moves[..|moves| - 1])
      case None => None
      case Some(p) => if Allowed(p, moves[|moves| - 1]) then Some(Apply(p, moves[|moves| - 1]).0) else None
  }

  // ---------- counting the outstanding jobs ----------

  ghost function Jobs(q: seq<Item>): nat
  {
    if q == [] then 0 else Jobs(q[..|q| - 1]) + if q[|q| - 1].Job? then 1 else 0
  }

  ghost function Markers(q: seq<Item>): int
  {
    |q| - Jobs(q)
  }

  lemma JobsAppend(q: seq<Item>, x: Item)
    ensures Jobs(q + [x]) == Jobs(q) + if x.Job? then 1 else 0
  {
    assert (q + [x])[..|q|] == q;
  }

  lemma {:induction false} JobsTail(q: seq<Item>)
    requires q != []
    ensures Jobs(q) == Jobs(q[1..]) + if q[0].Job? then 1 else 0
  {
    if |q| > 1 {
      JobsTail(q[..|q| - 1]);
      assert q[1..][..|q| - 2] == q[..|q| - 1][1..];
    } else {
      assert q[1..] == [] && q[..0] == [];
    }
  }

  lemma {:induction false} JobsAtMost(q: seq<Item>)
    ensures Jobs(q) <= |q|
  {
    if q != [] {
      JobsAtMost(q[..|q| - 1]);
    }
  }

  // ---------- the counting invariant ----------

  /** How far to_be_waited is off while the caller with the mutex is between two of its updates. */
  ghost function Correction(h: Option<(Tid, Hold)>): int
  {
    if h.None? then 0 else if h.value.1.AddCount? then 1 else if h.value.1.WaitGot? then -1 else 0
  }

  /** Jobs queued, running, or finished and not yet collected. */
  ghost function Outstanding(p: Pool): int
  {
    Jobs(p.inQueue) + |p.work.running| + |p.work.handing| + |p.waitQueue|
  }

  ghost predicate CountOk(p: Pool)
  {
    p.toBeWaited + Correction(p.holder) == Outstanding(p)
  }

  /** A wait under way has taken the flag, and what it has collected and what is left make up what was due. */
  ghost predicate WaitOk(p: Pool)
  {
    if p.holder.Some? && (p.holder.value.1.WaitLoop? || p.holder.value.1.WaitGot?) then
      p.waitRunning && p.holder.value.1.count + p.toBeWaited == p.holder.value.1.due
    else !p.waitRunning
  }

  ghost predicate CallersOk(p: Pool)
  {
    p.holder.Some? ==> p.holder.value.0 !in p.wanting
  }

  /** A worker is in one state only. */
  ghost predicate WorkerOk(k: Workers, size: nat, w: Wid)
  {
    && (w in k.running ==> w !in k.handing)
    && (w in k.exited ==> w !in k.running && w !in k.handing)
    && (w in k.running || w in k.handing || w in k.exited ==> w < size)
  }

  ghost predicate WorkersOk(k: Workers, size: nat)
  {
    forall w :: WorkerOk(k, size, w)
  }

  lemma MapAdd<T>(m: map<nat, T>, k: nat, v: T)
    ensures k !in m ==> |m[k := v]| == |m| + 1
  {
    if k !in m {
      assert m[k := v].Keys == m.Keys + {k};
      assert |m[k := v].Keys| == |m[k := v]| && |m.Keys| == |m|;
    }
  }

  lemma MapRemove<T>(m: map<nat, T>, k: nat)
    ensures k in m ==> |m - {k}| == |m| - 1
  {
    if k in m {
      assert (m - {k}).Keys == m.Keys - {k};
      assert |(m - {k}).Keys| == |m - {k}| && |m.Keys| == |m|;
    }
  }

  lemma RunKeepsCount(p: Pool, w: Wid)
    requires CountOk(p) && w in p.work.running && w !in p.work.handing
    ensures CountOk(RunStep(p, w))
  {
    MapRemove(p.work.running, w);
    MapAdd(p.work.handing, w, p.work.running[w]);
  }

  lemma HandKeepsCount(p: Pool, w: Wid)
    requires CountOk(p) && w in p.work.handing
    ensures CountOk(HandStep(p, w))
  {
    MapRemove(p.work.handing, w);
  }

  lemma GetKeepsCount(p: Pool, w: Wid)
    requires CountOk(p) && w !in p.work.running && p.inQueue != []
    ensures CountOk(GetStep(p, w))
  {
    JobsTail(p.inQueue);
    if p.inQueue[0].Job? {
      MapAdd(p.work.running, w, p.inQueue[0].id);
    }
  }

  lemma WorkKeepsCount(p: Pool, w: Wid)
    requires CountOk(p) && WorkersOk(p.work, p.size) && Allowed(p, WorkerStep(w))
    ensures CountOk(WorkStep(p, w))
  {
    assert WorkerOk(p.work, p.size, w);
    if w in p.work.running {
      RunKeepsCount(p, w);
    } else if w in p.work.handing {
      HandKeepsCount(p, w);
    } else {
      GetKeepsCount(p, w);
    }
  }

  lemma WorkKeepsWorkers(p: Pool, w: Wid)
    requires WorkersOk(p.work, p.size) && Allowed(p, WorkerStep(w))
    ensures WorkersOk(WorkStep(p, w).work, p.size)
  {
    var k := WorkStep(p, w).work;
    assert WorkerOk(p.work, p.size, w);
    forall v ensures WorkerOk(k, p.size, v) {
      assert WorkerOk(p.work, p.size, v);
    }
  }

  lemma HoldKeepsCount(p: Pool)
    requires CountOk(p) && WaitOk(p) && CallersOk(p) && HolderCanStep(p)
    ensures CountOk(HoldStep(p).0) && WaitOk(HoldStep(p).0) && CallersOk(HoldStep(p).0)
  {
    if p.holder.value.1.AddPut? {
      JobsAppend(p.inQueue, Job(p.holder.value.1.job));
    }
  }

  lemma LockKeepsCount(p: Pool, t: Tid)
    requires CountOk(p) && WaitOk(p) && CallersOk(p) && Allowed(p, Lock(t))
    ensures CountOk(LockStep(p, t).0) && WaitOk(LockStep(p, t).0) && CallersOk(LockStep(p, t).0)
    ensures LockStep(p, t).1 != TooManyWaits
  {
  }

  // ---------- every job is in one place ----------

  ghost predicate At(b: Books, j: JobId, place: Place)
  {
    j in b.place && b.place[j] == place
  }

  /** The job's function has returned. */
  ghost predicate HasRun(b: Books, j: JobId)
  {
    j in b.place && (b.place[j].Finished? || b.place[j] == Done || b.place[j] == Collected || b.place[j] == Freed)
  }

  /** Queues and ledgers have job j as often as its place says: once or not at all. */
  ghost predicate LedgerOk(p: Pool, j: JobId)
  {
    && (j in p.books.place <==> j < p.books.created)
    && multiset(p.inQueue)[Job(j)] == (if At(p.books, j, Queued) then 1 else 0)
    && multiset(p.waitQueue)[j] == (if At(p.books, j, Done) then 1 else 0)
    && p.books.executed[j] == (if HasRun(p.books, j) then 1 else 0)
    && p.books.freed[j] == (if At(p.books, j, Freed) then 1 else 0)
  }

  /** A job in someone's hands is known to be there by them. */
  ghost predicate HandsOk(p: Pool, j: JobId)
  {
    j in p.books.place ==>
      match p.books.place[j]
      case Carried(t) =>
        || (t in p.wanting && p.wanting[t] == WantAdd(j))
        || p.holder == Some((t, AddPut(j)))
      case OnWorker(w) => w in p.work.running && p.work.running[w] == j
      case Finished(w) => w in p.work.handing && p.work.handing[w] == j
      case Collected => p.holder.Some? && p.holder.value.1.WaitGot? && p.holder.value.1.job == j
      case _ => true
  }

  ghost predicate WorkerHolds(p: Pool, w: Wid)
  {
    && (w in p.work.running ==> At(p.books, p.work.running[w], OnWorker(w)))
    && (w in p.work.handing ==> At(p.books, p.work.handing[w], Finished(w)))
  }

  ghost predicate CallerHolds(p: Pool, t: Tid)
  {
    && (t in p.wanting && p.wanting[t].WantAdd? ==> At(p.books, p.wanting[t].job, Carried(t)))
    && (p.holder.Some? && p.holder.value.0 == t && p.holder.value.1.AddPut? ==>
          At(p.books, p.holder.value.1.job, Carried(t)))
    && (p.holder.Some? && p.holder.value.1.WaitGot? ==> At(p.books, p.holder.value.1.job, Collected))
  }

  ghost predicate JobsOk(p: Pool)
  {
    && (forall j :: LedgerOk(p, j))
    && (forall j :: HandsOk(p, j))
    && (forall w :: WorkerHolds(p, w))
    && (forall t :: CallerHolds(p, t))
  }

  lemma TailMultiset<T>(q: seq<T>)
    requires q != []
    ensures multiset(q) == multiset{q[0]} + multiset(q[1..])
  {
    assert q == [q[0]] + q[1..];
  }

  lemma RunKeepsJobs(p: Pool, w: Wid)
    requires JobsOk(p) && WorkersOk(p.work, p.size) && w in p.work.running
    ensures JobsOk(RunStep(p, w))
  {
    var p' := RunStep(p, w);
    assert WorkerHolds(p, w) && WorkerOk(p.work, p.size, w);
    forall j ensures LedgerOk(p', j) { assert LedgerOk(p, j); }
    forall j ensures HandsOk(p', j) { assert HandsOk(p, j); }
    forall v ensures WorkerHolds(p', v) { assert WorkerHolds(p, v); }
    forall t ensures CallerHolds(p', t) { assert CallerHolds(p, t); }
  }

  lemma HandKeepsJobs(p: Pool, w: Wid)
    requires JobsOk(p) && w in p.work.handing
    ensures JobsOk(HandStep(p, w))
  {
    var p' := HandStep(p, w);
    assert WorkerHolds(p, w);
    forall j ensures LedgerOk(p', j) { assert LedgerOk(p, j); }
    forall j ensures HandsOk(p', j) { assert HandsOk(p, j); }
    forall v ensures WorkerHolds(p', v) { assert WorkerHolds(p, v); }
    forall t ensures CallerHolds(p', t) { assert CallerHolds(p, t); }
  }

  lemma GetKeepsJobs(p: Pool, w: Wid)
    requires JobsOk(p) && Idle(p, w) && p.inQueue != []
    ensures JobsOk(GetStep(p, w))
  {
    var p' := GetStep(p, w);
    TailMultiset(p.inQueue);
    if p.inQueue[0].Job? {
      assert LedgerOk(p, p.inQueue[0].id);
    }
    forall j ensures LedgerOk(p', j) { assert LedgerOk(p, j); }
    forall j ensures HandsOk(p', j) { assert HandsOk(p, j); }
    forall v ensures WorkerHolds(p', v) { assert WorkerHolds(p, v); }
    forall t ensures CallerHolds(p', t) { assert CallerHolds(p, t); }
  }

  lemma PutKeepsJobs(p: Pool, t: Tid, j: JobId)
    requires JobsOk(p) && CallersOk(p) && p.holder == Some((t, AddPut(j)))
    ensures JobsOk(PutStep(p, t, j))
  {
    var p' := PutStep(p, t, j);
    assert CallerHolds(p, t);
    forall k ensures LedgerOk(p', k) { assert LedgerOk(p, k); }
    forall k ensures HandsOk(p', k) { assert HandsOk(p, k); }
    forall v ensures WorkerHolds(p', v) { assert WorkerHolds(p, v); }
    forall u ensures CallerHolds(p', u) { assert CallerHolds(p, u); }
  }

  lemma CollectKeepsJobs(p: Pool, t: Tid, count: int, due: int)
    requires JobsOk(p) && CallersOk(p) && p.holder == Some((t, WaitLoop(count, due))) && p.waitQueue != []
    ensures JobsOk(CollectStep(p, t, count, due))
  {
    var p' := CollectStep(p, t, count, due);
    TailMultiset(p.waitQueue);
    assert LedgerOk(p, p.waitQueue[0]);
    forall k ensures LedgerOk(p', k) { assert LedgerOk(p, k); }
    forall k ensures HandsOk(p', k) { assert HandsOk(p, k); }
    forall v ensures WorkerHolds(p', v) { assert WorkerHolds(p, v); }
    forall u ensures CallerHolds(p', u) { assert CallerHolds(p, u); }
  }

  lemma FreeKeepsJobs(p: Pool, t: Tid, j: JobId, count: int, due: int)
    requires JobsOk(p) && CallersOk(p) && p.holder == Some((t, WaitGot(j, count, due)))
    ensures JobsOk(FreeStep(p, t, j, count, due))
  {
    var p' := FreeStep(p, t, j, count, due);
    assert CallerHolds(p, t);
    forall k ensures LedgerOk(p', k) { assert LedgerOk(p, k); }
    forall k ensures HandsOk(p', k) { assert HandsOk(p, k); }
    forall v ensures WorkerHolds(p', v) { assert WorkerHolds(p, v); }
    forall u ensures CallerHolds(p', u) { assert CallerHolds(p, u); }
  }

  lemma HoldKeepsJobs(p: Pool)
    requires JobsOk(p) && CallersOk(p) && HolderCanStep(p)
    ensures JobsOk(HoldStep(p).0)
  {
    var t := p.holder.value.0;
    match p.holder.value.1
    case AddPut(j) => PutKeepsJobs(p, t, j);
    case WaitGot(j, count, due) => FreeKeepsJobs(p, t, j, count, due);
    case WaitLoop(count, due) =>
      if p.toBeWaited != 0 {
        CollectKeepsJobs(p, t, count, due);
      } else {
        UnlockKeepsJobs(p, HoldStep(p).0);
      }
    case AddCount(_) => UnlockKeepsJobs(p, HoldStep(p).0);
  }

  /** Letting go of the mutex with no job in hand. */
  lemma UnlockKeepsJobs(p: Pool, p': Pool)
    requires JobsOk(p) && p.holder.Some? && (p.holder.value.1.AddCount? || p.holder.value.1.WaitLoop?)
    requires p'.holder == None && p'.inQueue == p.inQueue && p'.waitQueue == p.waitQueue
    requires p'.work == p.work && p'.wanting == p.wanting && p'.books == p.books
    ensures JobsOk(p')
  {
    forall k ensures LedgerOk(p', k) { assert LedgerOk(p, k); }
    forall k ensures HandsOk(p', k) { assert HandsOk(p, k); }
    forall v ensures WorkerHolds(p', v) { assert WorkerHolds(p, v); }
    forall u ensures CallerHolds(p', u) { assert CallerHolds(p, u); }
  }

  lemma AddLockKeepsJobs(p: Pool, t: Tid)
    requires JobsOk(p) && p.holder == None && t in p.wanting && p.wanting[t].WantAdd?
    ensures JobsOk(LockStep(p, t).0)
  {
    var p' := LockStep(p, t).0;
    assert CallerHolds(p, t);
    forall j ensures LedgerOk(p', j) { assert LedgerOk(p, j); }
    forall j ensures HandsOk(p', j) { assert HandsOk(p, j); }
    forall v ensures WorkerHolds(p', v) { assert WorkerHolds(p, v); }
    forall u ensures CallerHolds(p', u) { assert CallerHolds(p, u); }
  }

  /** A waiter that takes the mutex, or leaves again at once, has no job. */
  lemma WaitLockKeepsJobs(p: Pool, t: Tid, p': Pool)
    requires JobsOk(p) && p.holder == None && t in p.wanting && p.wanting[t] == WantWait
    requires p'.books == p.books && p'.work == p.work && p'.inQueue == p.inQueue && p'.waitQueue == p.waitQueue
    requires p'.wanting == p.wanting - {t} && (p'.holder.Some? ==> p'.holder.value.1.WaitLoop?)
    ensures JobsOk(p')
  {
    forall j ensures LedgerOk(p', j) { assert LedgerOk(p, j); }
    forall j ensures HandsOk(p', j) { assert HandsOk(p, j); }
    forall v ensures WorkerHolds(p', v) { assert WorkerHolds(p, v); }
    forall u ensures CallerHolds(p', u) { assert CallerHolds(p, u); }
  }

  lemma LockKeepsJobs(p: Pool, t: Tid)
    requires JobsOk(p) && Allowed(p, Lock(t))
    ensures JobsOk(LockStep(p, t).0)
  {
    if p.wanting[t].WantAdd? {
      AddLockKeepsJobs(p, t);
    } else {
      WaitLockKeepsJobs(p, t, LockStep(p, t).0);
    }
  }

  lemma CallKeepsJobs(p: Pool, t: Tid)
    requires JobsOk(p) && !InCall(p, t)
    ensures JobsOk(p.(wanting := p.wanting[t := WantWait]))
    ensures JobsOk(p.(wanting := p.wanting[t := WantAdd(p.books.created)], books := NewJob(p.books, t)))
  {
    var p1 := p.(wanting := p.wanting[t := WantWait]);
    var p2 := p.(wanting := p.wanting[t := WantAdd(p.books.created)], books := NewJob(p.books, t));
    assert LedgerOk(p, p.books.created);
    forall j ensures LedgerOk(p1, j) && LedgerOk(p2, j) { assert LedgerOk(p, j); }
    forall j ensures HandsOk(p1, j) && HandsOk(p2, j) { assert HandsOk(p, j); }
    forall v ensures WorkerHolds(p1, v) && WorkerHolds(p2, v) {
      assert WorkerHolds(p, v);
      assert v in p.work.running ==> LedgerOk(p, p.work.running[v]);
      assert v in p.work.handing ==> LedgerOk(p, p.work.handing[v]);
    }
    forall u ensures CallerHolds(p1, u) && CallerHolds(p2, u) { assert CallerHolds(p, u); }
  }

  // ---------- the end of the pool ----------

  ghost predicate Quiet(p: Pool)
  {
    p.wanting == map[] && p.holder == None
  }

  /** Behind a marker there are only markers. */
  ghost predicate MarkersLast(q: seq<Item>)
  {
    forall a, b :: 0 <= a < b < |q| && q[a] == Marker ==> q[b] == Marker
  }

  ghost predicate AllExited(p: Pool)
  {
    forall w :: 0 <= w < p.size ==> w in p.work.exited
  }

  /** Only the final wait of thread t is left to be done. */
  ghost predicate OnlyWait(p: Pool, t: Tid)
  {
    if p.holder.None? then p.wanting == map[t := WantWait]
    else p.wanting == map[] && p.holder.value.0 == t && (p.holder.value.1.WaitLoop? || p.holder.value.1.WaitGot?)
  }

  /** Each worker that has ended has consumed one of the markers sent; no job comes after them. */
  ghost predicate ClosingOk(p: Pool)
  {
    && MarkersLast(p.inQueue)
    && (p.work.exited != {} ==> Jobs(p.inQueue) == 0)
    && match p.closing
       case Open => Markers(p.inQueue) == 0 && p.work.exited == {}
       case Marking(t, i) => i <= p.size && Markers(p.inQueue) + |p.work.exited| == i && Quiet(p)
       case Joining(t, i) =>
         && i <= p.size && Markers(p.inQueue) + |p.work.exited| == p.size && Quiet(p)
         && (forall w :: 0 <= w < i ==> w in p.work.exited)
       case Draining(t) => AllExited(p) && OnlyWait(p, t)
       case Closed => AllExited(p) && Quiet(p) && p.toBeWaited == 0
  }

  /** With a marker in front there is no job left in the queue. */
  lemma {:induction false} MarkerFirst(q: seq<Item>)
    requires MarkersLast(q) && q != [] && q[0] == Marker
    ensures Jobs(q) == 0
  {
    if |q| > 1 {
      MarkerFirst(q[..|q| - 1]);
    } else {
      assert q[..0] == [];
    }
  }

  /** With no marker anywhere every item is a job. */
  lemma {:induction false} NoMarkers(q: seq<Item>)
    requires Markers(q) == 0
    ensures forall i :: 0 <= i < |q| ==> q[i].Job?
  {
    if q != [] {
      JobsAtMost(q[..|q| - 1]);
      NoMarkers(q[..|q| - 1]);
    }
  }

  lemma GetKeepsClosing(p: Pool, w: Wid)
    requires ClosingOk(p) && Idle(p, w) && p.inQueue != []
    ensures ClosingOk(GetStep(p, w))
  {
    JobsTail(p.inQueue);
    if p.inQueue[0] == Marker {
      MarkerFirst(p.inQueue);
      if p.closing == Open { NoMarkers(p.inQueue); }
      assert |p.work.exited + {w}| == |p.work.exited| + 1;
    }
  }

  lemma WorkKeepsClosing(p: Pool, w: Wid)
    requires ClosingOk(p) && Allowed(p, WorkerStep(w))
    ensures ClosingOk(WorkStep(p, w))
  {
    if !Busy(p, w) {
      GetKeepsClosing(p, w);
    }
  }

  /** A job is put only while there are no markers. */
  lemma PutKeepsClosing(p: Pool, t: Tid, j: JobId)
    requires ClosingOk(p) && p.holder == Some((t, AddPut(j)))
    ensures ClosingOk(PutStep(p, t, j))
  {
    JobsAppend(p.inQueue, Job(j));
    NoMarkers(p.inQueue);
  }

  lemma HoldKeepsClosing(p: Pool)
    requires ClosingOk(p) && HolderCanStep(p)
    ensures ClosingOk(HoldStep(p).0)
  {
    if p.holder.value.1.AddPut? {
      PutKeepsClosing(p, p.holder.value.0, p.holder.value.1.job);
    }
  }

  lemma LockKeepsClosing(p: Pool, t: Tid)
    requires ClosingOk(p) && Allowed(p, Lock(t)) && !p.waitRunning
    ensures ClosingOk(LockStep(p, t).0)
  {
  }

  lemma CloseKeepsClosing(p: Pool)
    requires ClosingOk(p) && Allowed(p, DestroyStep)
    ensures ClosingOk(CloseStep(p))
  {
    JobsAppend(p.inQueue, Marker);
  }

  lemma CallKeepsClosing(p: Pool, m: Move)
    requires ClosingOk(p) && Allowed(p, m) && (m.CallAdd? || m.CallWait? || m.CallDestroy?)
    ensures ClosingOk(Apply(p, m).0)
  {
  }

  // ---------- every run ----------

  ghost predicate Inv(p: Pool)
  {
    CountOk(p) && WaitOk(p) && CallersOk(p) && WorkersOk(p.work, p.size) && JobsOk(p) && ClosingOk(p)
  }

  /** A worker's step concerns no caller. */
  lemma WorkKeepsCallers(p: Pool, w: Wid)
    requires Allowed(p, WorkerStep(w))
    ensures var p' := WorkStep(p, w);
            && p'.holder == p.holder && p'.wanting == p.wanting && p'.waitRunning == p.waitRunning
            && p'.toBeWaited == p.toBeWaited && p'.closing == p.closing && p'.size == p.size
  {
  }

  lemma WorkKeeps(p: Pool, w: Wid)
    requires Inv(p) && Allowed(p, WorkerStep(w))
    ensures Inv(WorkStep(p, w)) && WorkStep(p, w).size == p.size
  {
    WorkKeepsCallers(p, w);
    WorkKeepsCount(p, w);
    WorkKeepsWorkers(p, w);
    WorkKeepsClosing(p, w);
    WorkKeepsJobs(p, w);
  }

  lemma HoldKeeps(p: Pool)
    requires Inv(p) && HolderCanStep(p)
    ensures Inv(HoldStep(p).0) && HoldStep(p).0.size == p.size
  {
    HoldKeepsCount(p);
    HoldKeepsJobs(p);
    HoldKeepsClosing(p);
  }

  lemma LockKeeps(p: Pool, t: Tid)
    requires Inv(p) && Allowed(p, Lock(t))
    ensures Inv(LockStep(p, t).0) && LockStep(p, t).1 != TooManyWaits && LockStep(p, t).0.size == p.size
  {
    LockKeepsCount(p, t);
    LockKeepsJobs(p, t);
    LockKeepsClosing(p, t);
  }

  lemma CallKeeps(p: Pool, m: Move)
    requires Inv(p) && Allowed(p, m) && (m.CallAdd? || m.CallWait? || m.CallDestroy?)
    ensures Inv(Apply(p, m).0) && Apply(p, m).1 == Goes && Apply(p, m).0.size == p.size
  {
    CallKeepsClosing(p, m);
    if m.CallDestroy? {
      ClosingKeepsJobs(p, Marking(m.t, 0), p.inQueue, p.wanting);
    } else {
      CallKeepsJobs(p, m.t);
    }
  }

  lemma ApplyKeeps(p: Pool, m: Move)
    requires Inv(p) && Allowed(p, m)
    ensures Inv(Apply(p, m).0) && Apply(p, m).1 != TooManyWaits && Apply(p, m).0.size == p.size
  {
    match m
    case WorkerStep(w) => WorkKeeps(p, w);
    case HolderStep => HoldKeeps(p);
    case Lock(t) => LockKeeps(p, t);
    case DestroyStep => CloseKeepsClosing(p); CloseKeepsRest(p);
    case CallAdd(t) => CallKeeps(p, m);
    case CallWait(t) => CallKeeps(p, m);
    case CallDestroy(t) => CallKeeps(p, m);
  }

  lemma WorkKeepsJobs(p: Pool, w: Wid)
    requires JobsOk(p) && WorkersOk(p.work, p.size) && Allowed(p, WorkerStep(w))
    ensures JobsOk(WorkStep(p, w))
  {
    if w in p.work.running {
      RunKeepsJobs(p, w);
    } else if w in p.work.handing {
      HandKeepsJobs(p, w);
    } else {
      GetKeepsJobs(p, w);
    }
  }

  /** Neither markers nor the progress of thp_destroy concern the jobs. */
  lemma ClosingKeepsJobs(p: Pool, closing: Closing, q: seq<Item>, wanting: map<Tid, Want>)
    requires JobsOk(p)
    requires forall j :: multiset(q)[Job(j)] == multiset(p.inQueue)[Job(j)]
    requires wanting == p.wanting || (p.wanting == map[] && forall t :: t in wanting ==> wanting[t] == WantWait)
    ensures JobsOk(p.(closing := closing, inQueue := q, wanting := wanting))
  {
    var p' := p.(closing := closing, inQueue := q, wanting := wanting);
    forall j ensures LedgerOk(p', j) { assert LedgerOk(p, j); }
    forall j ensures HandsOk(p', j) { assert HandsOk(p, j); }
    forall v ensures WorkerHolds(p', v) { assert WorkerHolds(p, v); }
    forall u ensures CallerHolds(p', u) { assert CallerHolds(p, u); }
  }

  lemma CloseKeepsRest(p: Pool)
    requires Inv(p) && Allowed(p, DestroyStep)
    ensures var p' := CloseStep(p);
            CountOk(p') && WaitOk(p') && CallersOk(p') && WorkersOk(p'.work, p'.size) && JobsOk(p')
  {
    var p' := CloseStep(p);
    JobsAppend(p.inQueue, Marker);
    ClosingKeepsJobs(p, p'.closing, p'.inQueue, p'.wanting);
  }

  /** The invariant holds in every state that any interleaving can reach; no wait is ever turned away. */
  lemma {:induction false} ReachableInv(size: nat, moves: seq<Move>)
    ensures After(size, moves).Some? ==> Inv(After(size, moves).value) && After(size, moves).value.size == size
  {
    if moves == [] {
      assert forall w :: WorkerOk(New(size).work, size, w);
    } else {
      ReachableInv(size, moves[..|moves| - 1]);
      var before := After(size, moves[..|moves| - 1]);
      if before.Some? && Allowed(before.value, moves[|moves| - 1]) {
        ApplyKeeps(before.value, moves[|moves| - 1]);
      }
    }
  }
}
