/**
 What an observer of a run of the thread pool can tell of it: which number thp_add returns, by the
 jobs counted before, and in which order jobs are begun.
 */
module PoolAnswers {
  import opened CTypes
  import opened ThreadPool
  import opened PoolThreads

  // ---------- what thp_add returns ----------

  /** The caller that counts its job in act a, if that is what a does. */
  ghost function Counter(s: Threads, a: Act): Option<Tid>
  {
    if a.Does? && CountsJob(s.p, a.m) then Some(s.p.holder.value.0) else None
  }

  /** Who counts a job in the last act of the run. */
  ghost function LastCounter(size: nat, acts: seq<Act>): Option<Tid>
    requires acts != []
  {
    var before := RunTo(size, acts[..|acts| - 1]);
    if before.Some? then Counter(before.value, acts[|acts| - 1]) else None
  }

  /** How many jobs were counted in the run. */
  ghost function Counted(size: nat, acts: seq<Act>): nat
  {
    if acts == [] then 0
    else Counted(size, acts[..|acts| - 1]) + if LastCounter(size, acts).Some? then 1 else 0
  }

  /** The number, in the order of counting, of the job that t counted last; 0 if there is none. */
  ghost function OwnNumber(size: nat, acts: seq<Act>, t: Tid): nat
  {
    if acts == [] then 0
    else if LastCounter(size, acts) == Some(t) then Counted(size, acts)
    else OwnNumber(size, acts[..|acts| - 1], t)
  }

  /** How many jobs others counted since then. */
  ghost function CountedSince(size: nat, acts: seq<Act>, t: Tid): nat
  {
    if acts == [] || LastCounter(size, acts) == Some(t) then 0
    else CountedSince(size, acts[..|acts| - 1], t) + if LastCounter(size, acts).Some? then 1 else 0
  }

  lemma {:induction false} CountAddsUp(size: nat, acts: seq<Act>, t: Tid)
    ensures Counted(size, acts) == OwnNumber(size, acts, t) + CountedSince(size, acts, t)
  {
    if acts != [] {
      CountAddsUp(size, acts[..|acts| - 1], t);
    }
  }

  lemma {:induction false} SubmittedIsCounted(size: nat, acts: seq<Act>)
    requires RunTo(size, acts).Some?
    ensures RunTo(size, acts).value.p.submitted == Counted(size, acts)
  {
    if acts != [] {
      var less, a := acts[..|acts| - 1], acts[|acts| - 1];
      SubmittedIsCounted(size, less);
      if a.Does? {
        SubmittedAfter(RunTo(size, less).value.p, a.m);
      }
    }
  }

  /** An adder on its way out has the number at which it counted its job. */
  lemma {:induction false} ReturningOwn(size: nat, acts: seq<Act>, t: Tid)
    requires RunTo(size, acts).Some? && t in RunTo(size, acts).value.returning
    ensures RunTo(size, acts).value.returning[t] == OwnNumber(size, acts, t) > 0
  {
    var less := acts[..|acts| - 1];
    SubmittedIsCounted(size, less);
    if LastCounter(size, acts) != Some(t) {
      ReturningOwn(size, less, t);
    }
  }

  /**
   thp_add, which reads the count without the mutex, returns the number of jobs counted by then: that of
   its own job and one more for each that another call has counted since, so its own exactly if none has.
   */
  lemma AddReturnsCounted(size: nat, acts: seq<Act>, t: Tid)
    requires RunTo(size, acts).Some? && Can(RunTo(size, acts).value, AddReturns(t))
    ensures var r := AddResult(RunTo(size, acts).value);
            && r == Counted(size, acts) == OwnNumber(size, acts, t) + CountedSince(size, acts, t)
            && OwnNumber(size, acts, t) > 0
            && (r == OwnNumber(size, acts, t) <==> CountedSince(size, acts, t) == 0)
  {
    SubmittedIsCounted(size, acts);
    CountAddsUp(size, acts, t);
    ReturningOwn(size, acts, t);
  }

  // ---------- the order of the jobs ----------

  /** The jobs among the items. */
  ghost function JobsOf(q: seq<Item>): seq<JobId>
  {
    if q == [] then [] else JobsOf(q[..|q| - 1]) + if q[|q| - 1].Job? then [q[|q| - 1].id] else []
  }

  /** The job a step hands to the pool, and the one it begins. */
  ghost function HandedIn(p: Pool, m: Move): seq<JobId>
  {
    if m.HolderStep? && p.holder.Some? && p.holder.value.1.AddPut? then [p.holder.value.1.job] else []
  }

  ghost function Begun(p: Pool, p': Pool, m: Move): seq<JobId>
  {
    if m.WorkerStep? && m.w !in p.work.running && m.w in p'.work.running then [p'.work.running[m.w]] else []
  }

  /** The jobs handed to the pool in a run, and those begun, in order. */
  ghost function AllHandedIn(size: nat, moves: seq<Move>): seq<JobId>
  {
    if moves == [] then []
    else
      var less := moves[..|moves| - 1];
      AllHandedIn(size, less) +
      if After(size, less).Some? then HandedIn(After(size, less).value, moves[|moves| - 1]) else []
  }

  ghost function AllBegun(size: nat, moves: seq<Move>): seq<JobId>
  {
    if moves == [] then []
    else
      var less := moves[..|moves| - 1];
      AllBegun(size, less) +
      if After(size, less).Some? && After(size, moves).Some? then
        Begun(After(size, less).value, After(size, moves).value, moves[|moves| - 1])
      else []
  }

  lemma JobsOfAppend(q: seq<Item>, x: Item)
    ensures JobsOf(q + [x]) == JobsOf(q) + if x.Job? then [x.id] else []
  {
    assert (q + [x])[..|q|] == q;
  }

  lemma {:induction false} JobsOfTail(q: seq<Item>)
    requires q != []
    ensures JobsOf(q) == (if q[0].Job? then [q[0].id] else []) + JobsOf(q[1..])
  {
    if |q| > 1 {
      var less := q[..|q| - 1];
      JobsOfTail(less);
      assert q[1..][..|q| - 2] == less[1..];
      assert q[1..][|q| - 2] == q[|q| - 1];
    }
  }

  lemma StepInOrder(p: Pool, m: Move)
    requires Allowed(p, m)
    ensures var p' := Apply(p, m).0;
            JobsOf(p.inQueue) + HandedIn(p, m) == Begun(p, p', m) + JobsOf(p'.inQueue)
  {
    if HandedIn(p, m) != [] {
      JobsOfAppend(p.inQueue, Job(p.holder.value.1.job));
    } else if m.WorkerStep? && !Busy(p, m.w) {
      JobsOfTail(p.inQueue);
    } else if m.DestroyStep? && p.closing.Marking? {
      JobsOfAppend(p.inQueue, Marker);
    }
  }

  /** Jobs are begun in the order in which they were handed in, whichever workers take them. */
  lemma {:induction false} JobsBeginInOrder(size: nat, moves: seq<Move>)
    requires After(size, moves).Some?
    ensures AllHandedIn(size, moves) == AllBegun(size, moves) + JobsOf(After(size, moves).value.inQueue)
  {
    if moves != [] {
      var less, m := moves[..|moves| - 1], moves[|moves| - 1];
      JobsBeginInOrder(size, less);
      var p, p' := After(size, less).value, After(size, moves).value;
      StepInOrder(p, m);
      assert AllHandedIn(size, moves) == AllBegun(size, less) + (JobsOf(p.inQueue) + HandedIn(p, m));
      assert AllBegun(size, moves) == AllBegun(size, less) + Begun(p, p', m);
    }
  }
}
