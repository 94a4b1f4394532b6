/**
 A channel shared by any number of threads, its attributes fixed. A thread in a call is running,
 asleep on a condition variable, or woken and yet to get the mutex back; one pass through the mutex
 is one step. A signal wakes at least one sleeper if there is one, which one is not determined,
 other threads may get in before it, and sleepers may also wake for no reason.
 */
module ChannelProtocol {
  import opened CTypes
  import opened ChannelSpec

  type Tid = nat

  datatype Putting = Putting(block: Ptr, place: Place)

  /** The threads that wait on one condition variable, and those woken from it that are not back yet. */
  datatype Sleepers = Sleepers(asleep: set<Tid>, woken: set<Tid>)

  /** What the calls saw: the blocks they placed, those they returned, and how many were placed in front. */
  datatype History = History(placed: seq<Ptr>, taken: seq<Ptr>, headPuts: nat)

  datatype State = State(c: Chan, gets: Sleepers, puts: Sleepers, pending: map<Tid, Putting>, h: History)

  datatype Move =
    | PutCall(t: Tid, p: Putting, wakes: set<Tid>)
    | PutBack(t: Tid, wakes: set<Tid>)
    | GetCall(t: Tid, wakes: set<Tid>)
    | GetBack(t: Tid, wakes: set<Tid>)
    | SpuriousGet(t: Tid)
    | SpuriousPut(t: Tid)

  // ---------- the waiting threads ----------

  ghost function Slept(w: Sleepers, t: Tid): Sleepers
  {
    Sleepers(w.asleep + {t}, w.woken - {t})
  }

  ghost function Woke(w: Sleepers, ts: set<Tid>): Sleepers
  {
    Sleepers(w.asleep - ts, w.woken + ts)
  }

  ghost function Left(w: Sleepers, t: Tid): Sleepers
  {
    w.(woken := w.woken - {t})
  }

  ghost predicate Waits(w: Sleepers, t: Tid)
  {
    t in w.asleep || t in w.woken
  }

  ghost predicate Running(s: State, t: Tid)
  {
    !Waits(s.gets, t) && !Waits(s.puts, t)
  }

  /** Whom a signal, or the absence of one, may wake. */
  ghost predicate MayWake(asleep: set<Tid>, signals: bool, wakes: set<Tid>)
  {
    wakes <= asleep && (if signals then asleep != {} ==> wakes != {} else wakes == {})
  }

  // ---------- the passes ----------

  /** The channel as a thread finds it, its own waiting count taken back when it comes from a wait. */
  ghost function PutView(s: State, back: bool): Chan
  {
    s.c.(putWaiting := s.c.putWaiting - if back then 1 else 0)
  }

  ghost function GetView(s: State, back: bool): Chan
  {
    s.c.(getWaiting := s.c.getWaiting - if back then 1 else 0)
  }

  ghost function Placed(h: History, p: Putting): History
  {
    History(h.placed + [p.block], h.taken, h.headPuts + if p.place == First then 1 else 0)
  }

  /** What a get that ends this way hands its caller. */
  ghost function Returned(e: GetEnd): seq<Ptr>
  {
    match e
    case Got(b) => [b]
    case EndOfTransmission => [CH_ENDOFTRANSMISSION]
    case _ => []
  }

  ghost function Taken(h: History, blocks: seq<Ptr>): History
  {
    h.(taken := h.taken + blocks)
  }

  ghost function PutPass(s: State, t: Tid, p: Putting, back: bool, wakes: set<Tid>): State
  {
    var (c, e) := Put(PutView(s, back), p.block, p.place);
    match e
    case PutFull => State(c, s.gets, Left(s.puts, t), s.pending, s.h)
    case PutSleeps => State(c, s.gets, Slept(s.puts, t), s.pending[t := p], s.h)
    case PutDone(_) => State(c, Woke(s.gets, wakes), Left(s.puts, t), s.pending - {t}, Placed(s.h, p))
  }

  ghost function GetPass(s: State, t: Tid, back: bool, wakes: set<Tid>): State
  {
    var (c, e) := Get(GetView(s, back));
    match e
    case NoData => State(c, Left(s.gets, t), s.puts, s.pending, s.h)
    case GetSleeps => State(c, Slept(s.gets, t), s.puts, s.pending, s.h)
    case _ => State(c, Left(s.gets, t), Woke(s.puts, wakes), s.pending, Taken(s.h, Returned(e)))
  }

  ghost predicate PutMayRun(s: State, t: Tid, p: Putting, back: bool, wakes: set<Tid>)
  {
    var (c, e) := Put(PutView(s, back), p.block, p.place);
    && p.block != NULL
    && (if back then t in s.puts.woken else Running(s, t))
    && MayWake(s.gets.asleep, PutSignals(c, e), wakes)
  }

  ghost predicate GetMayRun(s: State, t: Tid, back: bool, wakes: set<Tid>)
  {
    var (c, e) := Get(GetView(s, back));
    && (if back then t in s.gets.woken else Running(s, t))
    && MayWake(s.puts.asleep, GetSignals(c, e), wakes)
  }

  ghost predicate Allowed(s: State, m: Move)
  {
    match m
    case PutCall(t, p, wakes) => PutMayRun(s, t, p, false, wakes)
    case PutBack(t, wakes) => t in s.pending && PutMayRun(s, t, s.pending[t], true, wakes)
    case GetCall(t, wakes) => GetMayRun(s, t, false, wakes)
    case GetBack(t, wakes) => GetMayRun(s, t, true, wakes)
    case SpuriousGet(t) => t in s.gets.asleep
    case SpuriousPut(t) => t in s.puts.asleep
  }

  ghost function Apply(s: State, m: Move): State
    requires Allowed(s, m)
  {
    match m
    case PutCall(t, p, wakes) => PutPass(s, t, p, false, wakes)
    case PutBack(t, wakes) => PutPass(s, t, s.pending[t], true, wakes)
    case GetCall(t, wakes) => GetPass(s, t, false, wakes)
    case GetBack(t, wakes) => GetPass(s, t, true, wakes)
    case SpuriousGet(t) => s.(gets := Woke(s.gets, {t}))
    case SpuriousPut(t) => s.(puts := Woke(s.puts, {t}))
  }

  ghost function Created(maxSize: nat, blocking: bool): State
  {
    State(Chan([], maxSize, blocking, 0, 0), Sleepers({}, {}), Sleepers({}, {}), map[], History([], [], 0))
  }

  /** The state an interleaving leads to from a new channel, if each of its moves is allowed. */
  ghost function After(maxSize: nat, blocking: bool, moves: seq<Move>): Option<State>
  {
    if moves == [] then Some(Created(maxSize, blocking))
    else
      match After(maxSize, blocking, moves[..|moves| - 1])
      case None => None
      case Some(s) => if Allowed(s, moves[|moves| - 1]) then Some(Apply(s, moves[|moves| - 1])) else None
  }

  // ---------- the invariant of one condition variable ----------

  /**
   waiting counts the threads waiting, which are there only if waiting is possible at all; and when
   one is asleep, the avail things it could wait for have that many woken threads coming for them.
   */
  ghost predicate Covered(w: Sleepers, waiting: int, avail: int, possible: bool)
  {
    && w.asleep !! w.woken
    && waiting == |w.asleep| + |w.woken|
    && (!possible ==> waiting == 0)
    && (w.asleep != {} ==> avail <= |w.woken|)
  }

  lemma AsleepCounts(w: Sleepers, waiting: int, avail: int, possible: bool)
    requires Covered(w, waiting, avail, possible)
    ensures waiting >= 0 && (w.asleep != {} ==> possible && waiting > 0)
  {
  }

  lemma WokeSizes(w: Sleepers, ts: set<Tid>)
    requires w.asleep !! w.woken && ts <= w.asleep
    ensures |Woke(w, ts).woken| == |w.woken| + |ts|
    ensures |Woke(w, ts).asleep| == |w.asleep| - |ts|
    ensures ts != {} ==> |ts| >= 1
  {
    assert w.asleep == (w.asleep - ts) + ts;
    assert |w.asleep| == |w.asleep - ts| + |ts|;
  }

  /** One more thing to come for, and a signal. */
  lemma WokeCovered(w: Sleepers, waiting: int, avail: int, possible: bool, ts: set<Tid>)
    requires Covered(w, waiting, avail, possible) && ts <= w.asleep && (w.asleep != {} ==> ts != {})
    ensures Covered(Woke(w, ts), waiting, avail + 1, possible)
  {
    WokeSizes(w, ts);
  }

  /** A wake-up without reason. */
  lemma SpuriousCovered(w: Sleepers, waiting: int, avail: int, possible: bool, t: Tid)
    requires Covered(w, waiting, avail, possible) && t in w.asleep
    ensures Covered(Woke(w, {t}), waiting, avail, possible)
  {
    WokeSizes(w, {t});
  }

  /** A thread that finds nothing goes to sleep, for the first time or again. */
  lemma SleptCovered(w: Sleepers, waiting: int, avail: int, possible: bool, t: Tid, back: bool)
    requires Covered(w, waiting, avail, possible) && avail <= 0 && possible
    requires if back then t in w.woken else !Waits(w, t)
    ensures Covered(Slept(w, t), waiting + if back then 0 else 1, avail, possible)
  {
    if !back {
      assert w.woken - {t} == w.woken;
    }
  }

  /** A thread takes what it came for, first come or woken. */
  lemma LeftCovered(w: Sleepers, waiting: int, avail: int, possible: bool, t: Tid, back: bool)
    requires Covered(w, waiting, avail, possible)
    requires if back then t in w.woken else !Waits(w, t)
    ensures Covered(Left(w, t), waiting - if back then 1 else 0, avail - 1, possible)
  {
    if !back {
      assert w.woken - {t} == w.woken;
    }
  }

  // ---------- the invariant ----------

  ghost predicate GetSide(s: State)
  {
    Covered(s.gets, s.c.getWaiting, |s.c.queue|, s.c.blocking)
  }

  ghost predicate PutSide(s: State)
  {
    Covered(s.puts, s.c.putWaiting, s.c.maxSize - |s.c.queue|, s.c.blocking && s.c.maxSize > 0)
  }

  ghost predicate Bounded(s: State)
  {
    s.c.maxSize > 0 ==> |s.c.queue| <= s.c.maxSize
  }

  /** A waiting put still has its block. */
  ghost predicate PendingOk(s: State)
  {
    forall t :: Waits(s.puts, t) ==> t in s.pending && s.pending[t].block != NULL
  }

  /** What was put is what was got and what is still there; in order, when nothing was put in front. */
  ghost predicate Conserved(h: History, queue: seq<Ptr>)
  {
    && multiset(h.placed) == multiset(h.taken) + multiset(queue)
    && (h.headPuts == 0 ==> h.placed == h.taken + queue)
  }

  ghost predicate Inv(s: State)
  {
    GetSide(s) && PutSide(s) && Bounded(s) && PendingOk(s) && Conserved(s.h, s.c.queue)
  }

  // ---------- every step keeps it ----------

  lemma PutConserves(h: History, queue: seq<Ptr>, p: Putting)
    requires Conserved(h, queue)
    ensures Conserved(Placed(h, p), if p.place == Last then queue + [p.block] else [p.block] + queue)
  {
    assert h.taken + queue + [p.block] == h.taken + (queue + [p.block]);
  }

  lemma GetConserves(h: History, queue: seq<Ptr>)
    requires Conserved(h, queue) && queue != []
    ensures Conserved(Taken(h, queue[..1]), queue[1..])
  {
    assert queue == queue[..1] + queue[1..];
    assert h.taken + queue == h.taken + queue[..1] + queue[1..];
  }

  lemma PutPassKeepsGetSide(s: State, t: Tid, p: Putting, back: bool, wakes: set<Tid>)
    requires GetSide(s) && PutMayRun(s, t, p, back, wakes)
    ensures GetSide(PutPass(s, t, p, back, wakes))
  {
    AsleepCounts(s.gets, s.c.getWaiting, |s.c.queue|, s.c.blocking);
    if !Full(s.c) {
      WokeCovered(s.gets, s.c.getWaiting, |s.c.queue|, s.c.blocking, wakes);
    }
  }

  lemma PutPassKeepsPutSide(s: State, t: Tid, p: Putting, back: bool, wakes: set<Tid>)
    requires PutSide(s) && PutMayRun(s, t, p, back, wakes)
    ensures PutSide(PutPass(s, t, p, back, wakes))
  {
    var room, possible := s.c.maxSize - |s.c.queue|, s.c.blocking && s.c.maxSize > 0;
    if Full(s.c) && possible {
      SleptCovered(s.puts, s.c.putWaiting, room, possible, t, back);
    } else {
      LeftCovered(s.puts, s.c.putWaiting, room, possible, t, back);
    }
  }

  lemma PutPassKeepsRest(s: State, t: Tid, p: Putting, back: bool, wakes: set<Tid>)
    requires Bounded(s) && PendingOk(s) && Conserved(s.h, s.c.queue) && PutMayRun(s, t, p, back, wakes)
    requires s.puts.asleep !! s.puts.woken
    ensures var s' := PutPass(s, t, p, back, wakes);
            Bounded(s') && PendingOk(s') && Conserved(s'.h, s'.c.queue)
  {
    if !Full(s.c) {
      PutConserves(s.h, s.c.queue, p);
    }
  }

  lemma GetPassKeepsGetSide(s: State, t: Tid, back: bool, wakes: set<Tid>)
    requires GetSide(s) && GetMayRun(s, t, back, wakes)
    ensures GetSide(GetPass(s, t, back, wakes))
  {
    if s.c.queue == [] && s.c.blocking {
      SleptCovered(s.gets, s.c.getWaiting, 0, s.c.blocking, t, back);
    } else {
      LeftCovered(s.gets, s.c.getWaiting, |s.c.queue|, s.c.blocking, t, back);
    }
  }

  lemma GetPassKeepsPutSide(s: State, t: Tid, back: bool, wakes: set<Tid>)
    requires PutSide(s) && GetMayRun(s, t, back, wakes)
    ensures PutSide(GetPass(s, t, back, wakes))
  {
    var room, possible := s.c.maxSize - |s.c.queue|, s.c.blocking && s.c.maxSize > 0;
    AsleepCounts(s.puts, s.c.putWaiting, room, possible);
    if s.c.queue != [] {
      WokeCovered(s.puts, s.c.putWaiting, room, possible, wakes);
    }
  }

  lemma GetPassKeepsRest(s: State, t: Tid, back: bool, wakes: set<Tid>)
    requires Bounded(s) && PendingOk(s) && Conserved(s.h, s.c.queue) && GetMayRun(s, t, back, wakes)
    ensures var s' := GetPass(s, t, back, wakes);
            Bounded(s') && PendingOk(s') && Conserved(s'.h, s'.c.queue)
  {
    if s.c.queue != [] {
      GetConserves(s.h, s.c.queue);
      assert Returned(Get(GetView(s, back)).1) == s.c.queue[..1];
    }
  }

  lemma PutPassKeeps(s: State, t: Tid, p: Putting, back: bool, wakes: set<Tid>)
    requires Inv(s) && PutMayRun(s, t, p, back, wakes)
    ensures Inv(PutPass(s, t, p, back, wakes))
  {
    PutPassKeepsGetSide(s, t, p, back, wakes);
    PutPassKeepsPutSide(s, t, p, back, wakes);
    PutPassKeepsRest(s, t, p, back, wakes);
  }

  lemma GetPassKeeps(s: State, t: Tid, back: bool, wakes: set<Tid>)
    requires Inv(s) && GetMayRun(s, t, back, wakes)
    ensures Inv(GetPass(s, t, back, wakes))
  {
    GetPassKeepsGetSide(s, t, back, wakes);
    GetPassKeepsPutSide(s, t, back, wakes);
    GetPassKeepsRest(s, t, back, wakes);
  }

  lemma ApplyKeeps(s: State, m: Move)
    requires Inv(s) && Allowed(s, m)
    ensures Inv(Apply(s, m))
  {
    match m
    case PutCall(t, p, wakes) => PutPassKeeps(s, t, p, false, wakes);
    case PutBack(t, wakes) => PutPassKeeps(s, t, s.pending[t], true, wakes);
    case GetCall(t, wakes) => GetPassKeeps(s, t, false, wakes);
    case GetBack(t, wakes) => GetPassKeeps(s, t, true, wakes);
    case SpuriousGet(t) => SpuriousCovered(s.gets, s.c.getWaiting, |s.c.queue|, s.c.blocking, t);
    case SpuriousPut(t) =>
      SpuriousCovered(s.puts, s.c.putWaiting, s.c.maxSize - |s.c.queue|, s.c.blocking && s.c.maxSize > 0, t);
  }

  /** The invariant holds in every state that any interleaving of any number of threads can reach. */
  lemma {:induction false} ReachableInv(maxSize: nat, blocking: bool, moves: seq<Move>)
    ensures After(maxSize, blocking, moves).Some? ==>
              var s := After(maxSize, blocking, moves).value;
              Inv(s) && s.c.maxSize == maxSize && s.c.blocking == blocking
  {
    if moves != [] {
      ReachableInv(maxSize, blocking, moves[..|moves| - 1]);
      var before := After(maxSize, blocking, moves[..|moves| - 1]);
      if before.Some? && Allowed(before.value, moves[|moves| - 1]) {
        ApplyKeeps(before.value, moves[|moves| - 1]);
        AttributesFixed(before.value, moves[|moves| - 1]);
      }
    }
  }

  lemma AttributesFixed(s: State, m: Move)
    requires Allowed(s, m)
    ensures Apply(s, m).c.maxSize == s.c.maxSize && Apply(s, m).c.blocking == s.c.blocking
  {
  }

  /**
   No wake-up is lost, whatever the interleaving, the choice of whom a signal wakes, and the wake-ups
   without reason: while a get sleeps every block has a woken get to come for it, and while a put
   sleeps every free place has a woken put to come for it.
   */
  lemma NoLostWakeUp(maxSize: nat, blocking: bool, moves: seq<Move>)
    requires After(maxSize, blocking, moves).Some?
    ensures var s := After(maxSize, blocking, moves).value;
            && (s.gets.asleep != {} ==> |s.c.queue| <= |s.gets.woken|)
            && (s.puts.asleep != {} ==> maxSize > 0 && maxSize - |s.c.queue| <= |s.puts.woken|)
  {
    ReachableInv(maxSize, blocking, moves);
    var s := After(maxSize, blocking, moves).value;
    AsleepCounts(s.puts, s.c.putWaiting, s.c.maxSize - |s.c.queue|, s.c.blocking && s.c.maxSize > 0);
  }

  /**
   What the gets returned and what is still queued are exactly the blocks placed, each as often, so
   none is lost or delivered twice; a limited channel is never overfull, and without ch_put_head the
   blocks come out in the order in which they went in.
   */
  lemma Delivery(maxSize: nat, blocking: bool, moves: seq<Move>)
    requires After(maxSize, blocking, moves).Some?
    ensures var s := After(maxSize, blocking, moves).value;
            && multiset(s.h.placed) == multiset(s.h.taken) + multiset(s.c.queue)
            && (s.h.headPuts == 0 ==> s.h.placed == s.h.taken + s.c.queue)
            && (maxSize > 0 ==> |s.c.queue| <= maxSize)
  {
    ReachableInv(maxSize, blocking, moves);
  }

  /** How many blocks were placed that no get has returned. */
  ghost function Outstanding(h: History): int
  {
    |h.placed| - |h.taken|
  }

  lemma OutstandingQueued(s: State)
    requires Conserved(s.h, s.c.queue)
    ensures Outstanding(s.h) == |s.c.queue|
  {
    assert |multiset(s.h.placed)| == |multiset(s.h.taken) + multiset(s.c.queue)|;
  }

  /**
   What a get answers, by what went before: it has no data or sleeps exactly when every block placed
   has been returned, and otherwise returns one that has not, the end of transmission if that is it.
   */
  lemma GetAnswers(maxSize: nat, blocking: bool, moves: seq<Move>, back: bool)
    requires After(maxSize, blocking, moves).Some?
    ensures var s := After(maxSize, blocking, moves).value;
            var e := Get(GetView(s, back)).1;
            && (e == NoData <==> !blocking && Outstanding(s.h) == 0)
            && (e == GetSleeps <==> blocking && Outstanding(s.h) == 0)
            && (e.Got? ==> e.block != CH_ENDOFTRANSMISSION)
            && (forall b :: b in Returned(e) ==> multiset(s.h.taken)[b] < multiset(s.h.placed)[b])
  {
    ReachableInv(maxSize, blocking, moves);
    OutstandingQueued(After(maxSize, blocking, moves).value);
  }

  /**
   What a put answers: that the channel is full, or sleep, exactly when as many blocks as there is room
   for have been placed and not returned, and otherwise how many there are with its own. A block
   placed in front is the next one returned, and the others follow as if it had never been there.
   */
  lemma PutAnswers(maxSize: nat, blocking: bool, moves: seq<Move>, p: Putting, back: bool)
    requires After(maxSize, blocking, moves).Some?
    ensures var s := After(maxSize, blocking, moves).value;
            var (c, e) := Put(PutView(s, back), p.block, p.place);
            var full := 0 < maxSize == Outstanding(s.h);
            && (e == PutFull <==> !blocking && full)
            && (e == PutSleeps <==> blocking && full)
            && (e.PutDone? ==> e.count == Outstanding(s.h) + 1)
            && (e.PutDone? && p.place == First ==>
                  Returned(Get(c).1) == [p.block] && Get(c).0.queue == s.c.queue)
  {
    ReachableInv(maxSize, blocking, moves);
    OutstandingQueued(After(maxSize, blocking, moves).value);
  }

  // ---------- woken threads come to rest ----------

  ghost function WaitingThreads(s: State): int
  {
    s.c.getWaiting + s.c.putWaiting
  }

  ghost function WokenThreads(s: State): nat
  {
    |s.gets.woken| + |s.puts.woken|
  }

  /**
   A woken thread's return either ends its call, leaving fewer threads waiting, or puts it back to
   sleep, leaving as many waiting and fewer of them woken. So with no new calls and no wake-ups
   without reason the woken threads come to rest.
   */
  lemma ReturnsRunOut(s: State, m: Move)
    requires Inv(s) && Allowed(s, m) && (m.PutBack? || m.GetBack?)
    ensures var s' := Apply(s, m);
            && WaitingThreads(s) > 0 && WaitingThreads(s') >= 0
            && (WaitingThreads(s') < WaitingThreads(s)
                || (WaitingThreads(s') == WaitingThreads(s) && WokenThreads(s') < WokenThreads(s)))
  {
    CountsNonNegative(s);
    ApplyKeeps(s, m);
    CountsNonNegative(Apply(s, m));
    match m
    case PutBack(t, wakes) => PutReturn(s, t, s.pending[t], wakes);
    case GetBack(t, wakes) => GetReturn(s, t, wakes);
  }

  lemma CountsNonNegative(s: State)
    requires Inv(s)
    ensures s.c.getWaiting >= |s.gets.woken| && s.c.putWaiting >= |s.puts.woken|
  {
  }

  lemma PutReturn(s: State, t: Tid, p: Putting, wakes: set<Tid>)
    requires PutMayRun(s, t, p, true, wakes)
    ensures var s' := PutPass(s, t, p, true, wakes);
            && |s.puts.woken| > 0
            && (WaitingThreads(s') == WaitingThreads(s) - 1
                || (WaitingThreads(s') == WaitingThreads(s) && WokenThreads(s') == WokenThreads(s) - 1))
  {
    assert |s.puts.woken - {t}| == |s.puts.woken| - 1;
  }

  lemma GetReturn(s: State, t: Tid, wakes: set<Tid>)
    requires GetMayRun(s, t, true, wakes)
    ensures var s' := GetPass(s, t, true, wakes);
            && |s.gets.woken| > 0
            && (WaitingThreads(s') == WaitingThreads(s) - 1
                || (WaitingThreads(s') == WaitingThreads(s) && WokenThreads(s') == WokenThreads(s) - 1))
  {
    assert |s.gets.woken - {t}| == |s.gets.woken| - 1;
  }

  /** Nothing but the mutex stands in a woken thread's way. */
  lemma WokenCanReturn(maxSize: nat, blocking: bool, moves: seq<Move>, t: Tid)
    requires After(maxSize, blocking, moves).Some?
    ensures var s := After(maxSize, blocking, moves).value;
            && (t in s.gets.woken ==> exists wakes :: Allowed(s, GetBack(t, wakes)))
            && (t in s.puts.woken ==> exists wakes :: Allowed(s, PutBack(t, wakes)))
  {
    ReachableInv(maxSize, blocking, moves);
    var s := After(maxSize, blocking, moves).value;
    if t in s.gets.woken {
      var (c, e) := Get(GetView(s, true));
      assert Allowed(s, GetBack(t, if GetSignals(c, e) then s.puts.asleep else {}));
    }
    if t in s.puts.woken {
      var p := s.pending[t];
      var (c, e) := Put(PutView(s, true), p.block, p.place);
      assert Allowed(s, PutBack(t, if PutSignals(c, e) then s.gets.asleep else {}));
    }
  }

  /** No thread that waits is on its way back from its wait, or can be. */
  ghost predicate AtRest(s: State)
  {
    forall m :: Allowed(s, m) ==> !m.GetBack? && !m.PutBack?
  }

  /**
   When no waiting thread can return any more, whoever still sleeps has to: no one is woken, gets sleep
   only on an empty channel and puts only on a full one, so they never sleep together.
   */
  lemma RestIsJustified(maxSize: nat, blocking: bool, moves: seq<Move>)
    requires After(maxSize, blocking, moves).Some? && AtRest(After(maxSize, blocking, moves).value)
    ensures var s := After(maxSize, blocking, moves).value;
            && WokenThreads(s) == 0
            && (s.gets.asleep != {} ==> s.c.queue == [])
            && (s.puts.asleep != {} ==> |s.c.queue| == maxSize > 0)
            && (s.gets.asleep == {} || s.puts.asleep == {})
  {
    var s := After(maxSize, blocking, moves).value;
    forall t ensures t !in s.gets.woken && t !in s.puts.woken {
      WokenCanReturn(maxSize, blocking, moves, t);
    }
    assert s.gets.woken == {} && s.puts.woken == {};
    NoLostWakeUp(maxSize, blocking, moves);
    Delivery(maxSize, blocking, moves);
  }
}
