/**
 What the calls on the hash table return under any number of threads, by what an observer of the run
 saw: the call each thread began, what the call made of the map when it had its chain, and the
 h_elements it read.
 */
module FhAnswers {
  import opened CTypes
  import opened FhChain
  import opened FhEnum
  import opened FhProtocol

  // ---------- the observer ----------

  /** The map before and after a call worked on its chain, or the h_elements an enumeration read. */
  datatype Saw = Nothing | Worked(before: map<Key, Ptr>, after: map<Key, Ptr>) | Read(elements: int)

  /** The call thread t began last. */
  ghost function LastCall(moves: seq<Move>, t: Tid): Option<Phase>
  {
    if moves == [] then None
    else
      var last := moves[|moves| - 1];
      if last.Calls? && last.t == t then Some(last.phase) else LastCall(moves[..|moves| - 1], t)
  }

  /** What is known after a move of t from s to s'. */
  ghost function SawNext(s: State, s': State, t: Tid, saw: Saw): Saw
  {
    if t !in s.threads then saw
    else
      match s.threads[t]
      case Inserting(_, _) => Worked(s.table.m, s'.table.m)
      case Deleting(_) => Worked(s.table.m, s'.table.m)
      case Reading => Read(s.elements)
      case _ => saw
  }

  /** What the call of t that began last has seen. */
  ghost function SawBy(h: Hashing, moves: seq<Move>, t: Tid): Saw
    requires h.Valid()
  {
    if moves == [] then Nothing
    else
      var less, last := moves[..|moves| - 1], moves[|moves| - 1];
      if last.t != t then SawBy(h, less, t)
      else if last.Calls? then Nothing
      else if After(h, less).Some? && After(h, moves).Some? then
        SawNext(After(h, less).value, After(h, moves).value, t, SawBy(h, less, t))
      else SawBy(h, less, t)
  }

  // ---------- what a phase says about the call ----------

  ghost predicate Tracks(p: Phase, c: Phase, saw: Saw)
  {
    match p
    case Inserting(_, _) => c == p && saw == Nothing
    case Deleting(_) => c == p && saw == Nothing
    case CountingUp =>
      c.Inserting? && saw.Worked? && c.key !in saw.before && saw.after == saw.before[c.key := c.block]
    case CountingDown => c.Deleting? && saw.Worked? && c.key in saw.before && saw.after == saw.before - {c.key}
    case Reading => c == Reading && saw == Nothing
    case Scanning(n, _, _) => c == Reading && saw == Read(n)
  }

  ghost predicate TrackOk(s: State, t: Tid, c: Option<Phase>, saw: Saw)
  {
    t in s.threads ==> c.Some? && Tracks(s.threads[t], c.value, saw)
  }

  /** What a call that has seen this may return as it goes from s to s'. */
  ghost predicate RightAnswer(s: State, s': State, t: Tid, c: Phase, saw: Saw, o: Outcome)
  {
    match o
    case Goes => t in s'.threads
    case Inserted =>
      && c.Inserting? && saw.Worked? && c.key !in saw.before && saw.after == saw.before[c.key := c.block]
      && s'.elements == s.elements + 1
    case Duplicate => c.Inserting? && saw.Worked? && c.key in saw.before && saw.after == saw.before && s'.elements == s.elements
    case Deleted =>
      && c.Deleting? && saw.Worked? && c.key in saw.before && saw.after == saw.before - {c.key}
      && s'.elements == s.elements - 1
    case NotFound => c.Deleting? && saw.Worked? && c.key !in saw.before && saw.after == saw.before && s'.elements == s.elements
    case EmptyTable => c == Reading && saw.Read? && saw.elements < 1
    case Listed(_, n, _) => c == Reading && saw == Read(n)
  }

  /** A move of the thread's own. */
  lemma OwnMoveTracks(h: Hashing, s: State, m: Move, c: Option<Phase>, saw: Saw)
    requires h.Valid() && TableOk(h, s.table) && Allowed(h, s, m) && !m.Calls? && TrackOk(s, m.t, c, saw)
    ensures var (s', o) := Apply(h, s, m);
            var saw' := SawNext(s, s', m.t, saw);
            && RightAnswer(s, s', m.t, c.value, saw', o)
            && TrackOk(s', m.t, c, saw')
            && (o == Goes <==> m.t in s'.threads)
  {
  }

  lemma OtherThreadStays(h: Hashing, s: State, m: Move, t: Tid)
    requires h.Valid() && TableOk(h, s.table) && Allowed(h, s, m) && m.t != t
    ensures var s' := Apply(h, s, m).0;
            (t in s'.threads <==> t in s.threads) && (t in s.threads ==> s'.threads[t] == s.threads[t])
  {
  }

  lemma {:induction false} RunTracks(h: Hashing, moves: seq<Move>, t: Tid)
    requires h.Valid() && After(h, moves).Some?
    ensures TrackOk(After(h, moves).value, t, LastCall(moves, t), SawBy(h, moves, t))
  {
    if moves != [] {
      var less, m := moves[..|moves| - 1], moves[|moves| - 1];
      RunTracks(h, less, t);
      if m.t != t {
        OtherThreadStays(h, After(h, less).value, m, t);
      } else if !m.Calls? {
        OwnMoveTracks(h, After(h, less).value, m, LastCall(less, t), SawBy(h, less, t));
      }
    }
  }

  /**
   What calls return, in every interleaving of any number of threads: fh_insert succeeds exactly when
   its key was not bound when it had the chain, and then bound it and nothing else, and counts one more;
   fh_del succeeds exactly when its key was bound, and then removed it and nothing else, and counts one
   less; otherwise they change nothing. fh_enum_create makes its list for as many elements as it read.
   */
  lemma AnswersAreRight(h: Hashing, moves: seq<Move>, m: Move)
    requires h.Valid() && After(h, moves).Some? && Allowed(h, After(h, moves).value, m) && !m.Calls?
    ensures var s := After(h, moves).value;
            var (s', o) := Apply(h, s, m);
            var run := moves + [m];
            && After(h, run) == Some(s') && LastCall(run, m.t).Some?
            && RightAnswer(s, s', m.t, LastCall(run, m.t).value, SawBy(h, run, m.t), o)
            && (o == Goes <==> m.t in s'.threads)
  {
    var run := moves + [m];
    assert run[..|run| - 1] == moves;
    RunTracks(h, moves, m.t);
    OwnMoveTracks(h, After(h, moves).value, m, LastCall(moves, m.t), SawBy(h, moves, m.t));
  }

  // ---------- an enumeration that nothing disturbs ----------

  /**
   From the moment thread t read h_elements for the enumeration it is in, when no call had its count
   pending, or, if it is about to read, just now, the table has stood for m.
   */
  ghost predicate QuietSince(h: Hashing, moves: seq<Move>, t: Tid, m: map<Key, Ptr>)
    requires h.Valid()
  {
    && After(h, moves).Some?
    && var s := After(h, moves).value;
    && s.table.m == m && t in s.threads
    && (if s.threads[t].Scanning? then moves != [] && QuietSince(h, moves[..|moves| - 1], t, m)
        else s.threads[t] == Reading && NonePending(s))
  }

  /** All that was seen was m, and there is room for all of it. */
  ghost predicate SawOnly(p: Phase, m: map<Key, Ptr>)
  {
    p.Scanning? ==> p.n == |m| && forall k :: 0 <= k < |p.seen.ms| ==> p.seen.ms[k] == m
  }

  lemma QuietStep(h: Hashing, less: seq<Move>, t: Tid, m: map<Key, Ptr>)
    requires h.Valid() && After(h, less).Some? && QuietSince(h, less, t, m)
    requires SawOnly(After(h, less).value.threads[t], m)
    ensures var s' := Step(After(h, less).value, t).0; t in s'.threads ==> SawOnly(s'.threads[t], m)
  {
    CountIsExact(h, less);
  }

  lemma {:induction false} QuietSawOnly(h: Hashing, moves: seq<Move>, t: Tid, m: map<Key, Ptr>)
    requires h.Valid() && QuietSince(h, moves, t, m)
    ensures SawOnly(After(h, moves).value.threads[t], m)
  {
    if After(h, moves).value.threads[t].Scanning? {
      var less, last := moves[..|moves| - 1], moves[|moves| - 1];
      QuietSawOnly(h, less, t, m);
      if last.t != t {
        OtherThreadStays(h, After(h, less).value, last, t);
      } else {
        QuietStep(h, less, t, m);
      }
    }
  }

  /** An enumeration during which no binding changes and none is pending lists every binding, each once. */
  lemma QuietEnumeration(h: Hashing, moves: seq<Move>, t: Tid, m: map<Key, Ptr>)
    requires h.Valid() && QuietSince(h, moves, t, m)
    ensures var o := Step(After(h, moves).value, t).1;
            && (o.Listed? ==> Lists(o.list, m, m.Keys))
            && (o == EmptyTable ==> m == map[])
  {
    var s := After(h, moves).value;
    var o := Step(s, t).1;
    CountIsExact(h, moves);
    QuietSawOnly(h, moves, t, m);
    if o.Listed? {
      EnumerationIsSound(h, moves, t);
      SeenIsAll(h, o.list, o.seen.ms, m, o.n);
    }
  }

  lemma SeenIsAll(h: Hashing, list: seq<Elem>, ms: seq<map<Key, Ptr>>, m: map<Key, Ptr>, n: nat)
    requires h.Valid() && |list| <= n == |m| && (forall x, y :: Differ(list, x, y))
    requires forall x :: SeenBound(h, ms, list, x)
    requires |list| < n ==> |ms| == h.dim && Lists(list, Merged(h, ms), Merged(h, ms).Keys)
    requires forall k :: 0 <= k < |ms| ==> ms[k] == m
    ensures Lists(list, m, m.Keys)
  {
    assert |m.Keys| == |m|;
    if |list| < n {
      assert ms == seq(h.dim, _ => m);
      MergedAtRest(h, m);
    } else {
      forall x ensures ElemOk(list, m, m.Keys, x) { assert SeenBound(h, ms, list, x); }
    }
  }
}
