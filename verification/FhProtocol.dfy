/**
 The hash table under any number of threads. A call works on its chain in one step, with the chain's
 lock; it enters the change in h_elements in a later step, when it has left the lock. An enumeration
 reads h_elements, and then looks at one chain after another, each in a step of its own. Between the
 steps anything may happen.
 */
module FhProtocol {
  import opened CTypes
  import opened FiniteSets
  import opened FhChain
  import opened FhEnum

  type Tid = nat

  /** The chains, the map they stand for and where its bindings are. */
  datatype Table = Table(vals: seq<Chain>, m: map<Key, Ptr>, p: Places)

  /** The chains an enumeration has looked at, and what the table stood for each time. */
  datatype Seen = Seen(vals: seq<Chain>, ms: seq<map<Key, Ptr>>, ps: seq<Places>)

  /** Where a thread is; a thread that is in no call has no phase. */
  datatype Phase =
    | Inserting(key: Key, block: Ptr)                 // about to lock the chain
    | Deleting(key: Key)                              // about to lock the chain
    | CountingUp                                      // has inserted and unlocked: about to add one to h_elements
    | CountingDown                                    // has deleted and unlocked: about to take one from it
    | Reading                                         // about to read h_elements for an enumeration
    | Scanning(n: nat, list: seq<Elem>, seen: Seen)   // about to look at the next chain, if any

  datatype State = State(table: Table, elements: int, threads: map<Tid, Phase>)

  datatype Outcome =
    | Goes
    | Inserted
    | Duplicate
    | Deleted
    | NotFound
    | EmptyTable
    | Listed(list: seq<Elem>, n: nat, seen: Seen)

  /** c and p are what the step of an inserting or deleting thread makes of its chain and of the places. */
  datatype Move =
    | Calls(t: Tid, phase: Phase)
    | Changes(t: Tid, c: Chain, p: Places)
    | Runs(t: Tid)

  // ---------- the steps ----------

  ghost predicate ChainOk(h: Hashing, table: Table, k: int)
    requires h.Valid()
  {
    0 <= k < |table.vals| ==> Holds(h, table.vals[k], k, table.m, table.p) && NoEmptyBucket(table.vals[k])
  }

  ghost predicate TableOk(h: Hashing, table: Table)
    requires h.Valid()
  {
    |table.vals| == h.dim && forall k :: ChainOk(h, table, k)
  }

  ghost function Rebound(table: Table, idx: nat, c: Chain, m: map<Key, Ptr>, p: Places): Table
    requires idx < |table.vals|
  {
    Table(table.vals[idx := c], m, p)
  }

  /** What the map is once the call in this phase has worked on its chain. */
  ghost function MapAfter(m: map<Key, Ptr>, phase: Phase): map<Key, Ptr>
    requires phase.Inserting? || phase.Deleting?
  {
    if phase.Deleting? then m - {phase.key} else if phase.key in m then m else m[phase.key := phase.block]
  }

  /** There is something to do: a key to be inserted is new, or one to be deleted is there. */
  ghost predicate Matters(m: map<Key, Ptr>, phase: Phase)
    requires phase.Inserting? || phase.Deleting?
  {
    phase.Inserting? <==> phase.key !in m
  }

  /** The chain of key becomes c and the places p, which is as the map m' says; no other chain is touched. */
  ghost predicate ChangesTo(h: Hashing, table: Table, key: Key, m': map<Key, Ptr>, c: Chain, p: Places)
    requires h.Valid()
  {
    && Holds(h, c, h.Index(key), m', p) && NoEmptyBucket(c)
    && (forall k :: h.Index(k) != h.Index(key) && k in table.p ==> k in p && p[k] == table.p[k])
  }

  ghost predicate Allowed(h: Hashing, s: State, m: Move)
    requires h.Valid()
  {
    match m
    case Calls(t, phase) => t !in s.threads && (phase.Inserting? || phase.Deleting? || phase.Reading?)
    case Changes(t, c, p) =>
      && t in s.threads && (s.threads[t].Inserting? || s.threads[t].Deleting?) && Matters(s.table.m, s.threads[t])
      && ChangesTo(h, s.table, s.threads[t].key, MapAfter(s.table.m, s.threads[t]), c, p)
    case Runs(t) =>
      t in s.threads && (s.threads[t].Inserting? || s.threads[t].Deleting? ==> !Matters(s.table.m, s.threads[t]))
  }

  ghost function At(s: State, t: Tid, phase: Phase): State
  {
    s.(threads := s.threads[t := phase])
  }

  ghost function Return(s: State, t: Tid): State
  {
    s.(threads := s.threads - {t})
  }

  /** Looking at chain k, with its lock. */
  ghost function Scan(s: State, phase: Phase, k: nat): Phase
    requires phase.Scanning? && k < |s.table.vals|
  {
    var c := s.table.vals[k];
    Scanning(phase.n, Take(phase.list + ChainElems(c, |c|), phase.n),
             Seen(phase.seen.vals + [c], phase.seen.ms + [s.table.m], phase.seen.ps + [s.table.p]))
  }

  ghost function Step(s: State, t: Tid): (State, Outcome)
    requires t in s.threads
  {
    var phase := s.threads[t];
    match phase
    case Inserting(_, _) => (Return(s, t), Duplicate)
    case Deleting(_) => (Return(s, t), NotFound)
    case CountingUp => (Return(s.(elements := s.elements + 1), t), Inserted)
    case CountingDown => (Return(s.(elements := s.elements - 1), t), Deleted)
    case Reading =>
      if s.elements < 1 then (Return(s, t), EmptyTable)
      else (At(s, t, Scanning(s.elements, [], Seen([], [], []))), Goes)
    case Scanning(n, list, seen) =>
      if |seen.vals| < |s.table.vals| && |list| < n then (At(s, t, Scan(s, phase, |seen.vals|)), Goes)
      else (Return(s, t), Listed(list, n, seen))
  }

  ghost function Apply(h: Hashing, s: State, m: Move): (State, Outcome)
    requires h.Valid() && TableOk(h, s.table) && Allowed(h, s, m)
  {
    match m
    case Calls(t, phase) => (At(s, t, phase), Goes)
    case Changes(t, c, p) =>
      var phase := s.threads[t];
      var table := Rebound(s.table, h.Index(phase.key), c, MapAfter(s.table.m, phase), p);
      (At(s.(table := table), t, if phase.Inserting? then CountingUp else CountingDown), Goes)
    case Runs(t) => Step(s, t)
  }

  ghost function Created(h: Hashing): State
    requires h.Valid()
  {
    State(Table(seq(h.dim, _ => []), map[], map[]), 0, map[])
  }

  /** The state an interleaving leads to from the new table, if each of its moves is allowed. */
  ghost function After(h: Hashing, moves: seq<Move>): (r: Option<State>)
    requires h.Valid()
    ensures r.Some? ==> TableOk(h, r.value.table)
  {
    if moves == [] then
      CreatedTable(h);
      Some(Created(h))
    else
      match After(h, moves[..|moves| - 1])
      case None => None
      case Some(s) =>
        if Allowed(h, s, moves[|moves| - 1]) then
          TableKept(h, s, moves[|moves| - 1]);
          Some(Apply(h, s, moves[|moves| - 1]).0)
        else None
  }

  // ---------- the table ----------

  lemma CreatedTable(h: Hashing)
    requires h.Valid()
    ensures TableOk(h, Created(h).table)
  {
    forall k ensures ChainOk(h, Created(h).table, k) {
    }
  }

  lemma ReboundOk(h: Hashing, table: Table, key: Key, m': map<Key, Ptr>, c: Chain, p: Places)
    requires h.Valid() && TableOk(h, table) && ChangesTo(h, table, key, m', c, p)
    requires m' == table.m - {key} || (key !in table.m && key in m' && m' == table.m[key := m'[key]])
    ensures TableOk(h, Rebound(table, h.Index(key), c, m', p))
  {
    var table' := Rebound(table, h.Index(key), c, m', p);
    forall k ensures ChainOk(h, table', k) {
      assert ChainOk(h, table, k);
      if 0 <= k < h.dim && k != h.Index(key) {
        OtherChain(h, table.vals[k], k, table.m, table.p, m', p);
      }
    }
  }

  lemma TableKept(h: Hashing, s: State, m: Move)
    requires h.Valid() && TableOk(h, s.table) && Allowed(h, s, m)
    ensures TableOk(h, Apply(h, s, m).0.table)
  {
    if m.Changes? {
      var phase := s.threads[m.t];
      ReboundOk(h, s.table, phase.key, MapAfter(s.table.m, phase), m.c, m.p);
    }
  }

  /** A thread that has something to insert can: if nowhere else, in a bucket of its own at the end of the chain. */
  lemma InsertCan(h: Hashing, table: Table, key: Key, block: Ptr) returns (c: Chain, p: Places)
    requires h.Valid() && TableOk(h, table) && key !in table.m
    ensures ChangesTo(h, table, key, table.m[key := block], c, p)
  {
    var idx := h.Index(key);
    assert ChainOk(h, table, idx);
    var chain := table.vals[idx];
    var spare: Bucket := seq(BUCKET_SIZE, _ => EMPTY);
    ExtendHolds(h, chain, idx, table.m, table.p, spare);
    FillHolds(h, chain + [spare], table.m, table.p, |chain|, 0, key, block);
    c := Put(chain + [spare], |chain|, 0, Slot(h.Mini(key), Some(key), block));
    p := table.p[key := (|chain|, 0)];
    assert c[|chain|][0].Used();
    forall j | 0 <= j < |c| ensures HasUsed(c[j]) {
      if j < |chain| { assert c[j] == chain[j]; }
    }
  }

  lemma DeleteCan(h: Hashing, table: Table, key: Key) returns (c: Chain, p: Places)
    requires h.Valid() && TableOk(h, table) && key in table.m
    ensures ChangesTo(h, table, key, table.m - {key}, c, p)
  {
    var idx := h.Index(key);
    assert ChainOk(h, table, idx);
    var chain := table.vals[idx];
    ScanFinds(h, chain, table.m, table.p, key);
    var (j, i) := table.p[key];
    FreeHolds(h, chain, table.m, table.p, key);
    c, p := Put(chain, j, i, EMPTY), table.p - {key};
    assert forall k :: 0 <= k < |chain| && k != j ==> c[k] == chain[k];
    if !HasUsed(c[j]) {
      DropHolds(h, c, idx, table.m - {key}, p, j);
      c, p := c[..j] + c[j + 1..], Shifted(h, p, idx, j);
    }
  }

  /** No thread in a call is ever kept from its next step. */
  lemma EveryoneCanGoOn(h: Hashing, moves: seq<Move>, t: Tid)
    requires h.Valid() && After(h, moves).Some? && t in After(h, moves).value.threads
    ensures exists m :: Allowed(h, After(h, moves).value, m) && !m.Calls? && m.t == t
  {
    var s := After(h, moves).value;
    var phase := s.threads[t];
    var m := Runs(t);
    if (phase.Inserting? || phase.Deleting?) && Matters(s.table.m, phase) {
      var c, p;
      if phase.Inserting? {
        c, p := InsertCan(h, s.table, phase.key, phase.block);
      } else {
        c, p := DeleteCan(h, s.table, phase.key);
      }
      m := Changes(t, c, p);
    }
    assert Allowed(h, s, m);
  }

  // ---------- counting ----------

  ghost predicate Up(phase: Phase)
  {
    phase.CountingUp?
  }

  ghost predicate Down(phase: Phase)
  {
    phase.CountingDown?
  }

  ghost predicate CountOk(s: State)
  {
    s.elements + |Those(s.threads, Up)| - |Those(s.threads, Down)| == |s.table.m|
  }

  lemma MapSizes(m: map<Key, Ptr>, key: Key, block: Ptr)
    ensures key !in m ==> |m[key := block]| == |m| + 1
    ensures key in m ==> |m - {key}| == |m| - 1
  {
    assert |m.Keys| == |m| && |m[key := block].Keys| == |m[key := block]| && |(m - {key}).Keys| == |m - {key}|;
    assert m[key := block].Keys == m.Keys + {key} && (m - {key}).Keys == m.Keys - {key};
  }

  lemma ChangeKeepsCount(h: Hashing, s: State, m: Move)
    requires h.Valid() && TableOk(h, s.table) && Allowed(h, s, m) && m.Changes? && CountOk(s)
    ensures CountOk(Apply(h, s, m).0)
  {
    var phase := s.threads[m.t];
    var next := if phase.Inserting? then CountingUp else CountingDown;
    ThoseUpdate(s.threads, m.t, next, Up);
    ThoseUpdate(s.threads, m.t, next, Down);
    MapSizes(s.table.m, phase.key, if phase.Inserting? then phase.block else NULL);
  }

  lemma StepKeepsCount(s: State, t: Tid)
    requires t in s.threads && CountOk(s)
    ensures CountOk(Step(s, t).0)
  {
    if t in Step(s, t).0.threads {
      ThoseUpdate(s.threads, t, Step(s, t).0.threads[t], Up);
      ThoseUpdate(s.threads, t, Step(s, t).0.threads[t], Down);
    } else {
      ThoseRemove(s.threads, t, Up);
      ThoseRemove(s.threads, t, Down);
    }
  }

  /** No call has changed its chain without having counted it. */
  ghost predicate NonePending(s: State)
  {
    forall t :: t in s.threads ==> !s.threads[t].CountingUp? && !s.threads[t].CountingDown?
  }

  /**
   In every interleaving h_elements is off by exactly the calls that have changed their chain and not
   counted it yet; when there is none it is the number of bindings.
   */
  lemma {:induction false} CountIsExact(h: Hashing, moves: seq<Move>)
    requires h.Valid() && After(h, moves).Some?
    ensures CountOk(After(h, moves).value)
    ensures NonePending(After(h, moves).value) ==> After(h, moves).value.elements == |After(h, moves).value.table.m|
  {
    if moves == [] {
      assert Those(Created(h).threads, Up) == {} == Those(Created(h).threads, Down);
    } else {
      var before := moves[..|moves| - 1];
      CountIsExact(h, before);
      var s := After(h, before).value;
      match moves[|moves| - 1]
      case Calls(t, phase) => ThoseAdd(s.threads, t, phase, Up); ThoseAdd(s.threads, t, phase, Down);
      case Changes(_, _, _) => ChangeKeepsCount(h, s, moves[|moves| - 1]);
      case Runs(t) => StepKeepsCount(s, t);
    }
    if NonePending(After(h, moves).value) {
      var threads := After(h, moves).value.threads;
      assert Those(threads, Up) == {} == Those(threads, Down);
    }
  }

  // ---------- enumerating ----------

  /** What an enumeration has so far is what the chains it has looked at held, as far as the array goes. */
  ghost predicate ScanOk(h: Hashing, s: State, t: Tid)
    requires h.Valid()
  {
    t in s.threads && s.threads[t].Scanning? ==>
      var Scanning(n, list, seen) := s.threads[t];
      && n > 0 && Snapshots(h, seen.vals, seen.ms, seen.ps)
      && list == Take(TableElems(seen.vals, |seen.vals|), n)
  }

  lemma {:induction false} TableElemsSame(a: seq<Chain>, b: seq<Chain>, k: nat)
    requires k <= |a| && k <= |b| && forall i :: 0 <= i < k ==> a[i] == b[i]
    ensures TableElems(a, k) == TableElems(b, k)
  {
    if k > 0 {
      TableElemsSame(a, b, k - 1);
    }
  }

  lemma ScanKeeps(h: Hashing, s: State, t: Tid)
    requires h.Valid() && TableOk(h, s.table) && ScanOk(h, s, t) && t in s.threads && s.threads[t].Scanning?
    ensures ScanOk(h, Step(s, t).0, t)
  {
    var Scanning(n, list, seen) := s.threads[t];
    var k := |seen.vals|;
    if k < |s.table.vals| && |list| < n {
      assert ChainOk(h, s.table, k);
      var c, next := s.table.vals[k], Scan(s, s.threads[t], k).seen;
      TableElemsSame(next.vals, seen.vals, k);
      TakeAppend(TableElems(seen.vals, k), ChainElems(c, |c|), n);
    }
  }

  lemma {:induction false} ScansOk(h: Hashing, moves: seq<Move>, t: Tid)
    requires h.Valid() && After(h, moves).Some?
    ensures ScanOk(h, After(h, moves).value, t)
  {
    if moves != [] {
      var before := moves[..|moves| - 1];
      ScansOk(h, before, t);
      var s := After(h, before).value;
      if moves[|moves| - 1] == Runs(t) && s.threads[t].Scanning? {
        ScanKeeps(h, s, t);
      }
    }
  }

  /**
   Whatever the other threads insert and delete meanwhile, fh_enum_create returns at most as many
   elements as it allocated room for, no key twice, and each as it was bound when its chain was looked at.
   */
  lemma EnumerationIsSound(h: Hashing, moves: seq<Move>, t: Tid)
    requires h.Valid() && After(h, moves).Some? && Allowed(h, After(h, moves).value, Runs(t))
    requires Step(After(h, moves).value, t).1.Listed?
    ensures var Listed(list, n, seen) := Step(After(h, moves).value, t).1;
            && |list| <= n
            && (forall x, y :: Differ(list, x, y))
            && (forall x :: SeenBound(h, seen.ms, list, x))
            && (|list| < n ==> |seen.ms| == h.dim && Lists(list, Merged(h, seen.ms), Merged(h, seen.ms).Keys))
  {
    ScansOk(h, moves, t);
    var Scanning(n, list, seen) := After(h, moves).value.threads[t];
    EnumerationOfSnapshots(h, seen.vals, seen.ms, seen.ps, n);
  }

  /** key has been bound to block all the time since thread t read h_elements for the enumeration it is in. */
  ghost predicate BoundSince(h: Hashing, moves: seq<Move>, t: Tid, key: Key, block: Ptr)
    requires h.Valid()
  {
    && After(h, moves).Some?
    && (var s := After(h, moves).value;
        t in s.threads && s.threads[t].Scanning? ==>
          && key in s.table.m && s.table.m[key] == block
          && (moves == [] || BoundSince(h, moves[..|moves| - 1], t, key, block)))
  }

  /** The enumeration has seen the binding in every state it has looked at. */
  ghost predicate HasSeen(s: State, t: Tid, key: Key, block: Ptr)
  {
    t in s.threads && s.threads[t].Scanning? ==>
      forall k :: 0 <= k < |s.threads[t].seen.ms| ==> key in s.threads[t].seen.ms[k] && s.threads[t].seen.ms[k][key] == block
  }

  lemma {:induction false} SeenSince(h: Hashing, moves: seq<Move>, t: Tid, key: Key, block: Ptr)
    requires h.Valid() && BoundSince(h, moves, t, key, block)
    ensures HasSeen(After(h, moves).value, t, key, block)
  {
    var s := After(h, moves).value;
    if moves != [] && t in s.threads && s.threads[t].Scanning? {
      var before := moves[..|moves| - 1];
      SeenSince(h, before, t, key, block);
      var was := After(h, before).value;
      if t in was.threads && was.threads[t].Scanning? && moves[|moves| - 1] == Runs(t) {
        ScanSees(was, t, key, block);
      }
    }
  }

  lemma ScanSees(s: State, t: Tid, key: Key, block: Ptr)
    requires t in s.threads && s.threads[t].Scanning? && HasSeen(s, t, key, block)
    requires key in s.table.m && s.table.m[key] == block
    ensures HasSeen(Step(s, t).0, t, key, block)
  {
  }

  /** A full list of what was seen has the binding that was seen in every state. */
  lemma ListedWhenSeen(h: Hashing, list: seq<Elem>, ms: seq<map<Key, Ptr>>, key: Key, block: Ptr)
    requires h.Valid() && |ms| == h.dim && Lists(list, Merged(h, ms), Merged(h, ms).Keys)
    requires forall k :: 0 <= k < |ms| ==> key in ms[k] && ms[k][key] == block
    ensures Elem(Some(key), block) in list
  {
    var m := Merged(h, ms);
    assert FromOwn(h, ms, key);
    ListsCovers(list, m, m.Keys, key);
    var x :| 0 <= x < |list| && list[x].key == Some(key);
    assert ElemOk(list, m, m.Keys, x);
  }

  /** A binding that stays through the whole enumeration is listed, unless the array is full. */
  lemma StayingIsListed(h: Hashing, moves: seq<Move>, t: Tid, key: Key, block: Ptr)
    requires h.Valid() && BoundSince(h, moves, t, key, block) && Allowed(h, After(h, moves).value, Runs(t))
    requires Step(After(h, moves).value, t).1.Listed?
    ensures var Listed(list, n, _) := Step(After(h, moves).value, t).1;
            |list| == n || Elem(Some(key), block) in list
  {
    EnumerationIsSound(h, moves, t);
    SeenSince(h, moves, t, key, block);
    var Listed(list, n, seen) := Step(After(h, moves).value, t).1;
    if |list| < n {
      ListedWhenSeen(h, list, seen.ms, key, block);
    }
  }
}
