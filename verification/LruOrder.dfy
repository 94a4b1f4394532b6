/**
 The order of the LRU list under any number of threads: by when an observer of the run last saw each
 slot go to the front, so that what is evicted is what was used least recently.
 */
module LruOrder {
  import opened CTypes
  import opened LruProtocol
  import L = LruList

  /** The slot that the next step of t brings to the front: one being linked, or a linked one being moved. */
  ghost function ToFront(s: State, t: Tid): Option<Slot>
  {
    if t !in s.threads then None
    else
      match s.threads[t]
      case AddPublish(x) => Some(x)
      case CheckMove(_, x, _) => if x in s.lists.linked then Some(x) else None
      case _ => None
  }

  /** The last move of the run that brought slot x to the front, or -1. */
  ghost function LastFront(dim: nat, moves: seq<Move>, x: Slot, shard: Key -> nat): (i: int)
    ensures -1 <= i < |moves|
  {
    if moves == [] then -1
    else
      var less, last := moves[..|moves| - 1], moves[|moves| - 1];
      if last.Runs? && After(dim, less, shard).Some? && ToFront(After(dim, less, shard).value, last.t) == Some(x) then
        |less|
      else LastFront(dim, less, x, shard)
  }

  ghost predicate Later(dim: nat, moves: seq<Move>, linked: seq<Slot>, i: int, j: int, shard: Key -> nat)
  {
    0 <= i < j < |linked| ==> LastFront(dim, moves, linked[i], shard) > LastFront(dim, moves, linked[j], shard)
  }

  ghost predicate InOrder(dim: nat, moves: seq<Move>, linked: seq<Slot>, shard: Key -> nat)
  {
    forall i, j :: Later(dim, moves, linked, i, j, shard)
  }

  // ---------- steps ----------

  lemma {:induction false} WithoutAbsent(s: seq<nat>, x: nat)
    requires x !in s
    ensures L.Without(s, x) == s
  {
    if s != [] {
      WithoutAbsent(s[1..], x);
      assert s == [s[0]] + s[1..];
    }
  }

  /** From linked to next x has come to the front, or, if there is none, at most the last has gone. */
  ghost predicate Moves(linked: seq<Slot>, next: seq<Slot>, x: Option<Slot>)
  {
    match x
    case Some(y) => next == [y] + L.Without(linked, y)
    case None => next == linked || (linked != [] && next == linked[..|linked| - 1])
  }

  lemma StepMoves(s: State, t: Tid, shard: Key -> nat)
    requires Inv(s, shard) && CanStep(s, t, shard)
    ensures Moves(s.lists.linked, Step(s, t, shard).0.lists.linked, ToFront(s, t))
  {
    assert PhaseOk(s, t) && HandOk(s, t);
    match s.threads[t]
    case AddPublish(x) => WithoutAbsent(s.lists.linked, x);
    case _ =>
  }

  /** Entry i > 0 of the list with y in front is another slot, and these keep their order. */
  lemma BehindFront(linked: seq<nat>, y: nat, i: nat, j: nat) returns (x: nat, z: nat)
    requires L.Distinct(linked) && 0 < i < j < |[y] + L.Without(linked, y)|
    ensures var next := [y] + L.Without(linked, y);
            x < z < |linked| && next[i] == linked[x] && next[j] == linked[z] && y != linked[x] && y != linked[z]
  {
    if y in linked {
      var at :| 0 <= at < |linked| && linked[at] == y;
      L.FrontedIs(linked, at);
      x, z := BehindMoved(linked, at, i, j);
    } else {
      WithoutAbsent(linked, y);
      x, z := i - 1, j - 1;
    }
  }

  lemma BehindMoved(linked: seq<nat>, at: nat, i: nat, j: nat) returns (x: nat, z: nat)
    requires L.Distinct(linked) && at < |linked| && 0 < i < j < |linked|
    ensures var next := L.Fronted(linked, at);
            |next| == |linked| && x < z < |linked| && x != at && z != at && next[i] == linked[x] && next[j] == linked[z]
  {
    L.FrontedAt(linked, at);
    x, z := L.Origin(at, i), L.Origin(at, j);
  }

  lemma NotAgain(linked: seq<nat>, y: nat, j: nat)
    requires L.Distinct(linked) && 0 < j < |[y] + L.Without(linked, y)|
    ensures ([y] + L.Without(linked, y))[j] != y
  {
    if y in linked {
      var at :| 0 <= at < |linked| && linked[at] == y;
      L.FrontedIs(linked, at);
      L.FrontedAt(linked, at);
    } else {
      WithoutAbsent(linked, y);
    }
  }

  /** Bringing a slot to the front in the last move keeps the list in order. */
  lemma FrontKeepsOrder(dim: nat, moves: seq<Move>, m: Move, linked: seq<Slot>, y: Slot, shard: Key -> nat)
    requires InOrder(dim, moves, linked, shard) && L.Distinct(linked)
    requires After(dim, moves, shard).Some? && m.Runs? && ToFront(After(dim, moves, shard).value, m.t) == Some(y)
    ensures InOrder(dim, moves + [m], [y] + L.Without(linked, y), shard)
  {
    var run, next := moves + [m], [y] + L.Without(linked, y);
    assert run[..|run| - 1] == moves;
    forall i, j ensures Later(dim, run, next, i, j, shard) {
      if 0 < i < j < |next| {
        var x, z := BehindFront(linked, y, i, j);
        assert Later(dim, moves, linked, x, z, shard);
      } else if 0 == i < j < |next| {
        NotAgain(linked, y, j);
      }
    }
  }

  /** Any other move leaves the order as it is. */
  lemma OtherKeepsOrder(dim: nat, moves: seq<Move>, m: Move, linked: seq<Slot>, next: seq<Slot>, shard: Key -> nat)
    requires InOrder(dim, moves, linked, shard) && next <= linked && After(dim, moves, shard).Some?
    requires m.Runs? ==> ToFront(After(dim, moves, shard).value, m.t) == None
    ensures InOrder(dim, moves + [m], next, shard)
  {
    var run := moves + [m];
    assert run[..|run| - 1] == moves;
    forall i, j ensures Later(dim, run, next, i, j, shard) {
      assert Later(dim, moves, linked, i, j, shard);
    }
  }

  /** In every interleaving the list is in the order in which its slots last came to the front. */
  lemma {:induction false} ListInOrder(dim: nat, moves: seq<Move>, shard: Key -> nat)
    requires After(dim, moves, shard).Some?
    ensures InOrder(dim, moves, After(dim, moves, shard).value.lists.linked, shard)
  {
    if moves != [] {
      var less, m := moves[..|moves| - 1], moves[|moves| - 1];
      assert moves == less + [m];
      ListInOrder(dim, less, shard);
      ReachableInv(dim, less, shard);
      var s := After(dim, less, shard).value;
      var linked := s.lists.linked;
      if m.Calls? {
        OtherKeepsOrder(dim, less, m, linked, linked, shard);
      } else {
        StepMoves(s, m.t, shard);
        if ToFront(s, m.t).Some? {
          FrontKeepsOrder(dim, less, m, linked, ToFront(s, m.t).value, shard);
        } else {
          OtherKeepsOrder(dim, less, m, linked, Step(s, m.t, shard).0.lists.linked, shard);
        }
      }
    }
  }

  /**
   What lru_add evicts, and lru_clear removes, is the linked slot that came to the front least recently:
   every slot that stays linked did so later.
   */
  lemma OldestGoes(dim: nat, moves: seq<Move>, t: Tid, shard: Key -> nat)
    requires After(dim, moves, shard).Some? && CanStep(After(dim, moves, shard).value, t, shard)
    requires var s := After(dim, moves, shard).value;
             (s.threads[t].AddEvict? || s.threads[t].ClearPop?) && s.lists.linked != []
    ensures var s := After(dim, moves, shard).value;
            var s' := Step(s, t, shard).0;
            && t in s'.threads && InHand(s'.threads[t]).Some?
            && var victim := InHand(s'.threads[t]).value;
            && victim in s.lists.linked && victim !in s'.lists.linked
            && forall x :: x in s.lists.linked && x != victim ==>
                 x in s'.lists.linked && LastFront(dim, moves, x, shard) > LastFront(dim, moves, victim, shard)
  {
    ReachableInv(dim, moves, shard);
    ListInOrder(dim, moves, shard);
    StepRemoves(After(dim, moves, shard).value, t, shard);
    LastIsOldest(dim, moves, After(dim, moves, shard).value.lists.linked, shard);
  }

  lemma StepRemoves(s: State, t: Tid, shard: Key -> nat)
    requires t in s.threads && (s.threads[t].AddEvict? || s.threads[t].ClearPop?) && s.lists.linked != []
    ensures var s' := Step(s, t, shard).0;
            var n := |s.lists.linked| - 1;
            && s'.lists.linked == s.lists.linked[..n]
            && t in s'.threads && InHand(s'.threads[t]) == Some(s.lists.linked[n])
  {
  }

  lemma LastIsOldest(dim: nat, moves: seq<Move>, linked: seq<Slot>, shard: Key -> nat)
    requires linked != [] && L.Distinct(linked) && InOrder(dim, moves, linked, shard)
    ensures var n := |linked| - 1;
            && linked[n] !in linked[..n]
            && forall x :: x in linked && x != linked[n] ==>
                 x in linked[..n] && LastFront(dim, moves, x, shard) > LastFront(dim, moves, linked[n], shard)
  {
    var n := |linked| - 1;
    forall x | x in linked && x != linked[n]
      ensures x in linked[..n] && LastFront(dim, moves, x, shard) > LastFront(dim, moves, linked[n], shard)
    {
      var i :| 0 <= i < |linked| && linked[i] == x;
      assert Later(dim, moves, linked, i, n, shard) && linked[..n][i] == x;
    }
  }
}
