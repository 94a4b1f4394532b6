/**
 The intrusive list under the LRU cache (liblru/ll.c). All slots live in one allocated array, so a
 slot pointer is an index into it and NIL stands for NULL. The payload block of a slot is allocated
 with it and never changes, so the block of slot i is simply block i.
 */
module LruList {
  import opened CTypes
  import opened FiniteSets

  const NIL := -1
  const LL_SLOT_LINKED := 0
  const LL_SLOT_IN_FREELIST := 0xFE
  const LL_SLOT_DANGLING := 0xFD

  datatype Slot = Slot(next: int, prev: int, status: int)

  // ---------- the list as two sequences ----------

  /**
   The linked slots, most recently used first, the free slots in the order they will be taken, and
   those slots in callers' hands whose links are as ll_slot_new left them.
   */
  datatype View = View(size: nat, linked: seq<nat>, free: seq<nat>, clear: set<nat>)

  ghost predicate Distinct(s: seq<nat>)
  {
    forall i, j :: 0 <= i < j < |s| ==> s[i] != s[j]
  }

  ghost predicate Below(s: seq<nat>, n: nat)
  {
    forall i :: 0 <= i < |s| ==> s[i] < n
  }

  ghost predicate ValidView(v: View)
  {
    && Distinct(v.linked) && Distinct(v.free) && Below(v.linked, v.size) && Below(v.free, v.size)
    && (forall s :: s in v.linked ==> s !in v.free)
    && (forall s :: s in v.clear ==> Dangling(v, s))
  }

  /** The i-th element, or NIL beyond either end. */
  ghost function At(s: seq<nat>, i: int): int
  {
    if 0 <= i < |s| then s[i] else NIL
  }

  /** In the hands of a caller: neither linked nor free. */
  ghost predicate Dangling(v: View, s: nat)
  {
    s < v.size && s !in v.linked && s !in v.free
  }

  /** s without its element x, the others in their order. */
  ghost function Without(s: seq<nat>, x: nat): seq<nat>
  {
    if s == [] then [] else if s[0] == x then s[1..] else [s[0]] + Without(s[1..], x)
  }

  ghost function NewSlot(v: View): (View, Option<nat>)
  {
    if v.free == [] then (v, None)
    else (v.(free := v.free[1..], clear := v.clear + {v.free[0]}), Some(v.free[0]))
  }

  ghost function FreeSlot(v: View, s: nat): View
  {
    v.(free := [s] + v.free, clear := v.clear - {s})
  }

  ghost function RemoveLast(v: View): (View, Option<nat>)
  {
    if v.linked == [] then (v, None)
    else (v.(linked := v.linked[..|v.linked| - 1]), Some(v.linked[|v.linked| - 1]))
  }

  /** Only a dangling slot is added. */
  ghost function AddToTop(v: View, s: nat): View
  {
    if Dangling(v, s) then v.(linked := [s] + v.linked, clear := v.clear - {s}) else v
  }

  /** Only a linked slot is moved. */
  ghost function MoveToTop(v: View, s: nat): View
  {
    if s in v.linked then v.(linked := [s] + Without(v.linked, s)) else v
  }

  // ---------- lemmas about the sequences ----------

  lemma {:induction false} WithoutCut(s: seq<nat>, i: nat)
    requires Distinct(s) && i < |s|
    ensures Without(s, s[i]) == s[..i] + s[i + 1..]
  {
    if i > 0 {
      WithoutCut(s[1..], i - 1);
      assert s[..i] + s[i + 1..] == [s[0]] + (s[1..][..i - 1] + s[1..][i..]);
    }
  }

  ghost function Fronted<T>(s: seq<T>, i: nat): seq<T>
    requires i < |s|
  {
    [s[i]] + s[..i] + s[i + 1..]
  }

  /** Where element x of Fronted(s, i) comes from. */
  ghost function Origin(i: nat, x: nat): nat
  {
    if x == 0 then i else if x <= i then x - 1 else x
  }

  lemma FrontedAt<T>(s: seq<T>, i: nat)
    requires i < |s|
    ensures |Fronted(s, i)| == |s|
    ensures forall x :: 0 <= x < |s| ==> Fronted(s, i)[x] == s[Origin(i, x)]
    ensures forall x :: x in s ==> x in Fronted(s, i)
  {
    forall x | x in s ensures x in Fronted(s, i) {
      var j :| 0 <= j < |s| && s[j] == x;
      assert Fronted(s, i)[if j == i then 0 else if j < i then j + 1 else j] == x;
    }
  }

  lemma CatAssociates<T>(a: seq<T>, b: seq<T>, c: seq<T>)
    ensures a + (b + c) == a + b + c
  {
  }

  /** Taking an element out and putting it in front is moving it to the front. */
  lemma FrontedIs(s: seq<nat>, i: nat)
    requires Distinct(s) && i < |s|
    ensures [s[i]] + Without(s, s[i]) == Fronted(s, i)
  {
    WithoutCut(s, i);
    CatAssociates([s[i]], s[..i], s[i + 1..]);
  }

  lemma FrontedTop<T>(s: seq<T>)
    requires s != []
    ensures Fronted(s, 0) == s
  {
  }

  /** Moving an element to the front keeps the elements distinct and the same. */
  lemma FrontedKeeps(s: seq<nat>, i: nat)
    requires Distinct(s) && i < |s|
    ensures [s[i]] + Without(s, s[i]) == Fronted(s, i) && Distinct(Fronted(s, i))
    ensures forall x :: x in Fronted(s, i) <==> x in s
  {
    FrontedIs(s, i);
    FrontedAt(s, i);
    FrontedDistinct(s, Fronted(s, i), i);
  }

  lemma FrontedDistinct(s: seq<nat>, s': seq<nat>, i: nat)
    requires Distinct(s) && i < |s| == |s'|
    requires forall x :: 0 <= x < |s| ==> s'[x] == s[Origin(i, x)]
    ensures Distinct(s') && forall x :: x in s' ==> x in s
  {
    forall a, b | 0 <= a < b < |s| ensures s'[a] != s'[b] {
      var oa, ob := Origin(i, a), Origin(i, b);
      assert oa < ob || ob < oa;
    }
  }

  ghost function Elements(s: seq<nat>): set<nat>
  {
    set x | x in s
  }

  lemma {:induction false} SetSize(s: seq<nat>)
    requires Distinct(s)
    ensures |Elements(s)| == |s|
  {
    if s != [] {
      SetSize(s[1..]);
      assert Elements(s) == Elements(s[1..]) + {s[0]};
    }
  }

  ghost function DanglingSlots(v: View): set<nat>
  {
    Range(v.size) - Elements(v.linked) - Elements(v.free)
  }

  /** Linked, free and dangling slots together are all the slots there are. */
  lemma SlotsAddUp(v: View)
    requires ValidView(v)
    ensures |v.linked| + |v.free| + |DanglingSlots(v)| == v.size
  {
    var linked, free := Elements(v.linked), Elements(v.free);
    SetSize(v.linked);
    SetSize(v.free);
    RangeSize(v.size);
    assert Range(v.size) == (linked + free) + DanglingSlots(v);
    assert |linked + free| == |linked| + |free|;
  }

  // ---------- how the slots hold the two sequences ----------

  /** The i-th linked slot: prev leads one step towards last, next one step towards top. */
  ghost predicate LinkOk(m: seq<Slot>, linked: seq<nat>, rank: seq<int>, i: int)
  {
    0 <= i < |linked| ==>
      && linked[i] < |m| == |rank| && rank[linked[i]] == i
      && m[linked[i]] == Slot(At(linked, i - 1), At(linked, i + 1), LL_SLOT_LINKED)
  }

  /** The i-th free slot leads to the one after it. */
  ghost predicate FreeOk(m: seq<Slot>, free: seq<nat>, rank: seq<int>, i: int)
  {
    0 <= i < |free| ==>
      && free[i] < |m| == |rank| && rank[free[i]] == i
      && m[free[i]].next == At(free, i + 1) && m[free[i]].status == LL_SLOT_IN_FREELIST
  }

  /** The status of slot s tells which sequence it is in, and its rank tells where. */
  ghost predicate PlaceOk(m: seq<Slot>, linked: seq<nat>, free: seq<nat>, rank: seq<int>, s: int)
  {
    0 <= s < |m| == |rank| ==>
      && (m[s].status == LL_SLOT_LINKED ==> At(linked, rank[s]) == s)
      && (m[s].status == LL_SLOT_IN_FREELIST ==> At(free, rank[s]) == s)
      && (m[s].status == LL_SLOT_LINKED || m[s].status == LL_SLOT_IN_FREELIST || m[s].status == LL_SLOT_DANGLING)
  }

  ghost predicate Threaded(m: seq<Slot>, linked: seq<nat>, free: seq<nat>, rank: seq<int>)
  {
    && |m| == |rank|
    && (forall i :: LinkOk(m, linked, rank, i))
    && (forall i :: FreeOk(m, free, rank, i))
    && (forall s :: PlaceOk(m, linked, free, rank, s))
  }

  /** The links of these slots, which are in callers' hands, are clear. */
  ghost predicate ClearOk(m: seq<Slot>, clear: set<nat>)
  {
    forall s :: s in clear ==> s < |m| && m[s] == Slot(NIL, NIL, LL_SLOT_DANGLING)
  }

  /** What a threaded memory says in terms of the sequences alone. */
  lemma Meaning(m: seq<Slot>, linked: seq<nat>, free: seq<nat>, rank: seq<int>, clear: set<nat>)
    requires Threaded(m, linked, free, rank) && ClearOk(m, clear)
    ensures ValidView(View(|m|, linked, free, clear))
    ensures forall s: nat :: s < |m| ==> (s in linked <==> m[s].status == LL_SLOT_LINKED)
    ensures forall s: nat :: s < |m| ==> (s in free <==> m[s].status == LL_SLOT_IN_FREELIST)
    ensures forall s: nat :: s < |m| ==> (Dangling(View(|m|, linked, free, clear), s) <==> m[s].status == LL_SLOT_DANGLING)
  {
    forall i | 0 <= i < |linked|
      ensures linked[i] < |m| && rank[linked[i]] == i && m[linked[i]].status == LL_SLOT_LINKED
    {
      assert LinkOk(m, linked, rank, i);
    }
    forall i | 0 <= i < |free|
      ensures free[i] < |m| && rank[free[i]] == i && m[free[i]].status == LL_SLOT_IN_FREELIST
    {
      assert FreeOk(m, free, rank, i);
    }
    forall s: nat | s < |m|
      ensures s in linked <==> m[s].status == LL_SLOT_LINKED
      ensures s in free <==> m[s].status == LL_SLOT_IN_FREELIST
      ensures Dangling(View(|m|, linked, free, clear), s) <==> m[s].status == LL_SLOT_DANGLING
    {
      assert PlaceOk(m, linked, free, rank, s);
    }
  }

  /** The effect of ll_remove_last on the slots. */
  ghost function Unlinked(m: seq<Slot>, linked: seq<nat>): seq<Slot>
    requires linked != [] && Below(linked, |m|)
  {
    var n := |linked|;
    var m' := if n == 1 then m else m[linked[n - 2] := m[linked[n - 2]].(prev := NIL)];
    m'[linked[n - 1] := m'[linked[n - 1]].(status := LL_SLOT_DANGLING)]
  }

  lemma UnlinkedThreaded(m: seq<Slot>, linked: seq<nat>, free: seq<nat>, rank: seq<int>)
    requires Threaded(m, linked, free, rank) && linked != [] && Below(linked, |m|)
    ensures Threaded(Unlinked(m, linked), linked[..|linked| - 1], free, rank)
  {
    var n := |linked|;
    var m', l' := Unlinked(m, linked), linked[..n - 1];
    assert LinkOk(m, linked, rank, n - 1) && LinkOk(m, linked, rank, n - 2);
    forall i ensures LinkOk(m', l', rank, i) {
      assert LinkOk(m, linked, rank, i);
    }
    forall i ensures FreeOk(m', free, rank, i) {
      assert FreeOk(m, free, rank, i);
    }
    forall s ensures PlaceOk(m', l', free, rank, s) {
      assert PlaceOk(m, linked, free, rank, s);
    }
  }

  /** The effect of ll_slot_new on the slots. */
  lemma TakenThreaded(m: seq<Slot>, linked: seq<nat>, free: seq<nat>, rank: seq<int>) returns (r: seq<int>)
    requires Threaded(m, linked, free, rank) && free != [] && free[0] < |m|
    ensures Threaded(m[free[0] := Slot(NIL, NIL, LL_SLOT_DANGLING)], linked, free[1..], r)
  {
    var m', f' := m[free[0] := Slot(NIL, NIL, LL_SLOT_DANGLING)], free[1..];
    r := seq(|rank|, s requires 0 <= s < |rank| =>
      if s < |m| && m[s].status == LL_SLOT_IN_FREELIST then rank[s] - 1 else rank[s]);
    assert FreeOk(m, free, rank, 0);
    forall i ensures LinkOk(m', linked, r, i) {
      assert LinkOk(m, linked, rank, i);
    }
    forall i ensures FreeOk(m', f', r, i) {
      assert FreeOk(m, free, rank, i + 1);
    }
    forall s ensures PlaceOk(m', linked, f', r, s) {
      assert PlaceOk(m, linked, free, rank, s);
    }
  }

  lemma FreedThreaded(m: seq<Slot>, linked: seq<nat>, free: seq<nat>, rank: seq<int>, slot: nat) returns (r: seq<int>)
    requires Threaded(m, linked, free, rank) && slot < |m| && m[slot].status == LL_SLOT_DANGLING
    ensures Threaded(Freed(m, free, slot), linked, [slot] + free, r)
  {
    var m', f' := Freed(m, free, slot), [slot] + free;
    r := seq(|rank|, s requires 0 <= s < |rank| =>
      if s == slot then 0
      else if s < |m| && m[s].status == LL_SLOT_IN_FREELIST then rank[s] + 1
      else rank[s]);
    forall i ensures LinkOk(m', linked, r, i) {
      assert LinkOk(m, linked, rank, i);
    }
    forall i ensures FreeOk(m', f', r, i) {
      assert FreeOk(m, free, rank, i - 1);
    }
    forall s ensures PlaceOk(m', linked, f', r, s) {
      assert PlaceOk(m, linked, free, rank, s);
    }
  }

  /** The effect of ll_slot_free on the slots, whatever slot it is given. */
  ghost function Freed(m: seq<Slot>, free: seq<nat>, slot: nat): seq<Slot>
    requires slot < |m|
  {
    m[slot := m[slot].(next := At(free, 0), status := LL_SLOT_IN_FREELIST)]
  }

  /** Nothing but a dangling slot can be freed: with any other no place of the slots makes sense of the two lists. */
  lemma FreedExactly(m: seq<Slot>, linked: seq<nat>, free: seq<nat>, rank: seq<int>, slot: nat)
    requires Threaded(m, linked, free, rank) && slot < |m|
    ensures (exists r :: Threaded(Freed(m, free, slot), linked, [slot] + free, r)) <==> m[slot].status == LL_SLOT_DANGLING
  {
    if m[slot].status == LL_SLOT_DANGLING {
      var r := FreedThreaded(m, linked, free, rank, slot);
    } else {
      forall r ensures !Threaded(Freed(m, free, slot), linked, [slot] + free, r) {
        FreedTwice(m, linked, free, rank, slot, r);
      }
    }
  }

  lemma FreedTwice(m: seq<Slot>, linked: seq<nat>, free: seq<nat>, rank: seq<int>, slot: nat, r: seq<int>)
    requires Threaded(m, linked, free, rank) && slot < |m| && m[slot].status != LL_SLOT_DANGLING
    ensures !Threaded(Freed(m, free, slot), linked, [slot] + free, r)
  {
    var m', f' := Freed(m, free, slot), [slot] + free;
    assert PlaceOk(m, linked, free, rank, slot);
    var i := rank[slot];
    if m[slot].status == LL_SLOT_LINKED {
      assert linked[i] == slot && !LinkOk(m', linked, r, i);
    } else {
      assert free[i] == slot && f'[0] == f'[i + 1] == slot;
      assert !FreeOk(m', f', r, 0) || !FreeOk(m', f', r, i + 1);
    }
  }

  /** The effect of ll_slot_add_to_top on the slots, for a dangling slot, whatever its links are. */
  ghost function Added(m: seq<Slot>, linked: seq<nat>, slot: nat): seq<Slot>
    requires Below(linked, |m|) && slot < |m|
  {
    var m' := m[slot := Slot(m[slot].next, if linked == [] then m[slot].prev else linked[0], LL_SLOT_LINKED)];
    if linked == [] then m' else m'[linked[0] := m'[linked[0]].(next := slot)]
  }

  /** The links of the slot that ll_slot_add_to_top does not set are those of a slot at the top. */
  ghost predicate Fits(m: seq<Slot>, linked: seq<nat>, slot: nat)
    requires slot < |m|
  {
    m[slot].next == NIL && (linked == [] ==> m[slot].prev == NIL)
  }

  lemma AddedThreaded(m: seq<Slot>, linked: seq<nat>, free: seq<nat>, rank: seq<int>, slot: nat) returns (r: seq<int>)
    requires Threaded(m, linked, free, rank) && Below(linked, |m|)
    requires slot < |m| && m[slot].status == LL_SLOT_DANGLING && Fits(m, linked, slot)
    ensures Threaded(Added(m, linked, slot), [slot] + linked, free, r)
  {
    var m', l' := Added(m, linked, slot), [slot] + linked;
    r := seq(|rank|, s requires 0 <= s < |rank| =>
      if s == slot then 0
      else if s < |m| && m[s].status == LL_SLOT_LINKED then rank[s] + 1
      else rank[s]);
    assert LinkOk(m, linked, rank, 0);
    forall i ensures LinkOk(m', l', r, i) {
      assert LinkOk(m, linked, rank, i - 1);
    }
    forall i ensures FreeOk(m', free, r, i) {
      assert FreeOk(m, free, rank, i);
    }
    forall s ensures PlaceOk(m', l', free, r, s) {
      assert PlaceOk(m, linked, free, rank, s);
    }
  }

  /** A dangling slot can be added exactly when its links fit; ll_slot_new leaves them so. */
  lemma AddedExactly(m: seq<Slot>, linked: seq<nat>, free: seq<nat>, rank: seq<int>, slot: nat)
    requires Threaded(m, linked, free, rank) && Below(linked, |m|) && slot < |m| && m[slot].status == LL_SLOT_DANGLING
    ensures (exists r :: Threaded(Added(m, linked, slot), [slot] + linked, free, r)) <==> Fits(m, linked, slot)
  {
    if Fits(m, linked, slot) {
      var r := AddedThreaded(m, linked, free, rank, slot);
    } else {
      forall r ensures !Threaded(Added(m, linked, slot), [slot] + linked, free, r) {
        AddedAskew(m, linked, free, rank, slot, r);
      }
    }
  }

  lemma AddedAskew(m: seq<Slot>, linked: seq<nat>, free: seq<nat>, rank: seq<int>, slot: nat, r: seq<int>)
    requires Threaded(m, linked, free, rank) && Below(linked, |m|) && slot < |m| && m[slot].status == LL_SLOT_DANGLING
    requires !Fits(m, linked, slot)
    ensures !Threaded(Added(m, linked, slot), [slot] + linked, free, r)
  {
    assert LinkOk(m, linked, rank, 0);
    assert !LinkOk(Added(m, linked, slot), [slot] + linked, r, 0);
  }

  /** The effect of ll_slot_move_to_top on the slots, for the k-th linked slot, not at the top yet. */
  ghost function Moved(m: seq<Slot>, linked: seq<nat>, k: nat): seq<Slot>
    requires Below(linked, |m|) && 0 < k < |linked|
  {
    var slot := linked[k];
    var m1 := m[linked[k - 1] := m[linked[k - 1]].(prev := At(linked, k + 1))];
    var m2 := if k + 1 == |linked| then m1 else m1[linked[k + 1] := m1[linked[k + 1]].(next := linked[k - 1])];
    var m3 := m2[linked[0] := m2[linked[0]].(next := slot)];
    m3[slot := Slot(NIL, linked[0], LL_SLOT_LINKED)]
  }

  /** Where the slots stand after the move of the k-th linked one. */
  ghost function MovedRank(m: seq<Slot>, rank: seq<int>, slot: nat, k: nat): seq<int>
    requires |m| == |rank|
  {
    seq(|rank|, s requires 0 <= s < |rank| =>
      if s == slot then 0
      else if m[s].status == LL_SLOT_LINKED && rank[s] < k then rank[s] + 1
      else rank[s])
  }

  lemma MovedLinks(m: seq<Slot>, linked: seq<nat>, free: seq<nat>, rank: seq<int>, k: nat)
    requires Threaded(m, linked, free, rank) && Below(linked, |m|) && 0 < k < |linked|
    ensures forall i :: LinkOk(Moved(m, linked, k), Fronted(linked, k), MovedRank(m, rank, linked[k], k), i)
  {
    var m', l', r := Moved(m, linked, k), Fronted(linked, k), MovedRank(m, rank, linked[k], k);
    assert LinkOk(m, linked, rank, 0) && LinkOk(m, linked, rank, k);
    assert LinkOk(m, linked, rank, k - 1) && LinkOk(m, linked, rank, k + 1);
    forall i ensures LinkOk(m', l', r, i) {
      assert LinkOk(m, linked, rank, i - 1) && LinkOk(m, linked, rank, i);
    }
  }

  lemma MovedFrees(m: seq<Slot>, linked: seq<nat>, free: seq<nat>, rank: seq<int>, k: nat)
    requires Threaded(m, linked, free, rank) && Below(linked, |m|) && 0 < k < |linked|
    ensures forall i :: FreeOk(Moved(m, linked, k), free, MovedRank(m, rank, linked[k], k), i)
  {
    assert LinkOk(m, linked, rank, 0) && LinkOk(m, linked, rank, k);
    assert LinkOk(m, linked, rank, k - 1) && LinkOk(m, linked, rank, k + 1);
    forall i ensures FreeOk(Moved(m, linked, k), free, MovedRank(m, rank, linked[k], k), i) {
      assert FreeOk(m, free, rank, i);
    }
  }

  lemma MovedPlaces(m: seq<Slot>, linked: seq<nat>, free: seq<nat>, rank: seq<int>, k: nat)
    requires Threaded(m, linked, free, rank) && Below(linked, |m|) && 0 < k < |linked|
    ensures forall s :: PlaceOk(Moved(m, linked, k), Fronted(linked, k), free, MovedRank(m, rank, linked[k], k), s)
  {
    var m', l', r := Moved(m, linked, k), Fronted(linked, k), MovedRank(m, rank, linked[k], k);
    assert LinkOk(m, linked, rank, 0) && LinkOk(m, linked, rank, k);
    assert LinkOk(m, linked, rank, k - 1) && LinkOk(m, linked, rank, k + 1);
    forall s ensures PlaceOk(m', l', free, r, s) {
      assert PlaceOk(m, linked, free, rank, s);
    }
  }

  /** The pointers after the move thread the reordered slots. */
  lemma MovedThreaded(m: seq<Slot>, linked: seq<nat>, free: seq<nat>, rank: seq<int>, k: nat)
    requires Threaded(m, linked, free, rank) && Below(linked, |m|) && 0 < k < |linked|
    ensures Threaded(Moved(m, linked, k), Fronted(linked, k), free, MovedRank(m, rank, linked[k], k))
  {
    MovedLinks(m, linked, free, rank, k);
    MovedFrees(m, linked, free, rank, k);
    MovedPlaces(m, linked, free, rank, k);
  }

  lemma LinkedStatus(m: seq<Slot>, linked: seq<nat>, free: seq<nat>, rank: seq<int>, slot: nat)
    requires Threaded(m, linked, free, rank) && slot < |m|
    ensures slot in linked <==>
            m[slot].status != LL_SLOT_IN_FREELIST && m[slot].status != LL_SLOT_DANGLING
  {
    Meaning(m, linked, free, rank, {});
    assert PlaceOk(m, linked, free, rank, slot);
  }

  /** Where a linked slot stands. */
  lemma LinkedAt(m: seq<Slot>, linked: seq<nat>, free: seq<nat>, rank: seq<int>, slot: nat) returns (k: nat)
    requires Threaded(m, linked, free, rank) && slot in linked
    ensures k < |linked| && linked[k] == slot && slot < |m|
    ensures m[slot] == Slot(At(linked, k - 1), At(linked, k + 1), LL_SLOT_LINKED)
  {
    k :| 0 <= k < |linked| && linked[k] == slot;
    assert LinkOk(m, linked, rank, k);
  }

  /** The slots that ll_slot_move_to_top changes are linked, so the clear ones stay clear. */
  lemma MovedClear(m: seq<Slot>, linked: seq<nat>, k: nat, clear: set<nat>)
    requires Below(linked, |m|) && 0 < k < |linked| && ClearOk(m, clear)
    requires forall s :: s in clear ==> s !in linked
    ensures ClearOk(Moved(m, linked, k), clear)
  {
  }

  /** The state that ll_slot_move_to_top leaves when the slot is not at the top yet. */
  lemma MovedOutcome(m: seq<Slot>, v: View, rank: seq<int>, k: nat) returns (r: seq<int>)
    requires v.size == |m| && Threaded(m, v.linked, v.free, rank) && ClearOk(m, v.clear) && ValidView(v)
    requires 0 < k < |v.linked|
    ensures MoveToTop(v, v.linked[k]) == v.(linked := Fronted(v.linked, k))
    ensures Threaded(Moved(m, v.linked, k), Fronted(v.linked, k), v.free, r)
    ensures ClearOk(Moved(m, v.linked, k), v.clear) && ValidView(v.(linked := Fronted(v.linked, k)))
  {
    FrontedIs(v.linked, k);
    r := MovedRank(m, rank, v.linked[k], k);
    MovedThreaded(m, v.linked, v.free, rank, k);
    MovedClear(m, v.linked, k, v.clear);
    Meaning(Moved(m, v.linked, k), Fronted(v.linked, k), v.free, r, v.clear);
  }

  /** The ends of a list that has lost its last element. */
  lemma EndsAfter(l: seq<nat>)
    requires l != []
    ensures var l' := l[..|l| - 1];
            At(l', |l'| - 1) == At(l, |l| - 2) && At(l', 0) == if |l| == 1 then NIL else At(l, 0)
  {
  }

  /** The last linked slot. */
  lemma LastOf(m: seq<Slot>, linked: seq<nat>, free: seq<nat>, rank: seq<int>)
    requires Threaded(m, linked, free, rank) && linked != []
    ensures linked[|linked| - 1] < |m| && m[linked[|linked| - 1]] == Slot(At(linked, |linked| - 2), NIL, LL_SLOT_LINKED)
    ensures |linked| > 1 ==> linked[|linked| - 2] < |m| && linked[|linked| - 2] != linked[|linked| - 1]
  {
    assert LinkOk(m, linked, rank, |linked| - 1) && LinkOk(m, linked, rank, |linked| - 2);
  }

  /** The state that ll_remove_last leaves when there is a linked slot. */
  lemma UnlinkedOutcome(m: seq<Slot>, v: View, rank: seq<int>)
    requires v.size == |m| && Threaded(m, v.linked, v.free, rank) && ClearOk(m, v.clear) && ValidView(v) && v.linked != []
    ensures Threaded(Unlinked(m, v.linked), RemoveLast(v).0.linked, v.free, rank)
    ensures ClearOk(Unlinked(m, v.linked), v.clear)
    ensures ValidView(RemoveLast(v).0) && Dangling(RemoveLast(v).0, v.linked[|v.linked| - 1])
  {
    var l' := v.linked[..|v.linked| - 1];
    UnlinkedThreaded(m, v.linked, v.free, rank);
    LastOf(m, v.linked, v.free, rank);
    forall s | s in v.clear ensures Unlinked(m, v.linked)[s] == m[s] { assert s !in v.linked; }
    Meaning(Unlinked(m, v.linked), l', v.free, rank, v.clear);
  }

  /** The state that ll_slot_add_to_top leaves when it adds a slot whose links fit. */
  lemma AddedOutcome(m: seq<Slot>, v: View, rank: seq<int>, slot: nat) returns (r: seq<int>)
    requires v.size == |m| && Threaded(m, v.linked, v.free, rank) && ClearOk(m, v.clear) && ValidView(v)
    requires Dangling(v, slot) && m[slot].status == LL_SLOT_DANGLING && Fits(m, v.linked, slot)
    ensures Threaded(Added(m, v.linked, slot), [slot] + v.linked, v.free, r)
    ensures ClearOk(Added(m, v.linked, slot), v.clear - {slot}) && ValidView(AddToTop(v, slot))
  {
    r := AddedThreaded(m, v.linked, v.free, rank, slot);
    forall s | s in v.clear - {slot} ensures Added(m, v.linked, slot)[s] == m[s] { assert s !in v.linked; }
    Meaning(Added(m, v.linked, slot), [slot] + v.linked, v.free, r, v.clear - {slot});
  }

  // ---------- the operations in place ----------

  class List {
    var size: nat
    var top: int
    var last: int
    var freelist: int
    var save: array<Slot>
    ghost var linked: seq<nat>
    ghost var free: seq<nat>
    ghost var rank: seq<int>
    ghost var clear: set<nat>

    ghost function V(): View
      reads this
    {
      View(size, linked, free, clear)
    }

    ghost predicate Valid()
      reads this, save
    {
      && save.Length == size && ValidView(V())
      && top == At(linked, 0) && last == At(linked, |linked| - 1) && freelist == At(free, 0)
      && Threaded(save[..], linked, free, rank) && ClearOk(save[..], clear)
    }

    /** ll_create: every slot free, each leading to the next. */
    constructor (dim: nat)
      ensures Valid() && fresh(save)
      ensures V() == View(dim, [], seq(dim, i requires 0 <= i < dim => i), {})
    {
      size := dim;
      top, last := NIL, NIL;
      save := new Slot[dim](i => Slot(NIL, NIL, LL_SLOT_DANGLING));
      freelist := if dim == 0 then NIL else 0;
      linked := [];
      free := seq(dim, i requires 0 <= i < dim => i);
      rank := seq(dim, i => i);
      clear := {};
      new;
      for i := 0 to dim
        invariant size == dim == save.Length && fresh(save)
        invariant top == last == NIL && linked == [] && clear == {} && free == seq(dim, i requires 0 <= i < dim => i)
        invariant freelist == (if dim == 0 then NIL else 0) && rank == seq(dim, i => i)
        invariant forall j :: 0 <= j < i ==> save[j].status == LL_SLOT_IN_FREELIST
        invariant forall j :: 0 <= j < i ==> save[j].next == if j == dim - 1 then NIL else j + 1
      {
        save[i] := save[i].(next := if i == dim - 1 then NIL else i + 1, status := LL_SLOT_IN_FREELIST);
      }
      assert Threaded(save[..], linked, free, rank);
    }

    /** ll_slot_new: takes the first free slot, with its links cleared. */
    method SlotNew() returns (slot: int)
      requires Valid()
      modifies this, save
      ensures Valid() && save == old(save)
      ensures NewSlot(old(V())) == (V(), if slot == NIL then None else Some(slot))
      ensures slot != NIL ==> slot in clear
    {
      if freelist == NIL {
        return NIL;
      }
      ghost var m := save[..];
      slot := freelist;
      assert FreeOk(m, free, rank, 0);
      rank := TakenThreaded(m, linked, free, rank);
      freelist := save[slot].next;
      save[slot] := Slot(NIL, NIL, LL_SLOT_DANGLING);
      free, clear := free[1..], clear + {slot};
      assert save[..] == m[slot := Slot(NIL, NIL, LL_SLOT_DANGLING)];
      Meaning(save[..], linked, free, rank, clear);
    }

    /**
     ll_slot_free: puts a slot in front of the free list without looking at it. That leaves a sound list
     when the slot is dangling, and by FreedExactly only then.
     */
    method SlotFree(slot: nat)
      requires Valid() && slot < size
      modifies this, save
      ensures save == old(save) && save[..] == Freed(old(save[..]), old(free), slot)
      ensures freelist == slot && top == old(top) && last == old(last)
      ensures old(Dangling(V(), slot)) ==> Valid() && V() == FreeSlot(old(V()), slot)
    {
      ghost var m := save[..];
      Meaning(m, linked, free, rank, clear);
      var oldFirst := freelist;
      freelist := slot;
      save[slot] := save[slot].(next := oldFirst, status := LL_SLOT_IN_FREELIST);
      assert save[..] == Freed(m, free, slot);
      if Dangling(V(), slot) {
        rank := FreedThreaded(m, linked, free, rank, slot);
        free, clear := [slot] + free, clear - {slot};
        Meaning(save[..], linked, free, rank, clear);
      }
    }

    /** ll_remove_last: takes the least recently used slot out; its next link is left as it was. */
    method SlotRemoveLast() returns (slot: int)
      requires Valid()
      modifies this, save
      ensures Valid() && save == old(save)
      ensures RemoveLast(old(V())) == (V(), if slot == NIL then None else Some(slot))
      ensures slot != NIL ==> Dangling(V(), slot)
    {
      if last == NIL {
        return NIL;
      }
      ghost var m, v := save[..], V();
      assert save[last].next == At(linked, |linked| - 2) by { LastOf(m, linked, free, rank); }
      slot := Unlink();
      linked := linked[..|linked| - 1];
      assert V() == RemoveLast(v).0;
      UnlinkedOutcome(m, v, rank);
      EndsAfter(v.linked);
    }

    /** The unlinking of ll_remove_last. */
    method Unlink() returns (slot: nat)
      requires save.Length == size && Below(linked, size) && Distinct(linked) && linked != []
      requires top == At(linked, 0) && last == linked[|linked| - 1] && save[last].next == At(linked, |linked| - 2)
      modifies this`top, this`last, save
      ensures slot == linked[|linked| - 1] && save[..] == Unlinked(old(save[..]), linked)
      ensures last == At(linked, |linked| - 2) && top == if |linked| == 1 then NIL else old(top)
    {
      slot := last;
      last := save[slot].next;
      if last != NIL {
        save[last] := save[last].(prev := NIL);
      } else {
        top := NIL;
      }
      save[slot] := save[slot].(status := LL_SLOT_DANGLING);
    }

    /**
     ll_slot_add_to_top: a slot that is not dangling is rejected. Any other is linked without a look at
     its links; that leaves a sound list when they fit, and by AddedExactly only then.
     */
    method SlotAddToTop(slot: nat)
      requires Valid() && slot < size
      modifies this, save
      ensures save == old(save)
      ensures old(Dangling(V(), slot)) ==> save[..] == Added(old(save[..]), old(linked), slot) && top == slot
      ensures old(Dangling(V(), slot) ==> Fits(save[..], linked, slot)) ==> Valid() && V() == AddToTop(old(V()), slot)
    {
      ghost var m, v := save[..], V();
      Meaning(m, linked, free, rank, clear);
      if save[slot].status != LL_SLOT_DANGLING {
        return;
      }
      ghost var r := rank;
      if Fits(m, linked, slot) {
        r := AddedOutcome(m, v, rank, slot);
      }
      LinkDangling(slot);
      if Fits(m, v.linked, slot) {
        linked, clear, rank := [slot] + v.linked, v.clear - {slot}, r;
        assert V() == AddToTop(v, slot);
      }
    }

    /** The linking of ll_slot_add_to_top. */
    method LinkDangling(slot: nat)
      requires save.Length == size && Below(linked, size) && slot < size && slot !in linked
      requires top == At(linked, 0) && last == At(linked, |linked| - 1) && save[slot].status == LL_SLOT_DANGLING
      modifies this`top, this`last, save
      ensures save[..] == Added(old(save[..]), linked, slot)
      ensures top == slot && last == if linked == [] then slot else old(last)
    {
      save[slot] := save[slot].(status := LL_SLOT_LINKED);
      var oldTop := top;
      top := slot;
      if oldTop != NIL {
        save[oldTop] := save[oldTop].(next := slot);
        save[slot] := save[slot].(prev := oldTop);
      }
      if last == NIL {
        last := slot;
      }
    }

    /**
     ll_slot_move_to_top: a linked slot goes to the front and the others keep their order; any
     other slot is left alone.
     */
    method SlotMoveToTop(slot: nat)
      requires Valid() && slot < size
      modifies this, save
      ensures Valid() && save == old(save)
      ensures V() == MoveToTop(old(V()), slot)
    {
      ghost var m := save[..];
      LinkedStatus(m, linked, free, rank, slot);
      if save[slot].status == LL_SLOT_IN_FREELIST || save[slot].status == LL_SLOT_DANGLING {
        return;
      }
      ghost var k := LinkedAt(m, linked, free, rank, slot);
      if top == slot {
        FrontedIs(linked, k);
        FrontedTop(linked);
        return;
      }
      ghost var r := MovedOutcome(m, V(), rank, k);
      Relink(slot, k);
      linked, rank := Fronted(linked, k), r;
    }

    /**
     The relinking of ll_slot_move_to_top, case by case. For a linked slot that is not the top
     already, the cases of a slot without neighbours and of one with nothing above it never arise.
     */
    method Relink(slot: nat, ghost k: nat)
      requires save.Length == size && Below(linked, size) && Distinct(linked)
      requires top == At(linked, 0) && last == At(linked, |linked| - 1)
      requires 0 < k < |linked| && linked[k] == slot
      requires save[slot] == Slot(At(linked, k - 1), At(linked, k + 1), LL_SLOT_LINKED)
      modifies this`top, this`last, save
      ensures save[..] == Moved(old(save[..]), linked, k)
      ensures top == slot && last == if k + 1 == |linked| then linked[k - 1] else old(last)
    {
      var oldTop := top;
      if save[slot].prev == NIL && save[slot].next == NIL {
        assert false;
      }
      if save[slot].next != NIL && save[slot].prev != NIL {
        // in the middle
        var prev, next := save[slot].prev, save[slot].next;
        save[prev] := save[prev].(next := next);
        save[next] := save[next].(prev := prev);
        top := slot;
        save[slot] := save[slot].(next := NIL);
        if oldTop != NIL {
          save[oldTop] := save[oldTop].(next := slot);
          save[slot] := save[slot].(prev := oldTop);
        }
        return;
      }
      if save[slot].prev == NIL {
        // at the end
        var next := save[slot].next;
        save[next] := save[next].(prev := NIL);
        last := next;
        top := slot;
        save[slot] := save[slot].(next := NIL);
        if oldTop != NIL {
          save[oldTop] := save[oldTop].(next := slot);
          save[slot] := save[slot].(prev := oldTop);
        }
        return;
      }
      assert false;
    }
  }
}
