/** The LRU cache of liblru/lru.c over the actual hash table and list, refining the abstract cache. */
module Lru {
  import opened CTypes
  import opened LruSpec
  import opened FiniteSets
  import L = LruList
  import Fh
  import Words

  /** The payload block of a slot, allocated with it. */
  datatype Block = Block(payload: Ptr, slot: int, key: Key)

  /** The address of a slot's payload block, which is what the hash table stores; never NULL. */
  function Address(slot: nat): Ptr
  {
    slot + 1
  }

  // ---------- how list, blocks and table fit together ----------

  /** The block of slot s is in the table under its own key. */
  ghost predicate Published(blocks: seq<Block>, m: map<Key, Ptr>, s: nat)
  {
    s < |blocks| && blocks[s].slot == s && blocks[s].key in m && m[blocks[s].key] == Address(s)
  }

  ghost predicate LinkedOk(linked: seq<nat>, blocks: seq<Block>, m: map<Key, Ptr>, i: int)
  {
    0 <= i < |linked| ==> Published(blocks, m, linked[i])
  }

  /** A key of the table leads to a linked slot that carries it. */
  ghost predicate BoundOk(linked: seq<nat>, blocks: seq<Block>, m: map<Key, Ptr>, k: Key)
  {
    k in m ==> m[k] > 0 && m[k] - 1 in linked && m[k] - 1 < |blocks| && blocks[m[k] - 1].key == k
  }

  ghost predicate Agree(linked: seq<nat>, blocks: seq<Block>, m: map<Key, Ptr>)
  {
    (forall i :: LinkedOk(linked, blocks, m, i)) && (forall k :: BoundOk(linked, blocks, m, k))
  }

  /** The cache the caller sees. */
  ghost function Entries(linked: seq<nat>, blocks: seq<Block>): Cache
    requires forall i :: 0 <= i < |linked| ==> linked[i] < |blocks|
  {
    seq(|linked|, i requires 0 <= i < |linked| => (blocks[linked[i]].key, blocks[linked[i]].payload))
  }

  lemma AgreeMeans(linked: seq<nat>, blocks: seq<Block>, m: map<Key, Ptr>)
    requires Agree(linked, blocks, m) && L.Distinct(linked)
    ensures forall i :: 0 <= i < |linked| ==> linked[i] < |blocks|
    ensures DistinctKeys(Entries(linked, blocks))
  {
    forall i | 0 <= i < |linked|
      ensures Published(blocks, m, linked[i]) && linked[i] < |blocks|
    {
      assert LinkedOk(linked, blocks, m, i);
    }
    var v := Entries(linked, blocks);
    forall i, j | 0 <= i < j < |v| ensures v[i].0 != v[j].0 {
      assert Published(blocks, m, linked[i]) && Published(blocks, m, linked[j]);
    }
  }

  /** A key is in the table exactly when the cache has it, and then its slot is at its place in the list. */
  lemma TableFinds(linked: seq<nat>, blocks: seq<Block>, m: map<Key, Ptr>, key: Key)
    requires Agree(linked, blocks, m) && L.Distinct(linked)
    requires forall i :: 0 <= i < |linked| ==> linked[i] < |blocks|
    ensures key in m <==> Has(Entries(linked, blocks), key)
    ensures key in m ==> m[key] > 0 && linked[Find(Entries(linked, blocks), key)] == m[key] - 1
  {
    AgreeMeans(linked, blocks, m);
    var v := Entries(linked, blocks);
    var i := Find(v, key);
    if i < |v| {
      assert LinkedOk(linked, blocks, m, i);
    }
    assert BoundOk(linked, blocks, m, key);
    if key in m {
      var j :| 0 <= j < |linked| && linked[j] == m[key] - 1;
      assert v[j].0 == key;
      FindUnique(v, j);
    }
  }

  /** Dropping the last linked slot and its key keeps the rest in agreement. */
  lemma EvictAgrees(linked: seq<nat>, blocks: seq<Block>, m: map<Key, Ptr>)
    requires Agree(linked, blocks, m) && L.Distinct(linked) && linked != []
    requires forall i :: 0 <= i < |linked| ==> linked[i] < |blocks|
    ensures var n := |linked| - 1;
            && blocks[linked[n]].key in m
            && Agree(linked[..n], blocks, m - {blocks[linked[n]].key})
            && Entries(linked[..n], blocks) == Entries(linked, blocks)[..n]
  {
    var n := |linked| - 1;
    var l', m' := linked[..n], m - {blocks[linked[n]].key};
    assert LinkedOk(linked, blocks, m, n);
    forall i ensures LinkedOk(l', blocks, m', i) {
      assert LinkedOk(linked, blocks, m, i);
    }
    forall k ensures BoundOk(l', blocks, m', k) {
      assert BoundOk(linked, blocks, m, k);
      if k in m' {
        var j :| 0 <= j < |linked| && linked[j] == m[k] - 1;
        assert j < n && l'[j] == linked[j];
      }
    }
  }

  /** Publishing an unlinked slot under a new key. */
  lemma PublishAgrees(linked: seq<nat>, blocks: seq<Block>, m: map<Key, Ptr>, s: nat, key: Key, payload: Ptr)
    requires Agree(linked, blocks, m) && s < |blocks| && s !in linked && key !in m
    requires forall i :: 0 <= i < |linked| ==> linked[i] < |blocks|
    ensures var blocks' := blocks[s := Block(payload, s, key)];
            && Agree([s] + linked, blocks', m[key := Address(s)])
            && Entries([s] + linked, blocks') == [(key, payload)] + Entries(linked, blocks)
  {
    var l', blocks', m' := [s] + linked, blocks[s := Block(payload, s, key)], m[key := Address(s)];
    forall i ensures LinkedOk(l', blocks', m', i) {
      assert LinkedOk(linked, blocks, m, i - 1);
    }
    forall k ensures BoundOk(l', blocks', m', k) {
      assert BoundOk(linked, blocks, m, k);
      if k in m {
        assert m[k] - 1 in l';
      }
    }
  }

  /** Filling the block of an unlinked slot is invisible. */
  lemma FillAgrees(linked: seq<nat>, blocks: seq<Block>, m: map<Key, Ptr>, s: nat, b: Block)
    requires Agree(linked, blocks, m) && s < |blocks| && s !in linked
    requires forall i :: 0 <= i < |linked| ==> linked[i] < |blocks|
    ensures Agree(linked, blocks[s := b], m)
    ensures Entries(linked, blocks[s := b]) == Entries(linked, blocks)
  {
    var blocks' := blocks[s := b];
    forall i ensures LinkedOk(linked, blocks', m, i) {
      assert LinkedOk(linked, blocks, m, i);
    }
    forall k ensures BoundOk(linked, blocks', m, k) {
      assert BoundOk(linked, blocks, m, k);
    }
  }

  /** Moving a slot to the top moves its entry to the front. */
  lemma MoveAgrees(linked: seq<nat>, blocks: seq<Block>, m: map<Key, Ptr>, i: nat)
    requires Agree(linked, blocks, m) && L.Distinct(linked) && i < |linked|
    requires forall i :: 0 <= i < |linked| ==> linked[i] < |blocks|
    ensures var l' := [linked[i]] + L.Without(linked, linked[i]);
            && (forall x :: 0 <= x < |l'| ==> l'[x] < |blocks|)
            && (forall s :: s in linked ==> s in l')
            && Agree(l', blocks, m) && Entries(l', blocks) == ToFront(Entries(linked, blocks), i)
  {
    L.WithoutCut(linked, i);
    MovedAgrees(linked, blocks, m, i);
    MovedEntries(linked, blocks, i);
    L.FrontedAt(linked, i);
    assert [linked[i]] + L.Without(linked, linked[i]) == L.Fronted(linked, i);
  }

  lemma MovedEntries(linked: seq<nat>, blocks: seq<Block>, i: nat)
    requires i < |linked| && forall i :: 0 <= i < |linked| ==> linked[i] < |blocks|
    ensures forall x :: 0 <= x < |linked| ==> |L.Fronted(linked, i)| == |linked| && L.Fronted(linked, i)[x] < |blocks|
    ensures Entries(L.Fronted(linked, i), blocks) == ToFront(Entries(linked, blocks), i)
  {
    L.FrontedAt(linked, i);
    L.FrontedAt(Entries(linked, blocks), i);
    var v' := Entries(L.Fronted(linked, i), blocks);
    forall x | 0 <= x < |linked| ensures v'[x] == L.Fronted(Entries(linked, blocks), i)[x] {
    }
  }

  lemma MovedAgrees(linked: seq<nat>, blocks: seq<Block>, m: map<Key, Ptr>, i: nat)
    requires Agree(linked, blocks, m) && i < |linked|
    ensures Agree(L.Fronted(linked, i), blocks, m)
    ensures forall x :: 0 <= x < |L.Fronted(linked, i)| ==> L.Fronted(linked, i)[x] < |blocks|
  {
    var l' := L.Fronted(linked, i);
    L.FrontedAt(linked, i);
    forall x ensures LinkedOk(l', blocks, m, x) {
      assert LinkedOk(linked, blocks, m, if x == 0 then i else if x <= i then x - 1 else x);
    }
    forall k ensures BoundOk(l', blocks, m, k) {
      assert BoundOk(linked, blocks, m, k);
    }
    forall x | 0 <= x < |l'| ensures l'[x] < |blocks| {
      assert LinkedOk(l', blocks, m, x);
    }
  }

  /** The last slot is not among the ones before it, and all others are. */
  lemma LastApart(l: seq<nat>)
    requires L.Distinct(l)
    ensures l != [] ==> l[|l| - 1] !in l[..|l| - 1] && forall s :: s in l && s != l[|l| - 1] ==> s in l[..|l| - 1]
  {
  }

  // ---------- the cache ----------

  method MakeParts(dim: nat, hash: Key -> Words.Word) returns (table: Fh.FhTable, list: L.List)
    requires dim + dim / 2 <= 0x4000_0000
    ensures table.Valid() && table.Contents() == map[] && table.Repr == {}
    ensures fresh(table) && fresh(table.hash_table)
    ensures list.Valid() && list.size == dim && list.linked == []
    ensures list.free == seq(dim, i requires 0 <= i < dim => i)
    ensures fresh(list) && fresh(list.save) && table.hash_table as object != list.save as object
  {
    table := new Fh.FhTable(dim, Fh.FH_DATALEN_VOIDP, hash);
    label tableMade:
    list := new L.List(dim);
    TableUntouched@tableMade(table);
  }

  /** A hash table of which nothing has been touched is as sound as it was. */
  twostate lemma TableUntouched(fh: Fh.FhTable)
    requires old(fh.Valid()) && unchanged(fh) && unchanged(fh.hash_table) && unchanged(fh.Repr)
    ensures fh.Valid()
  {
  }

  /** A list of which nothing has been touched is as sound as it was. */
  twostate lemma ListUntouched(ll: L.List)
    requires old(ll.Valid()) && unchanged(ll) && unchanged(ll.save)
    ensures ll.Valid()
  {
  }

  class LruCache {
    const size: nat
    const fh: Fh.FhTable
    const ll: L.List
    const blocks: array<Block>

    ghost function Footprint(): set<object>
      reads fh, ll
    {
      {fh, fh.hash_table, ll, ll.save, blocks} + fh.Repr
    }

    /** The three arrays are different objects. */
    ghost predicate Apart()
      reads fh, ll
    {
      && fh.hash_table as object != ll.save as object
      && fh.hash_table as object != blocks as object
      && ll.save as object != blocks as object
    }

    ghost predicate Valid()
      reads this, fh, ll, Footprint()
    {
      && 0 < size == ll.size == blocks.Length
      && Apart()
      && fh.Valid() && ll.Valid()
      && (forall s :: 0 <= s < size ==> s in ll.linked || s in ll.free)
      && Agree(ll.linked, blocks[..], fh.Contents())
    }

    /** What the caller sees. */
    ghost function View(): Cache
      requires Valid()
      reads this, fh, ll, Footprint()
    {
      Entries(ll.linked, blocks[..])
    }

    /** The cache lru_create makes. */
    constructor (dim: nat, hash: Key -> Words.Word)
      requires 0 < dim && dim + dim / 2 <= 0x4000_0000
      ensures Valid() && View() == [] && size == dim
      ensures fresh(fh) && fresh(fh.hash_table) && fh.Repr == {} && fresh(ll) && fresh(ll.save) && fresh(blocks)
    {
      size := dim;
      var table, list := MakeParts(dim, hash);
      fh, ll := table, list;
      label partsMade:
      blocks := new Block[dim](_ => Block(NULL, L.NIL, []));
      new;
      TableUntouched@partsMade(fh);
      ListUntouched@partsMade(ll);
      assert Agree([], blocks[..], map[]);
      assert Apart();
      forall s | 0 <= s < size ensures s in ll.free { assert ll.free[s] == s; }
      assert Valid();
    }

    /** lru_check. */
    method CheckKey(key: Key) returns (rc: int, payload: Option<Ptr>)
      requires Valid()
      modifies ll, ll.save
      ensures Valid() && ll.save == old(ll.save)
      ensures (View(), rc, payload) == Check(old(View()), key)
      ensures rc == LRU_OK ==> payload.Some? && (key, payload.value) in old(View())
      ensures rc != LRU_OK ==> rc == LRU_ELEMENT_NOT_FOUND && payload == None && !Has(old(View()), key)
    {
      TableFinds(ll.linked, blocks[..], fh.Contents(), key);
      var pload, err := fh.Get(key);
      if pload == NULL {
        return LRU_ELEMENT_NOT_FOUND, None;
      }
      var b := pload - 1;
      ghost var i := Find(View(), key);
      assert LinkedOk(ll.linked, blocks[..], fh.Contents(), i);
      payload := Some(blocks[b].payload);
      Promote(blocks[b].slot, i);
      return LRU_OK, payload;
    }

    /** Moves the i-th linked slot to the top. */
    method Promote(slot: nat, ghost i: nat)
      requires Valid() && i < |ll.linked| && ll.linked[i] == slot
      modifies ll, ll.save
      ensures Valid() && ll.save == old(ll.save) && i < |old(View())| && View() == ToFront(old(View()), i)
    {
      AgreeMeans(ll.linked, blocks[..], fh.Contents());
      MoveAgrees(ll.linked, blocks[..], fh.Contents(), i);
      ll.SlotMoveToTop(slot);
      TableUntouched(fh);
    }

    /** Sound but for one slot in hand, which is neither linked nor free. */
    ghost predicate ValidWithInHand(slot: nat)
      reads this, fh, ll, Footprint()
    {
      && 0 < size == ll.size == blocks.Length && slot < size
      && Apart()
      && fh.Valid() && ll.Valid()
      && slot !in ll.linked && slot !in ll.free
      && (forall s :: 0 <= s < size && s != slot ==> s in ll.linked || s in ll.free)
      && Agree(ll.linked, blocks[..], fh.Contents())
    }

    /** Besides, the slot is as ll_slot_new leaves it, and the linked ones hold the entries w. */
    ghost predicate Ready(slot: int, w: Cache)
      reads this, fh, ll, Footprint()
    {
      && slot >= 0 && ValidWithInHand(slot)
      && slot in ll.clear
      && Entries(ll.linked, blocks[..]) == w
    }

    /** Takes the last entry out of list and table; its slot is left in hand. */
    method Evict() returns (victim: int)
      requires Valid()
      modifies ll, ll.save, fh, fh.hash_table, fh.Repr
      ensures ll.save == old(ll.save) && fh.hash_table == old(fh.hash_table) && fh.Repr == old(fh.Repr)
      ensures old(ll.linked) == [] ==> victim == L.NIL && Valid() && ll.V() == old(ll.V())
      ensures old(ll.linked) != [] ==>
                && victim >= 0 && ValidWithInHand(victim)
                && ll.V() == L.RemoveLast(old(ll.V())).0
                && Entries(ll.linked, blocks[..]) == old(View())[..|old(View())| - 1]
    {
      ghost var l, m := ll.linked, fh.Contents();
      AgreeMeans(l, blocks[..], m);
      victim := ll.SlotRemoveLast();
      TableUntouched(fh);
      if victim == L.NIL {
        return;
      }
      LastApart(l);
      Unhash(victim, l);
    }

    /** Takes the key of the slot just removed from the list out of the table; l is the list before. */
    method Unhash(victim: nat, ghost l: seq<nat>)
      requires 0 < size == ll.size == blocks.Length && victim < size
      requires Apart() && fh.Valid() && ll.Valid()
      requires l != [] && L.Distinct(l) && l[|l| - 1] == victim && ll.linked == l[..|l| - 1]
      requires victim !in ll.linked && victim !in ll.free
      requires forall s :: 0 <= s < size && s != victim ==> s in ll.linked || s in ll.free
      requires Agree(l, blocks[..], fh.Contents()) && forall i :: 0 <= i < |l| ==> l[i] < blocks.Length
      modifies fh, fh.hash_table, fh.Repr
      ensures fh.hash_table == old(fh.hash_table) && fh.Repr == old(fh.Repr) && ll.V() == old(ll.V())
      ensures ValidWithInHand(victim)
      ensures Entries(ll.linked, blocks[..]) == Entries(l, blocks[..])[..|l| - 1]
    {
      EvictAgrees(l, blocks[..], fh.Contents());
      // the key is in the table, so this never fails
      var rc := fh.Del(blocks[victim].key);
      assert rc >= 0;
      ListUntouched(ll);
    }

    /** With no slot in hand, the free list is empty exactly when the cache is full. */
    lemma FullOrFree()
      requires Valid()
      ensures |View()| + |ll.free| == size
    {
      L.SlotsAddUp(ll.V());
      RangeSize(ll.size);
      assert L.DanglingSlots(ll.V()) == {};
    }

    /** Takes a slot from the free list into hand. */
    method TakeSlot() returns (slot: int)
      requires Valid()
      modifies ll, ll.save
      ensures ll.save == old(ll.save)
      ensures old(ll.free) == [] ==> slot == L.NIL && Valid() && View() == old(View()) && ll.V() == old(ll.V())
      ensures old(ll.free) != [] ==>
                && slot >= 0 && ValidWithInHand(slot)
                && slot in ll.clear
                && ll.linked == old(ll.linked)
    {
      slot := ll.SlotNew();
      TableUntouched(fh);
      assert forall s :: s in old(ll.free) && s != slot ==> s in ll.free;
    }

    /** Puts the slot in hand back on the free list. */
    method Release(slot: nat)
      requires ValidWithInHand(slot)
      modifies ll, ll.save
      ensures ll.save == old(ll.save) && ll.linked == old(ll.linked) && ll.free == [slot] + old(ll.free)
      ensures Valid()
    {
      ll.SlotFree(slot);
      TableUntouched(fh);
    }

    /** The end of lru_add, with a slot in hand: fills its block, then publishes it or gives it back. */
    method FillAndPublish(slot: nat, key: Key, payload: Ptr, ghost w: Cache) returns (rc: int)
      requires Ready(slot, w) && |w| < size
      modifies ll, ll.save, fh, fh.hash_table, fh.Repr, blocks
      ensures Valid() && ll.save == old(ll.save) && fh.hash_table == old(fh.hash_table)
      ensures (View(), rc) == if Has(w, key) then (w, LRU_DUPLICATED_ELEMENT) else ([(key, payload)] + w, LRU_OK)
    {
      ghost var l, bs, m := ll.linked, blocks[..], fh.Contents();
      AgreeMeans(l, bs, m);
      FillAgrees(l, bs, m, slot, Block(payload, slot, key));
      TableFinds(l, bs, m, key);
      blocks[slot] := Block(payload, slot, key);
      TableUntouched(fh);
      ListUntouched(ll);
      assert blocks[..] == bs[slot := Block(payload, slot, key)];
      if key !in m {
        PublishAgrees(l, bs, m, slot, key, payload);
      }
      label filled:
      var err := fh.Insert(key, Address(slot));
      ListUntouched@filled(ll);
      if err == Fh.FH_DUPLICATED_ELEMENT {
        Release(slot);
        return LRU_DUPLICATED_ELEMENT;
      }
      label published:
      ll.SlotAddToTop(slot);
      TableUntouched@published(fh);
      return LRU_OK;
    }

    /**
     One turn of the eviction loop, entered with nothing free: the last entry goes and its slot is
     the one taken. The exit for a list that is empty as well needs a second caller.
     */
    method EvictAndTake() returns (slot: nat)
      requires Valid() && ll.free == []
      modifies ll, ll.save, fh, fh.hash_table, fh.Repr
      ensures ll.save == old(ll.save) && fh.hash_table == old(fh.hash_table) && fh.Repr == old(fh.Repr)
      ensures |old(View())| == size && Ready(slot, MakeRoom(size, old(View())))
    {
      FullOrFree();
      AgreeMeans(ll.linked, blocks[..], fh.Contents());
      var victim := Evict();
      if victim == L.NIL {
        assert false;
      }
      Release(victim);
      slot := TakeSlot();
    }

    /** lru_add: evicts at most once, and never finds both lists empty. */
    method AddKey(key: Key, payload: Ptr) returns (rc: int, ghost evictions: nat)
      requires Valid()
      modifies ll, ll.save, fh, fh.hash_table, fh.Repr, blocks
      ensures Valid() && ll.save == old(ll.save) && fh.hash_table == old(fh.hash_table)
      ensures (View(), rc) == Add(size, old(View()), key, payload)
      ensures evictions == if |old(View())| == size then 1 else 0
    {
      evictions := 0;
      FullOrFree();
      AgreeMeans(ll.linked, blocks[..], fh.Contents());
      var slot := TakeSlot();
      while slot == L.NIL
        invariant ll.save == old(ll.save) && fh.hash_table == old(fh.hash_table) && fh.Repr == old(fh.Repr)
        invariant blocks[..] == old(blocks[..])
        invariant slot == L.NIL ==> Valid() && ll.free == [] && View() == old(View()) && |View()| == size && evictions == 0
        invariant slot != L.NIL ==>
                    Ready(slot, MakeRoom(size, old(View()))) && evictions == if |old(View())| == size then 1 else 0
        decreases slot == L.NIL
      {
        slot := EvictAndTake();
        evictions := evictions + 1;
      }
      rc := FillAndPublish(slot, key, payload, MakeRoom(size, old(View())));
    }

    /** lru_clear. */
    method Clear() returns (rc: int)
      requires Valid()
      modifies ll, ll.save, fh, fh.hash_table, fh.Repr
      ensures Valid() && ll.save == old(ll.save) && fh.hash_table == old(fh.hash_table)
      ensures View() == [] && rc == LRU_OK
    {
      var victim := Evict();
      while victim != L.NIL
        invariant ll.save == old(ll.save) && fh.hash_table == old(fh.hash_table) && fh.Repr == old(fh.Repr)
        invariant victim == L.NIL ==> Valid() && ll.linked == []
        invariant victim != L.NIL ==> victim >= 0 && ValidWithInHand(victim)
        decreases |ll.linked|, victim
      {
        victim := ReleaseAndEvict(victim);
      }
      return LRU_OK;
    }

    /** Gives the slot back and takes the next one out. */
    method ReleaseAndEvict(slot: nat) returns (victim: int)
      requires ValidWithInHand(slot)
      modifies ll, ll.save, fh, fh.hash_table, fh.Repr
      ensures ll.save == old(ll.save) && fh.hash_table == old(fh.hash_table) && fh.Repr == old(fh.Repr)
      ensures victim == L.NIL ==> Valid() && ll.linked == []
      ensures victim != L.NIL ==> victim >= 0 && ValidWithInHand(victim) && |ll.linked| == |old(ll.linked)| - 1
    {
      Release(slot);
      victim := Evict();
    }
  }

  /** lru_create: NULL for a dim that is not positive, else a new cache. */
  method LruCreate(dim: int, hash: Key -> Words.Word) returns (l: LruCache?)
    requires dim + dim / 2 <= 0x4000_0000
    ensures l == null <==> dim <= 0
    ensures l != null ==> l.Valid() && l.View() == [] && l.size == dim && fresh(l) && fresh(l.Footprint())
  {
    if dim <= 0 {
      return null;
    }
    l := new LruCache(dim, hash);
  }
}
