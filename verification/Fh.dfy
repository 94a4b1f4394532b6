/** The bucketed hash table of libfh: every call does to the chains what it should do to a finite map. */
module Fh {
  import opened CTypes
  import opened Words
  import opened FhChain
  import opened FhBuckets
  import opened FhEnum

  const FH_OK := 1
  const FH_ELEMENT_NOT_FOUND := -2000
  const FH_DUPLICATED_ELEMENT := -3000
  const FH_EMPTY_HASHTABLE := -2500
  const FH_FREE_NOT_REQUESTED := -1500
  const FH_DATALEN_VOIDP := 0
  const SIZE_LIMIT_SINGLE_MUTEX := 64

  const UINT := 0x1_0000_0000

  /** The size asked for and half as much again, in unsigned arithmetic of 32 bits. */
  function Need(s: nat): (r: nat)
    ensures r < UINT
  {
    (s + s / 2) % UINT
  }

  lemma Pow2Below32(k: nat)
    requires k < 32
    ensures Pow2(k) <= 0x8000_0000 && (k < 31 ==> Pow2(k) < 0x8000_0000) && Pow2(31) == 0x8000_0000
  {
    assert Pow2(8) == 256 && Pow2(16) == 0x1_0000 && Pow2(24) == 0x100_0000 && Pow2(31) == 0x8000_0000;
    Pow2Order(k, 31);
  }

  lemma {:induction false} Pow2Order(a: nat, b: nat)
    requires a <= b
    ensures Pow2(a) <= Pow2(b) && (a < b ==> Pow2(a) < Pow2(b))
  {
    if a < b {
      Pow2Order(a, b - 1);
    }
  }

  /** fh_hash_size: the smallest power of two that leaves half as much room again. */
  method HashSize(s: nat) returns (i: nat, ghost bits: nat)
    requires s < UINT && Need(s) <= 0x8000_0000
    ensures i == Pow2(bits) && Need(s) <= i <= 0x8000_0000
    ensures i == 1 || i / 2 < Need(s)
  {
    i, bits := 1, 0;
    var need := (s + s / 2) % UINT;
    while i < need
      invariant bits < 32 && i == Pow2(bits) <= 0x8000_0000
      invariant i == 1 || i / 2 < need
      decreases need - i
    {
      Pow2Below32(bits);
      Pow2Below32(bits + 1);
      i := i * 2 % UINT;
      bits := bits + 1;
    }
  }

  /** What fh_hash_size has after k turns of its loop. */
  ghost function Doubled(k: nat): nat
  {
    if k == 0 then 1 else Doubled(k - 1) * 2 % UINT
  }

  /** One turn of the loop. */
  lemma DoubleOnce(p: nat)
    ensures p < 0x8000_0000 ==> p * 2 % UINT == 2 * p
    ensures p == 0x8000_0000 || p == 0 ==> p * 2 % UINT == 0
  {
  }

  lemma {:induction false} DoubledPow2(k: nat)
    requires k < 32
    ensures Doubled(k) == Pow2(k)
  {
    if k > 0 {
      DoubledPow2(k - 1);
      Pow2Below32(k - 1);
      DoubleOnce(Doubled(k - 1));
    }
  }

  lemma {:induction false} DoubledZero(k: nat)
    requires k >= 32
    ensures Doubled(k) == 0
  {
    if k == 32 {
      DoubledPow2(k - 1);
      Pow2Below32(k - 1);
    } else {
      DoubledZero(k - 1);
    }
    DoubleOnce(Doubled(k - 1));
  }

  /** The loop of fh_hash_size ends exactly for sizes that need no more than 2^31: beyond that it doubles on to zero. */
  lemma HashSizeEnds(s: nat)
    ensures (exists k: nat :: Doubled(k) >= Need(s)) <==> Need(s) <= 0x8000_0000
  {
    forall k: nat ensures Doubled(k) <= 0x8000_0000 {
      if k < 32 { DoubledPow2(k); Pow2Below32(k); } else { DoubledZero(k); }
    }
    var last: nat := 31;
    DoubledPow2(last);
    Pow2Below32(last);
    assert Doubled(last) == 0x8000_0000;
  }

  /** The number of locks fh_create makes: one for a small table, else the bit length of dim. */
  method LockCount(dim: nat) returns (n: nat)
    ensures dim <= SIZE_LIMIT_SINGLE_MUTEX ==> n == 1
    ensures dim > SIZE_LIMIT_SINGLE_MUTEX ==> n > 0 && Pow2(n - 1) <= dim < Pow2(n)
  {
    if dim <= SIZE_LIMIT_SINGLE_MUTEX {
      return 1;
    }
    BitLengthBounds(dim);
    var num := dim;
    n := 0;
    while num > 0
      invariant n + BitLength(num) == BitLength(dim)
    {
      num := num / 2;
      n := n + 1;
    }
  }

  function BitLength(n: nat): nat
  {
    if n == 0 then 0 else 1 + BitLength(n / 2)
  }

  lemma {:induction false} BitLengthBounds(n: nat)
    requires n > 0
    ensures BitLength(n) > 0 && Pow2(BitLength(n) - 1) <= n < Pow2(BitLength(n))
  {
    if n > 1 {
      BitLengthBounds(n / 2);
    }
  }

  /** What fh_insert, fh_get and _fh_del look up: the entry of key in its chain, if key is bound. */
  method FindEntry(h: Hashing, head: FhBucket?, key: Key, mini: nat,
                   ghost bs: seq<FhBucket>, ghost c: Chain, ghost m: map<Key, Ptr>, ghost p: Places)
    returns (found: FhBucket?, i: int, ghost j: int)
    requires h.Valid() && mini == h.Mini(key)
    requires Chained(head, bs, c, h.Index(key)) && Holds(h, c, h.Index(key), m, p)
    ensures i == -1 <==> key !in m
    ensures i != -1 ==>
              && 0 <= j < |bs| && 0 <= i < BUCKET_SIZE && found == bs[j] && Matches(c, key, mini, j, i)
              && key in m && key in p && p[key] == (j, i)
              && |found.slots| == BUCKET_SIZE && found.slots[i].obj == m[key]
  {
    UsedHasKey(h, c, h.Index(key), m, p, mini);
    ScanFinds(h, c, m, p, key);
    found, i, j := FindSlotInBucket(head, key, mini, bs, c, h.Index(key));
    if i != -1 {
      assert LinkAt(bs, c, h.Index(key), j);
    }
  }

  /** The buckets of chain k know that they belong to it, which keeps them out of every other chain. */
  ghost predicate AtHome(bs: seq<FhBucket>, k: int, repr: set<FhBucket>)
  {
    forall j :: 0 <= j < |bs| ==> bs[j].home == k && bs[j] in repr
  }

  /** What the proofs track of a table: its chains of buckets, their values, and the map they stand for. */
  datatype Model = Model(chains: seq<seq<FhBucket>>, vals: seq<Chain>, contents: map<Key, Ptr>, places: Places)

  ghost predicate ValOk(h: Hashing, mo: Model, k: int)
    requires h.Valid()
  {
    0 <= k < |mo.vals| ==> Holds(h, mo.vals[k], k, mo.contents, mo.places) && NoEmptyBucket(mo.vals[k])
  }

  ghost predicate ModelOk(h: Hashing, mo: Model)
    requires h.Valid()
  {
    |mo.chains| == |mo.vals| == h.dim && forall k :: ValOk(h, mo, k)
  }

  /** The model of a new table. */
  ghost function NoBindings(n: nat): Model
  {
    Model(seq(n, _ => []), seq(n, _ => []), map[], map[])
  }

  lemma NoBindingsOk(h: Hashing)
    requires h.Valid()
    ensures ModelOk(h, NoBindings(h.dim))
  {
    var mo := NoBindings(h.dim);
    forall k ensures ValOk(h, mo, k) {
      if 0 <= k < h.dim { assert mo.vals[k] == []; }
    }
  }

  /** The model after chain idx has become c over the buckets bs. */
  ghost function Rebound(mo: Model, idx: nat, bs: seq<FhBucket>, c: Chain, m: map<Key, Ptr>, p: Places): Model
    requires idx < |mo.chains| == |mo.vals|
  {
    Model(mo.chains[idx := bs], mo.vals[idx := c], m, p)
  }

  lemma ReboundOk(h: Hashing, mo: Model, idx: nat, bs: seq<FhBucket>, c: Chain, m: map<Key, Ptr>, p: Places)
    requires h.Valid() && ModelOk(h, mo) && idx < h.dim
    requires Holds(h, c, idx, m, p) && NoEmptyBucket(c)
    requires forall k :: h.Index(k) != idx ==> (k in mo.contents <==> k in m) && (k in m ==> mo.contents[k] == m[k])
    requires forall k :: h.Index(k) != idx && k in mo.places ==> k in p && mo.places[k] == p[k]
    ensures ModelOk(h, Rebound(mo, idx, bs, c, m, p))
  {
    forall k ensures ValOk(h, Rebound(mo, idx, bs, c, m, p), k) {
      assert ValOk(h, mo, k);
      if 0 <= k < h.dim && k != idx {
        OtherChain(h, mo.vals[k], k, mo.contents, mo.places, m, p);
      }
    }
  }

  lemma UsedHasKey(h: Hashing, c: Chain, idx: nat, m: map<Key, Ptr>, places: Places, mini: nat)
    requires h.Valid() && Holds(h, c, idx, m, places) && mini > 0
    ensures forall j, i :: SlotAt(c, j, i).mini == mini ==> SlotAt(c, j, i).key.Some?
  {
    forall j, i | SlotAt(c, j, i).mini == mini
      ensures SlotAt(c, j, i).key.Some?
    {
      assert SlotOk(h, c, idx, m, places, j, i);
    }
  }

  /** The entry an insertion claims and fills, at the level of one chain. */
  lemma ClaimHolds(h: Hashing, c: Chain, m: map<Key, Ptr>, places: Places, key: Key, block: Ptr,
                   j: nat, i: nat, c': Chain, marked: Chain)
    requires h.Valid() && Holds(h, c, h.Index(key), m, places) && key !in m
    requires NoEmptyBucket(c) || c == [FreeBucket()]
    requires Claimed(c, h.Mini(key), j, i, c', marked)
    ensures j < |marked| && i < |marked[j]|
    ensures var filled := Put(marked, j, i, Slot(h.Mini(key), Some(key), block));
            Holds(h, filled, h.Index(key), m[key := block], places[key := (j, i)]) && NoEmptyBucket(filled)
  {
    var s := Slot(h.Mini(key), Some(key), block);
    if c' != c {
      ExtendHolds(h, c, h.Index(key), m, places, FreeBucket());
      assert c == [FreeBucket()] ==> !SlotAt(c, 0, 0).Used();
      assert j >= |c| || SlotAt(c, j, i).Used();
    }
    FillHolds(h, c', m, places, j, i, key, block);
    var filled: Chain := Put(marked, j, i, s);
    assert marked[j] == c'[j][i := marked[j][i]];
    assert filled[j] == c'[j][i := s];
    assert filled == Put(c', j, i, s);
    assert filled[j][i].Used();
    forall k | 0 <= k < |filled| ensures HasUsed(filled[k]) {
      if k != j {
        assert filled[k] == c[k];
      }
    }
  }

  lemma HomesOf(head: FhBucket?, bs: seq<FhBucket>, c: Chain, idx: nat)
    requires Chained(head, bs, c, idx)
    ensures forall j :: 0 <= j < |bs| ==> bs[j].home == idx
  {
    forall j | 0 <= j < |bs| ensures bs[j].home == idx {
      assert LinkAt(bs, c, idx, j);
    }
  }

  /** The part of fh_insert that claims and fills an entry of the chain. */
  method FillInChain(h: Hashing, bucket: FhBucket, key: Key, mini: nat, block: Ptr,
                     ghost bs: seq<FhBucket>, ghost c: Chain, ghost m: map<Key, Ptr>, ghost places: Places)
    returns (ghost bs': seq<FhBucket>, ghost c': Chain, ghost place: (nat, nat))
    requires h.Valid() && mini == h.Mini(key) && key !in m
    requires Chained(bucket, bs, c, h.Index(key)) && Holds(h, c, h.Index(key), m, places)
    requires NoEmptyBucket(c) || c == [FreeBucket()]
    modifies bs
    ensures Chained(bucket, bs', c', h.Index(key)) && NoEmptyBucket(c')
    ensures Holds(h, c', h.Index(key), m[key := block], places[key := place])
    ensures forall j :: 0 <= j < |bs'| ==> bs'[j].home == h.Index(key) && (bs'[j] in bs || fresh(bs'[j]))
  {
    ghost var idx := h.Index(key);
    var found, i;
    ghost var j, claimed, marked;
    found, i, j, bs', claimed, marked := ReturnEmptySlotInBucket(bucket, mini, bs, c, idx);
    ClaimHolds(h, c, m, places, key, block, j, i, claimed, marked);
    WriteSlot(found, i, Slot(mini, Some(key), block), bucket, bs', marked, idx, j);
    c' := Put(marked, j, i, Slot(mini, Some(key), block));
    place := (j, i);
    HomesOf(bucket, bs', c', idx);
  }

  /** The part of _fh_del that clears the entry found and unlinks its bucket if nothing is left in it. */
  method FreeInChain(h: Hashing, start: FhBucket?, key: Key, found: FhBucket, i: nat, ghost j: nat,
                     ghost bs: seq<FhBucket>, ghost c: Chain, ghost m: map<Key, Ptr>, ghost p: Places)
    returns (start': FhBucket?, ghost bs': seq<FhBucket>, ghost c': Chain, ghost p': Places)
    requires h.Valid() && Chained(start, bs, c, h.Index(key)) && Holds(h, c, h.Index(key), m, p) && NoEmptyBucket(c)
    requires key in m && key in p && p[key] == (j, i) && Matches(c, key, h.Mini(key), j, i)
    requires j < |bs| && found == bs[j]
    modifies bs
    ensures Chained(start', bs', c', h.Index(key)) && NoEmptyBucket(c')
    ensures Holds(h, c', h.Index(key), m - {key}, p')
    ensures forall k :: h.Index(k) != h.Index(key) && k in p ==> k in p' && p'[k] == p[k]
    ensures forall b :: b in bs' ==> b in bs
  {
    ghost var idx := h.Index(key);
    FreeHolds(h, c, m, p, key);
    WriteSlot(found, i, EMPTY, start, bs, c, idx, j);
    ghost var freed := Put(c, j, i, EMPTY);
    p' := p - {key};
    assert forall k :: 0 <= k < |c| && k != j ==> freed[k] == c[k];
    if !HasUsed(freed[j]) {
      DropHolds(h, freed, idx, m - {key}, p', j);
      p' := Shifted(h, p', idx, j);
    }
    start', bs', c' := DeallocateBucketIfEmpty(found, start, bs, freed, idx, j);
  }

  /** A chain with a bucket binds something, for no bucket is empty. */
  lemma BucketsBind(h: Hashing, c: Chain, idx: nat, m: map<Key, Ptr>, p: Places)
    requires h.Valid() && Holds(h, c, idx, m, p) && NoEmptyBucket(c) && c != []
    ensures m != map[]
  {
    assert HasUsed(c[0]);
    var i :| 0 <= i < |c[0]| && c[0][i].Used();
    assert SlotOk(h, c, idx, m, p, 0, i);
    assert SlotAt(c, 0, i).Used();
  }

  // ---------- enumeration ----------

  lemma {:induction false} TableElemsPrefix(vals: seq<Chain>, i: nat, k: nat)
    requires i <= k <= |vals|
    ensures TableElems(vals, i) <= TableElems(vals, k)
  {
    if i < k {
      TableElemsPrefix(vals, i, k - 1);
    }
  }

  /** Stopping at the last chain, or early with n elements, gives the same when there are n in all. */
  lemma TakeEnough(vals: seq<Chain>, i: nat, n: nat)
    requires i <= |vals| && |TableElems(vals, |vals|)| == n
    requires i == |vals| || |Take(TableElems(vals, i), n)| >= n
    ensures Take(TableElems(vals, i), n) == TableElems(vals, |vals|)
  {
    TableElemsPrefix(vals, i, |vals|);
  }

  /**
   The part of fh_enum_create that works on one chain under its lock. Whatever the other chains
   are doing meanwhile, it never writes beyond the n elements the array was allocated for.
   */
  method ScanChain(head: FhBucket?, list: seq<Elem>, n: nat, ghost bs: seq<FhBucket>, ghost c: Chain, ghost idx: nat)
    returns (list': seq<Elem>)
    requires Chained(head, bs, c, idx) && |list| <= n
    ensures list' == Take(list + ChainElems(c, |c|), n) && |list'| <= n
  {
    list' := list;
    var current := head;
    ghost var j := 0;
    while current != null
      invariant 0 <= j <= |bs| && current == Nth(bs, j)
      invariant list' == Take(list + ChainElems(c, j), n)
      decreases |bs| - j
    {
      assert LinkAt(bs, c, idx, j);
      list' := ScanBucket(current, list', n);
      TakeAppend(list + ChainElems(c, j), BucketElems(c[j], |c[j]|), n);
      AppendAssociates(list, ChainElems(c, j), BucketElems(c[j], |c[j]|));
      current := current.next;
      j := j + 1;
    }
  }

  method ScanBucket(b: FhBucket, list: seq<Elem>, n: nat) returns (list': seq<Elem>)
    requires |b.slots| == BUCKET_SIZE && |list| <= n
    ensures list' == Take(list + BucketElems(b.slots, |b.slots|), n)
  {
    list' := list;
    for k := 0 to BUCKET_SIZE
      invariant list' == Take(list + BucketElems(b.slots, k), n)
    {
      if b.slots[k].mini != 0 {
        if |list'| >= n {
          TakeFull(list + BucketElems(b.slots, k), b.slots, k, list, n);
          break;
        }
        AppendAssociates(list, BucketElems(b.slots, k), [Elem(b.slots[k].key, b.slots[k].obj)]);
        list' := list' + [Elem(b.slots[k].key, b.slots[k].obj)];
      } else {
        AppendAssociates(list, BucketElems(b.slots, k), []);
      }
    }
  }

  /** Once full, the array takes no more from the bucket. */
  lemma {:induction false} TakeFull(all: seq<Elem>, b: Bucket, k: nat, list: seq<Elem>, n: nat)
    requires k <= |b| && all == list + BucketElems(b, k) && |all| >= n
    ensures Take(list + BucketElems(b, |b|), n) == Take(all, n)
  {
    BucketElemsPrefix(b, k, |b|);
    assert all <= list + BucketElems(b, |b|);
  }

  lemma {:induction false} BucketElemsPrefix(b: Bucket, i: nat, k: nat)
    requires i <= k <= |b|
    ensures BucketElems(b, i) <= BucketElems(b, k)
  {
    if i < k {
      BucketElemsPrefix(b, i, k - 1);
    }
  }

  /** The payloads of the elements, in their order. */
  ghost function Payloads(list: seq<Elem>): (r: seq<Ptr>)
    ensures |r| == |list| && forall i :: 0 <= i < |list| ==> r[i] == list[i].obj
  {
    seq(|list|, i requires 0 <= i < |list| => list[i].obj)
  }

  lemma PayloadsNext(list: seq<Elem>, i: nat)
    requires i < |list|
    ensures Payloads(list[..i + 1]) == Payloads(list[..i]) + [list[i].obj]
  {
  }

  /** The keys still to be deleted after the first i elements. */
  ghost function Remaining(list: seq<Elem>, m: map<Key, Ptr>, i: nat): set<Key>
  {
    set k | k in m && forall x :: 0 <= x < i && x < |list| ==> list[x].key != Some(k)
  }

  lemma RemainingStep(list: seq<Elem>, m: map<Key, Ptr>, i: nat)
    requires i < |list| && list[i].key.Some?
    ensures Remaining(list, m, i + 1) == Remaining(list, m, i) - {list[i].key.value}
  {
  }

  lemma RemainingNone(list: seq<Elem>, m: map<Key, Ptr>)
    requires Lists(list, m, m.Keys)
    ensures Remaining(list, m, |list|) == {}
  {
    forall k | k in m ensures k !in Remaining(list, m, |list|) {
      ListsCovers(list, m, m.Keys, k);
    }
  }

  /** The hash table. contents is the map it stands for. */
  class FhTable {
    const hashing: Hashing
    const h_datalen: int
    ghost const bits: nat
    var h_elements: int
    var h_collision: int
    var hash_table: array<FhBucket?>
    ghost var mo: Model
    ghost var Repr: set<FhBucket>

    ghost function Contents(): map<Key, Ptr>
      reads this
    {
      mo.contents
    }

    /** Chain k of the heap is what the model says. */
    ghost predicate Standing(k: int)
      requires hash_table.Length == |mo.chains| == |mo.vals|
      reads this, hash_table, Repr
    {
      0 <= k < hash_table.Length ==>
        && AtHome(mo.chains[k], k, Repr)
        && Chained(hash_table[k], mo.chains[k], mo.vals[k], k)
    }

    ghost predicate Valid()
      reads this, hash_table, Repr
    {
      && hashing.dim == Pow2(bits) == hash_table.Length
      && ModelOk(hashing, mo)
      && h_elements == |mo.contents|
      && (forall k :: Standing(k))
    }

    /** fh_create. */
    constructor (dim: nat, datalen: int, hash: Key -> Word)
      requires dim + dim / 2 <= 0x4000_0000
      ensures Valid() && Contents() == map[] && h_collision == 0 && fresh(hash_table) && Repr == {}
      ensures hashing.hash == hash && h_datalen == datalen && dim + dim / 2 <= hashing.dim
    {
      var size, k := HashSize(dim);
      hashing := Hashing(hash, size);
      h_datalen := datalen;
      bits := k;
      h_elements, h_collision := 0, 0;
      hash_table := new FhBucket?[size](_ => null);
      mo := NoBindings(size);
      Repr := {};
      new;
      NoBindingsOk(hashing);
    }

    /** h & (h_dim - 1) picks the chain. */
    method HashIndex(key: Key) returns (idx: nat, mini: nat)
      requires hashing.dim == Pow2(bits)
      ensures idx == hashing.Index(key) && idx < hashing.dim && mini == hashing.Mini(key)
    {
      var h := hashing.hash(key);
      mini := MiniHash(h);
      idx := And(h, hashing.dim - 1);
      AndMask(h, bits);
    }

    /** fh_get: the payload of key, or NULL with an error. */
    method Get(key: Key) returns (obj: Ptr, error: int)
      requires Valid()
      ensures error == if key in Contents() then FH_OK else FH_ELEMENT_NOT_FOUND
      ensures obj == if key in Contents() then Contents()[key] else NULL
    {
      var idx, mini := HashIndex(key);
      assert Standing(idx) && ValOk(hashing, mo, idx);
      var found, i, j :=
        FindEntry(hashing, hash_table[idx], key, mini, mo.chains[idx], mo.vals[idx], mo.contents, mo.places);
      if i == -1 {
        return NULL, FH_ELEMENT_NOT_FOUND;
      }
      return found.slots[i].obj, FH_OK;
    }

    /** Sound but for chain idx, which is the buckets bs holding c and still binds what it did. */
    ghost predicate ValidBut(idx: nat, bs: seq<FhBucket>, c: Chain)
      reads this, hash_table, Repr, bs
    {
      && OthersStand(idx) && h_elements == |mo.contents|
      && (forall j :: 0 <= j < |bs| ==> bs[j].home == idx)
      && Chained(hash_table[idx], bs, c, idx) && Holds(hashing, c, idx, mo.contents, mo.places)
      && (NoEmptyBucket(c) || c == [FreeBucket()])
    }

    /** The chain of idx with at least one bucket; a chain that has one already counts as a collision. */
    method Head(idx: nat) returns (bucket: FhBucket, ghost bs: seq<FhBucket>, ghost c: Chain)
      requires Valid() && idx < hashing.dim
      modifies this`h_collision, hash_table
      ensures ValidBut(idx, bs, c) && bucket == hash_table[idx]
      ensures forall b :: b in bs ==> b in Repr || fresh(b)
      ensures forall j :: 0 <= j < |bs| ==> bs[j] in Repr || fresh(bs[j])
      ensures c == [FreeBucket()] || (Valid() && bs == mo.chains[idx] && c == mo.vals[idx])
    {
      assert Standing(idx) && ValOk(hashing, mo, idx);
      bs, c := mo.chains[idx], mo.vals[idx];
      if hash_table[idx] != null {
        bucket := hash_table[idx];
        h_collision := h_collision + 1;
      } else {
        bucket := new FhBucket(idx, 0);
        hash_table[idx] := bucket;
        ExtendHolds(hashing, c, idx, mo.contents, mo.places, FreeBucket());
        assert bucket.slots == FreeBucket();
        bs, c := [bucket], [FreeBucket()];
        assert mo.vals[idx] + [FreeBucket()] == c;
      }
      forall k | k != idx ensures Standing(k) { assert old(Standing(k)); }
      forall k | bucket == old(hash_table[idx]) ensures Standing(k) { assert old(Standing(k)); }
    }

    /** Every chain but idx stands as the model says. */
    ghost predicate OthersStand(idx: nat)
      reads this, hash_table, Repr
    {
      && hashing.dim == Pow2(bits) == hash_table.Length && idx < hashing.dim
      && ModelOk(hashing, mo)
      && (forall k :: k != idx ==> Standing(k))
    }

    /** Chains other than idx stand as long as nothing but buckets of chain idx has changed. */
    twostate lemma OthersStill(idx: nat)
      requires old(OthersStand(idx))
      requires hash_table == old(hash_table) && mo == old(mo) && Repr == old(Repr)
      requires forall k :: 0 <= k < hash_table.Length && k != idx ==> hash_table[k] == old(hash_table[k])
      requires forall b :: b in Repr && b.home != idx ==> unchanged(b)
      ensures OthersStand(idx)
    {
      forall k | k != idx ensures Standing(k) {
        assert old(Standing(k));
      }
    }

    /** Enters into the model what has become of chain idx. */
    ghost method Record(idx: nat, bs: seq<FhBucket>, c: Chain, m: map<Key, Ptr>, p: Places)
      requires OthersStand(idx) && h_elements == |m|
      requires Chained(hash_table[idx], bs, c, idx) && Holds(hashing, c, idx, m, p) && NoEmptyBucket(c)
      requires forall k :: hashing.Index(k) != idx ==> (k in mo.contents <==> k in m) && (k in m ==> mo.contents[k] == m[k])
      requires forall k :: hashing.Index(k) != idx && k in mo.places ==> k in p && mo.places[k] == p[k]
      modifies this`mo, this`Repr
      ensures Valid() && Contents() == m && Repr == old(Repr) + (set b | b in bs)
      ensures mo.chains == old(mo.chains)[idx := bs] && mo.vals == old(mo.vals)[idx := c]
    {
      ReboundOk(hashing, mo, idx, bs, c, m, p);
      HomesOf(hash_table[idx], bs, c, idx);
      mo := Rebound(mo, idx, bs, c, m, p);
      Repr := Repr + (set b | b in bs);
      forall k ensures Standing(k) {
        if k != idx {
          assert old(Standing(k));
        } else {
          assert AtHome(bs, idx, Repr);
        }
      }
    }

    /** The insertion proper, once key is known to be new. */
    method Fill(idx: nat, key: Key, mini: nat, block: Ptr, bucket: FhBucket, ghost bs: seq<FhBucket>, ghost c: Chain)
      requires ValidBut(idx, bs, c) && idx == hashing.Index(key) && mini == hashing.Mini(key)
      requires bucket == hash_table[idx] && key !in mo.contents
      modifies this`mo, this`Repr, this`h_elements, bs
      ensures Valid() && Contents() == old(Contents())[key := block]
      ensures forall b :: b in Repr - old(Repr) ==> b in bs || fresh(b)
    {
      ghost var m, p := mo.contents, mo.places;
      ghost var bs', c', place := FillInChain(hashing, bucket, key, mini, block, bs, c, m, p);
      h_elements := h_elements + 1;
      OthersStill(idx);
      Record(idx, bs', c', m[key := block], p[key := place]);
    }

    /** fh_insert: the chain's index, or an error when key is bound already. */
    method Insert(key: Key, block: Ptr) returns (rc: int)
      requires Valid()
      modifies this, hash_table, Repr
      ensures Valid() && hash_table == old(hash_table) && fresh(Repr - old(Repr))
      ensures rc == if key in old(Contents()) then FH_DUPLICATED_ELEMENT else hashing.Index(key)
      ensures Contents() == if key in old(Contents()) then old(Contents()) else old(Contents())[key := block]
    {
      var idx, mini := HashIndex(key);
      var bucket, bs, c := Head(idx);
      var found, i, j := FindEntry(hashing, bucket, key, mini, bs, c, mo.contents, mo.places);
      if i != -1 {
        return FH_DUPLICATED_ELEMENT;
      }
      Fill(idx, key, mini, block, bucket, bs, c);
      return idx;
    }

    /** fh_del: the chain's index, or an error when key is not bound. */
    method Del(key: Key) returns (rc: int)
      requires Valid()
      modifies this, hash_table, Repr
      ensures Valid() && hash_table == old(hash_table) && Repr == old(Repr)
      ensures rc == if key in old(Contents()) then hashing.Index(key) else FH_ELEMENT_NOT_FOUND
      ensures Contents() == old(Contents()) - {key}
    {
      var idx, mini := HashIndex(key);
      assert Standing(idx) && ValOk(hashing, mo, idx);
      var found, i, j :=
        FindEntry(hashing, hash_table[idx], key, mini, mo.chains[idx], mo.vals[idx], mo.contents, mo.places);
      if i == -1 {
        return FH_ELEMENT_NOT_FOUND;
      }
      Unfill(idx, key, found, i, j);
      return idx;
    }

    /** The deletion proper, once the entry of key is found. */
    method Unfill(idx: nat, key: Key, found: FhBucket, i: nat, ghost j: nat)
      requires Valid() && idx == hashing.Index(key) && key in mo.contents && key in mo.places
      requires mo.places[key] == (j, i) && Matches(mo.vals[idx], key, hashing.Mini(key), j, i)
      requires j < |mo.chains[idx]| && found == mo.chains[idx][j]
      modifies this`mo, this`Repr, this`h_elements, hash_table, mo.chains[idx]
      ensures Valid() && Contents() == old(Contents()) - {key} && Repr == old(Repr)
    {
      assert Standing(idx) && ValOk(hashing, mo, idx);
      ghost var bs, c, m, p := mo.chains[idx], mo.vals[idx], mo.contents, mo.places;
      ghost var bs', c', p';
      hash_table[idx], bs', c', p' := FreeInChain(hashing, hash_table[idx], key, found, i, j, bs, c, m, p);
      h_elements := h_elements - 1;
      OthersStill(idx);
      Record(idx, bs', c', m - {key}, p');
    }

    /**
     fh_enum_create: walks the chains in order, under one lock at a time, into an array allocated for
     the number of elements read at the start, and sorts what it has if asked to.
     */
    method EnumCreate(sortOrder: int) returns (list: seq<Elem>, error: int)
      requires Valid()
      ensures error == if Contents() == map[] then FH_EMPTY_HASHTABLE else FH_OK
      ensures Lists(list, Contents(), Contents().Keys) && HaveKeys(list)
      ensures sortOrder == FH_ENUM_SORTED_ASC || sortOrder == FH_ENUM_SORTED_DESC ==> Ordered(list, sortOrder)
    {
      list := [];
      var n := h_elements;
      forall k | 0 <= k < hashing.dim ensures Holds(hashing, mo.vals[k], k, mo.contents, mo.places) {
        assert ValOk(hashing, mo, k);
      }
      EnumerationComplete(hashing, mo.vals, mo.contents, mo.places);
      if n < 1 {
        return [], FH_EMPTY_HASHTABLE;
      }
      var i := 0;
      while i < hashing.dim && |list| < n
        invariant 0 <= i <= hashing.dim && list == Take(TableElems(mo.vals, i), n)
      {
        assert Standing(i);
        list := ScanChain(hash_table[i], list, n, mo.chains[i], mo.vals[i], i);
        TakeAppend(TableElems(mo.vals, i), ChainElems(mo.vals[i], |mo.vals[i]|), n);
        i := i + 1;
      }
      TakeEnough(mo.vals, i, n);
      ListsHaveKeys(list, mo.contents, mo.contents.Keys);
      QsortLists(list, mo.contents, mo.contents.Keys, sortOrder);
      return Arranged(list, sortOrder), FH_OK;
    }

    /** Whether fh_clean can do what it is asked to: a delete function makes sense for pointers only. */
    predicate MayClean(del: bool)
    {
      del ==> h_datalen == FH_DATALEN_VOIDP
    }

    /**
     fh_clean: lists the table, deletes what it listed, and hands each payload to the delete function if
     there is one; deleted are the payloads it got.
     */
    method Clean(del: bool) returns (result: int, deleted: seq<Ptr>, ghost list: seq<Elem>)
      requires Valid()
      modifies this, hash_table, Repr
      ensures Valid()
      ensures !MayClean(del) ==> result == FH_FREE_NOT_REQUESTED && Contents() == old(Contents()) && deleted == []
      ensures MayClean(del) ==>
                && Contents() == map[] && h_elements == 0
                && (forall k :: 0 <= k < hash_table.Length ==> hash_table[k] == null)
                && result == if old(Contents()) == map[] then FH_EMPTY_HASHTABLE else FH_OK
      ensures MayClean(del) ==> Lists(list, old(Contents()), old(Contents()).Keys)
      ensures MayClean(del) ==> deleted == if del then Payloads(list) else []
    {
      deleted, list := [], [];
      if del && h_datalen != FH_DATALEN_VOIDP {
        return FH_FREE_NOT_REQUESTED, [], [];
      }
      var elems;
      elems, result := EnumCreate(0);
      list := elems;
      deleted := DeleteListed(elems, del, mo.contents);
      NoBuckets();
    }

    /** The loop of fh_clean. */
    method DeleteListed(list: seq<Elem>, del: bool, ghost m: map<Key, Ptr>) returns (deleted: seq<Ptr>)
      requires Valid() && Contents() == m && Lists(list, m, m.Keys) && MayClean(del)
      modifies this, hash_table, Repr
      ensures Valid() && hash_table == old(hash_table) && Contents() == map[]
      ensures deleted == if del then Payloads(list) else []
    {
      deleted := [];
      var i := 0;
      while i < |list|
        invariant 0 <= i <= |list| && Valid() && hash_table == old(hash_table) && Repr == old(Repr)
        invariant Contents().Keys == Remaining(list, m, i)
        invariant deleted == if del then Payloads(list[..i]) else []
      {
        var block := DeleteOne(list, i, m);
        if h_datalen == FH_DATALEN_VOIDP {
          if del {
            deleted := deleted + [block];
          }
        }
        PayloadsNext(list, i);
        i := i + 1;
      }
      RemainingNone(list, m);
      assert list[..|list|] == list;
    }

    /** One turn of the loop: the key of element i goes; its payload is handed out. */
    method DeleteOne(list: seq<Elem>, i: nat, ghost m: map<Key, Ptr>) returns (block: Ptr)
      requires Valid() && Lists(list, m, m.Keys) && i < |list| && Contents().Keys == Remaining(list, m, i)
      modifies this, hash_table, Repr
      ensures Valid() && hash_table == old(hash_table) && Repr == old(Repr)
      ensures Contents().Keys == Remaining(list, m, i + 1) && block == list[i].obj
    {
      assert ElemOk(list, m, m.Keys, i);
      block := list[i].obj;
      var rc := Del(list[i].key.value);
      RemainingStep(list, m, i);
    }

    /** A table without bindings has no buckets. */
    lemma NoBuckets()
      requires Valid() && Contents() == map[]
      ensures h_elements == 0 && forall k :: 0 <= k < hash_table.Length ==> hash_table[k] == null
    {
      forall k | 0 <= k < hash_table.Length ensures hash_table[k] == null {
        assert Standing(k) && ValOk(hashing, mo, k);
        if mo.vals[k] != [] {
          BucketsBind(hashing, mo.vals[k], k, mo.contents, mo.places);
        }
      }
    }
  }
}
