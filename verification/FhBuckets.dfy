/** Buckets on the heap: the scans and the relinking that one chain of libfh undergoes. */
module FhBuckets {
  import opened CTypes
  import opened FhChain

  /** An allocated bucket; home and pos only record, for the proofs, the chain and the order it was added in. */
  class FhBucket {
    var slots: seq<Slot>
    var next: FhBucket?
    ghost const home: nat
    ghost const pos: nat

    /** _fh_allocate_bucket. */
    constructor (ghost home: nat, ghost pos: nat)
      ensures |slots| == BUCKET_SIZE && forall i :: 0 <= i < BUCKET_SIZE ==> slots[i] == EMPTY
      ensures next == null && this.home == home && this.pos == pos
    {
      slots := seq(BUCKET_SIZE, _ => EMPTY);
      next := null;
      this.home, this.pos := home, pos;
    }
  }

  ghost function Nth(bs: seq<FhBucket>, j: int): FhBucket?
  {
    if 0 <= j < |bs| then bs[j] else null
  }

  /** Bucket j holds what c says and leads to bucket j + 1. */
  ghost predicate LinkAt(bs: seq<FhBucket>, c: Chain, idx: nat, j: int)
    reads bs
  {
    0 <= j < |bs| ==>
      |c| == |bs| && bs[j].slots == c[j] && bs[j].next == Nth(bs, j + 1) && bs[j].home == idx
  }

  /** From head on, the buckets bs are linked in order and hold the chain c of index idx. */
  ghost predicate Chained(head: FhBucket?, bs: seq<FhBucket>, c: Chain, idx: nat)
    reads bs
  {
    && |bs| == |c| && FullSize(c) && head == Nth(bs, 0)
    && (forall i, j :: 0 <= i < j < |bs| ==> bs[i].pos < bs[j].pos)
    && (forall j :: LinkAt(bs, c, idx, j))
  }

  ghost function FreeBucket(): Bucket
  {
    seq(BUCKET_SIZE, _ => EMPTY)
  }

  lemma OccursOnce(bs: seq<FhBucket>, i: nat, j: nat)
    requires forall i, j :: 0 <= i < j < |bs| ==> bs[i].pos < bs[j].pos
    requires i < |bs| && j < |bs| && bs[i] == bs[j]
    ensures i == j
  {
  }

  /** Scanning up to bucket j, entry i has met no match. */
  ghost predicate NoMatchBefore(c: Chain, key: Key, mini: nat, j: int, i: int)
  {
    forall j', i' :: j' < j || (j' == j && i' < i) ==> !Matches(c, key, mini, j', i')
  }

  /** _fh_find_slot_in_bucket: only an entry with the right mini-hash has its key compared. */
  method FindSlotInBucket(head: FhBucket?, key: Key, mini: nat, ghost bs: seq<FhBucket>, ghost c: Chain, ghost idx: nat)
    returns (found: FhBucket?, i: int, ghost j: int)
    requires Chained(head, bs, c, idx)
    requires forall j, i :: SlotAt(c, j, i).mini == mini ==> SlotAt(c, j, i).key.Some?
    ensures i == -1 ==> forall j', i' :: !Matches(c, key, mini, j', i')
    ensures i != -1 ==> 0 <= j < |bs| && 0 <= i < BUCKET_SIZE && found == bs[j] && Matches(c, key, mini, j, i)
  {
    j := 0;
    var b := head;
    while b != null
      invariant 0 <= j <= |bs| && b == Nth(bs, j) && NoMatchBefore(c, key, mini, j, 0)
      decreases |bs| - j
    {
      assert LinkAt(bs, c, idx, j);
      for k := 0 to BUCKET_SIZE
        invariant NoMatchBefore(c, key, mini, j, k)
      {
        assert SlotAt(c, j, k) == b.slots[k];
        if b.slots[k].mini == mini {
          StrcmpEqual(b.slots[k].key.value, key);
          if Strcmp(b.slots[k].key.value, key) == 0 {
            return b, k, j;
          }
        }
      }
      if b.next == null {
        return null, -1, j;
      }
      b := b.next;
      j := j + 1;
    }
    return null, -1, j;
  }

  /** Overwrites one entry of one bucket. */
  method WriteSlot(b: FhBucket, i: nat, s: Slot, ghost head: FhBucket?, ghost bs: seq<FhBucket>, ghost c: Chain,
                   ghost idx: nat, ghost j: nat)
    requires Chained(head, bs, c, idx) && j < |bs| && b == bs[j] && i < BUCKET_SIZE
    modifies b
    ensures Chained(head, bs, Put(c, j, i, s), idx)
    ensures b.next == old(b.next) && |old(b.slots)| == BUCKET_SIZE && b.slots == old(b.slots)[i := s]
  {
    assert LinkAt(bs, c, idx, j);
    b.slots := b.slots[i := s];
    ghost var c' := Put(c, j, i, s);
    forall j' ensures LinkAt(bs, c', idx, j') {
      assert old(LinkAt(bs, c, idx, j'));
    }
  }

  /** Every entry before entry i of bucket j is taken. */
  ghost predicate UsedBefore(c: Chain, j: int, i: int)
  {
    forall j', i' :: 0 <= j' < |c| && 0 <= i' < BUCKET_SIZE && (j' < j || (j' == j && i' < i)) ==> SlotAt(c, j', i').Used()
  }

  /** Links a new bucket of free entries behind the last one. */
  method AppendBucket(b: FhBucket, ghost head: FhBucket?, ghost bs: seq<FhBucket>, ghost c: Chain, ghost idx: nat)
    returns (added: FhBucket)
    requires Chained(head, bs, c, idx) && bs != [] && b == bs[|bs| - 1]
    modifies b
    ensures fresh(added) && b.next == added
    ensures Chained(head, bs + [added], c + [FreeBucket()], idx)
  {
    assert LinkAt(bs, c, idx, |bs| - 1);
    added := new FhBucket(idx, b.pos + 1);
    b.next := added;
    ghost var bs', c' := bs + [added], c + [FreeBucket()];
    assert added.slots == FreeBucket();
    forall j ensures LinkAt(bs', c', idx, j) {
      assert old(LinkAt(bs, c, idx, j));
    }
  }

  /** The chain after the claim, before and after the entry is marked. */
  ghost predicate Claimed(c: Chain, mini: nat, j: nat, i: nat, c': Chain, marked: Chain)
  {
    && (c' == c || (c' == c + [FreeBucket()] && UsedBefore(c, |c|, 0)))
    && FullSize(c') && j < |c'| && i < BUCKET_SIZE && !c'[j][i].Used() && UsedBefore(c', j, i)
    && marked == Put(c', j, i, c'[j][i].(mini := mini))
  }

  /**
   _fh_return_empty_slot_in_bucket: the first free entry of the chain gets the mini-hash; only when
   there is none does the chain grow by a bucket.
   */
  method ReturnEmptySlotInBucket(head: FhBucket, mini: nat, ghost bs: seq<FhBucket>, ghost c: Chain, ghost idx: nat)
    returns (found: FhBucket, i: nat, ghost j: nat, ghost bs': seq<FhBucket>, ghost c': Chain, ghost marked: Chain)
    requires Chained(head, bs, c, idx)
    modifies bs
    ensures bs' == bs || (|bs'| == |bs| + 1 && bs'[..|bs|] == bs && fresh(bs'[|bs|]))
    ensures Claimed(c, mini, j, i, c', marked)
    ensures |bs'| == |c'| && found == bs'[j] && Chained(head, bs', marked, idx)
  {
    var b := head;
    j, bs', c' := 0, bs, c;
    while true
      invariant 0 <= j < |bs| && b == bs[j] && UsedBefore(c, j, 0)
      invariant Chained(head, bs, c, idx) && bs' == bs && c' == c
      decreases |bs| - j
    {
      assert LinkAt(bs, c, idx, j);
      for k := 0 to BUCKET_SIZE
        invariant UsedBefore(c, j, k)
      {
        assert SlotAt(c, j, k) == b.slots[k];
        if b.slots[k].mini == 0 {
          WriteSlot(b, k, b.slots[k].(mini := mini), head, bs, c, idx, j);
          marked := Put(c, j, k, c[j][k].(mini := mini));
          return b, k, j, bs, c, marked;
        }
      }
      if b.next == null {
        break;
      }
      b := b.next;
      j := j + 1;
    }
    assert j == |bs| - 1;
    b := AppendBucket(b, head, bs, c, idx);
    bs', c' := bs + [b], c + [FreeBucket()];
    assert UsedBefore(c, |c|, 0);
    assert forall j', i' :: j' < |c| ==> SlotAt(c', j', i') == SlotAt(c, j', i');
    j := |bs|;
    assert LinkAt(bs', c', idx, j);
    WriteSlot(b, 0, b.slots[0].(mini := mini), head, bs', c', idx, j);
    marked := Put(c', j, 0, c'[j][0].(mini := mini));
    return b, 0, j, bs', c', marked;
  }

  /**
   _deallocate_bucket_if_empty: a bucket with nothing left in it is unlinked, wherever it stands;
   the search for its predecessor always succeeds.
   */
  method DeallocateBucketIfEmpty(candidate: FhBucket, start: FhBucket?, ghost bs: seq<FhBucket>, ghost c: Chain,
                                 ghost idx: nat, ghost j: nat)
    returns (start': FhBucket?, ghost bs': seq<FhBucket>, ghost c': Chain)
    requires Chained(start, bs, c, idx) && j < |bs| && candidate == bs[j]
    modifies bs
    ensures HasUsed(c[j]) ==> bs' == bs && c' == c
    ensures !HasUsed(c[j]) ==> bs' == bs[..j] + bs[j + 1..] && c' == c[..j] + c[j + 1..]
    ensures Chained(start', bs', c', idx)
  {
    assert LinkAt(bs, c, idx, j);
    for i := 0 to BUCKET_SIZE
      invariant forall i' :: 0 <= i' < i ==> !c[j][i'].Used()
    {
      if candidate.slots[i].mini != 0 {
        assert c[j][i].Used();
        return start, bs, c;
      }
    }
    bs', c' := bs[..j] + bs[j + 1..], c[..j] + c[j + 1..];
    var finger := start;
    if finger == candidate {
      finger := candidate.next;
      OccursOnce(bs, 0, j);
      forall k ensures LinkAt(bs', c', idx, k) {
        assert LinkAt(bs, c, idx, k + 1);
      }
      return finger, bs', c';
    }
    ghost var f := 0;
    while finger != null
      invariant 0 <= f < j && finger == bs[f]
      invariant Chained(start, bs, c, idx)
      decreases |bs| - f
    {
      assert LinkAt(bs, c, idx, f);
      if finger.next == candidate {
        OccursOnce(bs, f + 1, j);
        UnlinkNext(finger, candidate, start, bs, c, idx, j);
        return start, bs', c';
      }
      finger := finger.next;
      f := f + 1;
    }
    assert false;
  }

  /** Takes bucket j out from behind its predecessor. */
  method UnlinkNext(finger: FhBucket, candidate: FhBucket, ghost start: FhBucket?, ghost bs: seq<FhBucket>,
                    ghost c: Chain, ghost idx: nat, ghost j: nat)
    requires Chained(start, bs, c, idx) && 0 < j < |bs| && finger == bs[j - 1] && candidate == bs[j]
    modifies finger
    ensures Chained(start, bs[..j] + bs[j + 1..], c[..j] + c[j + 1..], idx)
  {
    assert LinkAt(bs, c, idx, j);
    assert forall k :: 0 <= k < |bs| && k != j - 1 ==> bs[k].pos != bs[j - 1].pos;
    finger.next := candidate.next;
    ghost var bs', c' := bs[..j] + bs[j + 1..], c[..j] + c[j + 1..];
    forall k ensures LinkAt(bs', c', idx, k) {
      assert old(LinkAt(bs, c, idx, if k < j then k else k + 1));
    }
  }
}
