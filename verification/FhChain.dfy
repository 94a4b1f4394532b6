/** What the chains of buckets in libfh hold, as plain sequences, and the map they stand for. */
module FhChain {
  import opened CTypes
  import opened Words

  const BUCKET_SIZE := 8
  const MIN_MINIHASH := 5

  /** One entry of a bucket with its mini-hash; a mini-hash of zero marks a free entry. */
  datatype Slot = Slot(mini: nat, key: Option<Key>, obj: Ptr)
  {
    predicate Used() { mini != 0 }
  }

  const EMPTY := Slot(0, None, NULL)

  type Bucket = seq<Slot>
  type Chain = seq<Bucket>

  /** MAKE_MINIHASH: the top byte of the hash, moved away from the reserved values 0 to 4. */
  function MiniHash(h: Word): (r: nat)
    ensures MIN_MINIHASH <= r < 256
  {
    var top := h / 0x100_0000_0000_0000;
    if top < MIN_MINIHASH then top + MIN_MINIHASH else top
  }

  /** What the table must know about hashing: the function and the number of chains. */
  datatype Hashing = Hashing(hash: Key -> Word, dim: nat)
  {
    predicate Valid() { dim > 0 }

    function Index(key: Key): nat
      requires Valid()
    {
      hash(key) % dim
    }

    function Mini(key: Key): nat
    {
      MiniHash(hash(key))
    }
  }

  /** Entry i of bucket j, or a free entry where there is none. */
  ghost function SlotAt(c: Chain, j: int, i: int): Slot
  {
    if 0 <= j < |c| && 0 <= i < |c[j]| then c[j][i] else EMPTY
  }

  ghost function Put(c: Chain, j: nat, i: nat, s: Slot): Chain
    requires j < |c| && i < |c[j]|
  {
    c[j := c[j][i := s]]
  }

  type Places = map<Key, (nat, nat)>

  /** A used entry is bound in the map, sits where places says, in its own chain, under its own mini-hash. */
  ghost predicate SlotOk(h: Hashing, c: Chain, idx: nat, m: map<Key, Ptr>, places: Places, j: int, i: int)
    requires h.Valid()
  {
    var s := SlotAt(c, j, i);
    if s.Used() then
      && s.key.Some? && s.key.value in m && s.key.value in places
      && m[s.key.value] == s.obj && places[s.key.value] == (j, i)
      && h.Index(s.key.value) == idx && h.Mini(s.key.value) == s.mini
    else s == EMPTY
  }

  /** A bound key of this chain is in a used entry of it. */
  ghost predicate KeyOk(h: Hashing, c: Chain, idx: nat, m: map<Key, Ptr>, places: Places, key: Key)
    requires h.Valid()
  {
    key in m && h.Index(key) == idx ==>
      && key in places
      && SlotAt(c, places[key].0, places[key].1).Used()
      && SlotAt(c, places[key].0, places[key].1).key == Some(key)
  }

  ghost predicate FullSize(c: Chain)
  {
    forall j :: 0 <= j < |c| ==> |c[j]| == BUCKET_SIZE
  }

  /** The chain at index idx holds exactly the bindings of m whose keys hash to idx, each once. */
  ghost predicate Holds(h: Hashing, c: Chain, idx: nat, m: map<Key, Ptr>, places: Places)
    requires h.Valid()
  {
    && FullSize(c)
    && (forall j, i :: SlotOk(h, c, idx, m, places, j, i))
    && (forall key :: KeyOk(h, c, idx, m, places, key))
  }

  ghost predicate HasUsed(b: Bucket)
  {
    exists i :: 0 <= i < |b| && b[i].Used()
  }

  ghost predicate NoEmptyBucket(c: Chain)
  {
    forall j :: 0 <= j < |c| ==> HasUsed(c[j])
  }

  // ---------- lookup ----------

  /** Entry i of bucket j is where a scan for key, filtered by its mini-hash, stops. */
  ghost predicate Matches(c: Chain, key: Key, mini: nat, j: int, i: int)
  {
    SlotAt(c, j, i).mini == mini && SlotAt(c, j, i).key == Some(key)
  }

  /** The filtered scan finds key exactly when it is bound, and then finds its binding. */
  lemma ScanFinds(h: Hashing, c: Chain, m: map<Key, Ptr>, places: Places, key: Key)
    requires h.Valid() && Holds(h, c, h.Index(key), m, places)
    ensures key in m ==> key in places && Matches(c, key, h.Mini(key), places[key].0, places[key].1)
    ensures forall j, i :: Matches(c, key, h.Mini(key), j, i) ==>
              key in m && m[key] == SlotAt(c, j, i).obj && places[key] == (j, i)
  {
    var idx := h.Index(key);
    assert KeyOk(h, c, idx, m, places, key);
    if key in m {
      assert SlotOk(h, c, idx, m, places, places[key].0, places[key].1);
    }
    forall j, i | Matches(c, key, h.Mini(key), j, i)
      ensures key in m && m[key] == SlotAt(c, j, i).obj && places[key] == (j, i)
    {
      assert SlotOk(h, c, idx, m, places, j, i);
    }
  }

  // ---------- insertion ----------

  /** Filling a free entry with a key that is not bound yet adds exactly its binding. */
  lemma FillHolds(h: Hashing, c: Chain, m: map<Key, Ptr>, places: Places, j: nat, i: nat, key: Key, block: Ptr)
    requires h.Valid() && Holds(h, c, h.Index(key), m, places) && key !in m
    requires j < |c| && i < BUCKET_SIZE && !c[j][i].Used()
    ensures Holds(h, Put(c, j, i, Slot(h.Mini(key), Some(key), block)), h.Index(key), m[key := block], places[key := (j, i)])
  {
    var idx := h.Index(key);
    var c', m', p' := Put(c, j, i, Slot(h.Mini(key), Some(key), block)), m[key := block], places[key := (j, i)];
    forall j', i' ensures SlotOk(h, c', idx, m', p', j', i') {
      assert SlotOk(h, c, idx, m, places, j', i');
    }
    forall k ensures KeyOk(h, c', idx, m', p', k) {
      assert KeyOk(h, c, idx, m, places, k);
      if k in m && h.Index(k) == idx {
        assert SlotAt(c, places[k].0, places[k].1).Used();
      }
    }
  }

  /** A new bucket of free entries at the end of the chain binds nothing. */
  lemma ExtendHolds(h: Hashing, c: Chain, idx: nat, m: map<Key, Ptr>, places: Places, b: Bucket)
    requires h.Valid() && Holds(h, c, idx, m, places)
    requires |b| == BUCKET_SIZE && forall i :: 0 <= i < |b| ==> b[i] == EMPTY
    ensures Holds(h, c + [b], idx, m, places)
  {
    forall j, i ensures SlotOk(h, c + [b], idx, m, places, j, i) {
      assert SlotOk(h, c, idx, m, places, j, i);
    }
    forall k ensures KeyOk(h, c + [b], idx, m, places, k) {
      assert KeyOk(h, c, idx, m, places, k);
    }
  }

  // ---------- deletion ----------

  /** Freeing the entry of key removes exactly its binding. */
  lemma FreeHolds(h: Hashing, c: Chain, m: map<Key, Ptr>, places: Places, key: Key)
    requires h.Valid() && Holds(h, c, h.Index(key), m, places) && key in m && key in places
    requires var (j, i) := places[key]; j < |c| && i < BUCKET_SIZE && c[j][i].key == Some(key)
    ensures Holds(h, Put(c, places[key].0, places[key].1, EMPTY), h.Index(key), m - {key}, places - {key})
  {
    var idx := h.Index(key);
    var (j, i) := places[key];
    var c', m', p' := Put(c, j, i, EMPTY), m - {key}, places - {key};
    forall j', i' ensures SlotOk(h, c', idx, m', p', j', i') {
      assert SlotOk(h, c, idx, m, places, j', i');
    }
    forall k ensures KeyOk(h, c', idx, m', p', k) {
      assert KeyOk(h, c, idx, m, places, k);
      if k != key && k in m && h.Index(k) == idx {
        assert SlotOk(h, c, idx, m, places, places[k].0, places[k].1);
      }
    }
  }

  /** Where the entries of chain idx are once its bucket j has gone. */
  ghost function Shifted(h: Hashing, places: Places, idx: nat, j: nat): Places
    requires h.Valid()
  {
    map k | k in places ::
      if h.Index(k) == idx && places[k].0 > j then (places[k].0 - 1, places[k].1) else places[k]
  }

  /** Unlinking a bucket of free entries binds the same keys. */
  lemma DropHolds(h: Hashing, c: Chain, idx: nat, m: map<Key, Ptr>, places: Places, j: nat)
    requires h.Valid() && Holds(h, c, idx, m, places) && j < |c| && !HasUsed(c[j])
    ensures Holds(h, c[..j] + c[j + 1..], idx, m, Shifted(h, places, idx, j))
  {
    var c', p' := c[..j] + c[j + 1..], Shifted(h, places, idx, j);
    forall j', i ensures SlotOk(h, c', idx, m, p', j', i) {
      assert SlotOk(h, c, idx, m, places, if j' < j then j' else j' + 1, i);
    }
    forall k ensures KeyOk(h, c', idx, m, p', k) {
      assert KeyOk(h, c, idx, m, places, k);
    }
  }

  // ---------- the other chains ----------

  /** A change to the binding of one key leaves every other chain as good as it was. */
  lemma OtherChain(h: Hashing, c: Chain, idx: nat, m: map<Key, Ptr>, places: Places, m': map<Key, Ptr>, places': Places)
    requires h.Valid() && Holds(h, c, idx, m, places)
    requires forall k :: h.Index(k) == idx ==> (k in m <==> k in m') && (k in m ==> m'[k] == m[k])
    requires forall k :: h.Index(k) == idx && k in places ==> k in places' && places'[k] == places[k]
    ensures Holds(h, c, idx, m', places')
  {
    forall j, i ensures SlotOk(h, c, idx, m', places', j, i) {
      assert SlotOk(h, c, idx, m, places, j, i);
    }
    forall k ensures KeyOk(h, c, idx, m', places', k) {
      assert KeyOk(h, c, idx, m, places, k);
    }
  }
}
