/** What an enumeration of libfh collects, chain by chain, and why it lists every binding once. */
module FhEnum {
  import opened CTypes
  import opened FiniteSets
  import opened FhChain

  datatype Elem = Elem(key: Option<Key>, obj: Ptr)

  /** The used entries among the first i of a bucket, in scan order. */
  ghost function BucketElems(b: Bucket, i: nat): seq<Elem>
    requires i <= |b|
  {
    if i == 0 then []
    else BucketElems(b, i - 1) + if b[i - 1].Used() then [Elem(b[i - 1].key, b[i - 1].obj)] else []
  }

  ghost function ChainElems(c: Chain, j: nat): seq<Elem>
    requires j <= |c|
  {
    if j == 0 then [] else ChainElems(c, j - 1) + BucketElems(c[j - 1], |c[j - 1]|)
  }

  ghost function TableElems(vals: seq<Chain>, k: nat): seq<Elem>
    requires k <= |vals|
  {
    if k == 0 then [] else TableElems(vals, k - 1) + ChainElems(vals[k - 1], |vals[k - 1]|)
  }

  /** At most n of them: the array was allocated for n. */
  ghost function Take(s: seq<Elem>, n: nat): seq<Elem>
  {
    if |s| <= n then s else s[..n]
  }

  /** What is taken early makes no difference to what is taken in the end. */
  lemma TakeAppend(a: seq<Elem>, b: seq<Elem>, n: nat)
    ensures Take(Take(a, n) + b, n) == Take(a + b, n)
  {
    if |a| > n {
      assert (a[..n] + b)[..n] == a[..n] == (a + b)[..n];
    }
  }

  ghost predicate ElemOk(list: seq<Elem>, m: map<Key, Ptr>, ks: set<Key>, x: int)
  {
    0 <= x < |list| ==>
      && list[x].key.Some? && list[x].key.value in ks
      && list[x].key.value in m && m[list[x].key.value] == list[x].obj
  }

  ghost predicate Differ(list: seq<Elem>, x: int, y: int)
  {
    0 <= x < y < |list| ==> list[x].key != list[y].key
  }

  /** list binds exactly the keys ks, each once, to what m binds them to. */
  ghost predicate Lists(list: seq<Elem>, m: map<Key, Ptr>, ks: set<Key>)
  {
    && (forall x :: ElemOk(list, m, ks, x))
    && (forall x, y :: Differ(list, x, y))
    && |list| == |ks|
  }

  lemma ListsNothing(m: map<Key, Ptr>)
    ensures Lists([], m, {})
  {
  }

  lemma ListsOneMore(list: seq<Elem>, m: map<Key, Ptr>, ks: set<Key>, key: Key)
    requires Lists(list, m, ks) && key in m && key !in ks
    ensures Lists(list + [Elem(Some(key), m[key])], m, ks + {key})
  {
    var list' := list + [Elem(Some(key), m[key])];
    forall x ensures ElemOk(list', m, ks + {key}, x) {
      assert ElemOk(list, m, ks, x);
    }
    forall x, y ensures Differ(list', x, y) {
      assert Differ(list, x, y) && ElemOk(list, m, ks, x);
    }
  }

  /** Being as many as the keys and all different, the elements leave no key out. */
  lemma ListsCovers(list: seq<Elem>, m: map<Key, Ptr>, ks: set<Key>, key: Key)
    requires Lists(list, m, ks) && key in ks
    ensures exists x :: 0 <= x < |list| && list[x].key == Some(key)
  {
    var found := KeysOf(list, m, ks);
    if key !in found {
      SubsetSize(found, ks - {key});
      assert false;
    }
  }

  lemma {:induction false} KeysOf(list: seq<Elem>, m: map<Key, Ptr>, ks: set<Key>) returns (found: set<Key>)
    requires (forall x :: ElemOk(list, m, ks, x)) && (forall x, y :: Differ(list, x, y))
    ensures found <= ks && |found| == |list|
    ensures forall k :: k in found <==> exists x :: 0 <= x < |list| && list[x].key == Some(k)
    decreases |list|
  {
    if list == [] {
      found := {};
    } else {
      var last := |list| - 1;
      forall x ensures ElemOk(list[..last], m, ks, x) { assert ElemOk(list, m, ks, x); }
      forall x, y ensures Differ(list[..last], x, y) { assert Differ(list, x, y); }
      found := KeysOf(list[..last], m, ks);
      assert ElemOk(list, m, ks, last);
      var key := list[last].key.value;
      assert forall x :: 0 <= x < last ==> Differ(list, x, last) && list[..last][x] == list[x];
      found := found + {key};
    }
  }

  /** The keys whose entries come before entry i of bucket j of chain idx. */
  ghost function Before(h: Hashing, m: map<Key, Ptr>, p: Places, idx: nat, j: nat, i: nat): set<Key>
    requires h.Valid()
  {
    set k | k in m && k in p &&
      (h.Index(k) < idx || (h.Index(k) == idx && (p[k].0 < j || (p[k].0 == j && p[k].1 < i))))
  }

  lemma AppendAssociates(a: seq<Elem>, b: seq<Elem>, c: seq<Elem>)
    ensures a + b + c == a + (b + c)
  {
  }

  lemma BeforeNextBucket(h: Hashing, c: Chain, idx: nat, m: map<Key, Ptr>, p: Places, j: nat)
    requires h.Valid() && Holds(h, c, idx, m, p) && j < |c|
    ensures Before(h, m, p, idx, j, |c[j]|) == Before(h, m, p, idx, j + 1, 0)
  {
    forall k | k in Before(h, m, p, idx, j + 1, 0) ensures k in Before(h, m, p, idx, j, |c[j]|) {
      assert KeyOk(h, c, idx, m, p, k);
    }
  }

  lemma {:induction false} BucketLists(h: Hashing, c: Chain, idx: nat, m: map<Key, Ptr>, p: Places, j: nat, i: nat,
                                       list: seq<Elem>)
    requires h.Valid() && Holds(h, c, idx, m, p) && j < |c| && i <= |c[j]|
    requires Lists(list, m, Before(h, m, p, idx, j, 0))
    ensures Lists(list + BucketElems(c[j], i), m, Before(h, m, p, idx, j, i))
  {
    if i == 0 {
      assert list + BucketElems(c[j], 0) == list;
    } else {
      BucketLists(h, c, idx, m, p, j, i - 1, list);
      NextSlotLists(h, c, idx, m, p, j, i - 1, list);
    }
  }

  /** One entry more. */
  lemma NextSlotLists(h: Hashing, c: Chain, idx: nat, m: map<Key, Ptr>, p: Places, j: nat, i: nat, list: seq<Elem>)
    requires h.Valid() && Holds(h, c, idx, m, p) && j < |c| && i < |c[j]|
    requires Lists(list + BucketElems(c[j], i), m, Before(h, m, p, idx, j, i))
    ensures Lists(list + BucketElems(c[j], i + 1), m, Before(h, m, p, idx, j, i + 1))
  {
    var s := SlotAt(c, j, i);
    assert SlotOk(h, c, idx, m, p, j, i);
    BeforeNextSlot(h, c, idx, m, p, j, i);
    if s.Used() {
      ListsOneMore(list + BucketElems(c[j], i), m, Before(h, m, p, idx, j, i), s.key.value);
      AppendAssociates(list, BucketElems(c[j], i), [Elem(s.key, s.obj)]);
    } else {
      assert list + BucketElems(c[j], i) == list + BucketElems(c[j], i + 1);
    }
  }

  lemma BeforeNextSlot(h: Hashing, c: Chain, idx: nat, m: map<Key, Ptr>, p: Places, j: nat, i: nat)
    requires h.Valid() && Holds(h, c, idx, m, p) && j < |c| && i < |c[j]|
    ensures var s := SlotAt(c, j, i);
            var ks, ks' := Before(h, m, p, idx, j, i), Before(h, m, p, idx, j, i + 1);
            if s.Used() then s.key.Some? && s.key.value !in ks && ks' == ks + {s.key.value} else ks' == ks
  {
    var s := SlotAt(c, j, i);
    assert SlotOk(h, c, idx, m, p, j, i);
    var ks, ks' := Before(h, m, p, idx, j, i), Before(h, m, p, idx, j, i + 1);
    forall k | k in ks' && k !in ks ensures s.Used() && s.key == Some(k) {
      assert KeyOk(h, c, idx, m, p, k);
    }
  }

  lemma NoBucketsList(h: Hashing, c: Chain, idx: nat, m: map<Key, Ptr>, p: Places, list: seq<Elem>)
    requires h.Valid() && Lists(list, m, Before(h, m, p, idx, 0, 0))
    ensures Lists(list + ChainElems(c, 0), m, Before(h, m, p, idx, 0, 0))
  {
    assert list + ChainElems(c, 0) == list;
  }

  /** One bucket more. */
  lemma NextBucketLists(h: Hashing, c: Chain, idx: nat, m: map<Key, Ptr>, p: Places, j: nat, list: seq<Elem>)
    requires h.Valid() && Holds(h, c, idx, m, p) && 0 < j <= |c|
    requires Lists(list + ChainElems(c, j - 1), m, Before(h, m, p, idx, j - 1, 0))
    ensures Lists(list + ChainElems(c, j), m, Before(h, m, p, idx, j, 0))
  {
    ChainElemsNext(c, j, list);
    WholeBucketLists(h, c, idx, m, p, j - 1, list + ChainElems(c, j - 1));
  }

  lemma {:induction false} ChainLists(h: Hashing, c: Chain, idx: nat, m: map<Key, Ptr>, p: Places, j: nat, list: seq<Elem>)
    requires h.Valid() && Holds(h, c, idx, m, p) && j <= |c|
    requires Lists(list, m, Before(h, m, p, idx, 0, 0))
    ensures Lists(list + ChainElems(c, j), m, Before(h, m, p, idx, j, 0))
  {
    if j == 0 {
      NoBucketsList(h, c, idx, m, p, list);
    } else {
      ChainLists(h, c, idx, m, p, j - 1, list);
      NextBucketLists(h, c, idx, m, p, j, list);
    }
  }

  lemma ChainElemsNext(c: Chain, j: nat, list: seq<Elem>)
    requires 0 < j <= |c|
    ensures list + ChainElems(c, j) == list + ChainElems(c, j - 1) + BucketElems(c[j - 1], |c[j - 1]|)
  {
    AppendAssociates(list, ChainElems(c, j - 1), BucketElems(c[j - 1], |c[j - 1]|));
  }

  lemma WholeBucketLists(h: Hashing, c: Chain, idx: nat, m: map<Key, Ptr>, p: Places, j: nat, list: seq<Elem>)
    requires h.Valid() && Holds(h, c, idx, m, p) && j < |c|
    requires Lists(list, m, Before(h, m, p, idx, j, 0))
    ensures Lists(list + BucketElems(c[j], |c[j]|), m, Before(h, m, p, idx, j + 1, 0))
  {
    BucketLists(h, c, idx, m, p, j, |c[j]|, list);
    BeforeNextBucket(h, c, idx, m, p, j);
  }

  lemma {:induction false} TableLists(h: Hashing, vals: seq<Chain>, m: map<Key, Ptr>, p: Places, k: nat)
    requires h.Valid() && k <= |vals|
    requires forall x :: 0 <= x < |vals| ==> Holds(h, vals[x], x, m, p)
    ensures Lists(TableElems(vals, k), m, Before(h, m, p, k, 0, 0))
  {
    if k == 0 {
      NothingBefore(h, m, p);
    } else {
      TableLists(h, vals, m, p, k - 1);
      WholeChainLists(h, vals[k - 1], k - 1, m, p, TableElems(vals, k - 1));
      assert TableElems(vals, k) == TableElems(vals, k - 1) + ChainElems(vals[k - 1], |vals[k - 1]|);
    }
  }

  lemma NothingBefore(h: Hashing, m: map<Key, Ptr>, p: Places)
    requires h.Valid()
    ensures Lists([], m, Before(h, m, p, 0, 0, 0))
  {
    ListsNothing(m);
    assert Before(h, m, p, 0, 0, 0) == {};
  }

  lemma WholeChainLists(h: Hashing, c: Chain, idx: nat, m: map<Key, Ptr>, p: Places, list: seq<Elem>)
    requires h.Valid() && Holds(h, c, idx, m, p)
    requires Lists(list, m, Before(h, m, p, idx, 0, 0))
    ensures Lists(list + ChainElems(c, |c|), m, Before(h, m, p, idx + 1, 0, 0))
  {
    ChainLists(h, c, idx, m, p, |c|, list);
    BeforeNextChain(h, c, idx, m, p);
  }

  lemma BeforeNextChain(h: Hashing, c: Chain, idx: nat, m: map<Key, Ptr>, p: Places)
    requires h.Valid() && Holds(h, c, idx, m, p)
    ensures Before(h, m, p, idx, |c|, 0) == Before(h, m, p, idx + 1, 0, 0)
  {
    forall k | k in Before(h, m, p, idx + 1, 0, 0) ensures k in Before(h, m, p, idx, |c|, 0) {
      assert KeyOk(h, c, idx, m, p, k);
    }
  }

  /** The keys of m whose chain is one of the first n. */
  ghost function KeysBelow(h: Hashing, m: map<Key, Ptr>, n: nat): set<Key>
    requires h.Valid()
  {
    set k | k in m && h.Index(k) < n
  }

  /** The first chains of a table at rest list every binding of theirs exactly once, and as many as there are. */
  lemma ChainsList(h: Hashing, vals: seq<Chain>, m: map<Key, Ptr>, p: Places)
    requires h.Valid() && |vals| <= h.dim
    requires forall x :: 0 <= x < |vals| ==> Holds(h, vals[x], x, m, p)
    ensures Lists(TableElems(vals, |vals|), m, KeysBelow(h, m, |vals|))
  {
    TableLists(h, vals, m, p, |vals|);
    assert Before(h, m, p, |vals|, 0, 0) == KeysBelow(h, m, |vals|) by {
      forall key | key in KeysBelow(h, m, |vals|) ensures key in p {
        assert KeyOk(h, vals[h.Index(key)], h.Index(key), m, p, key);
      }
    }
  }

  // ---------- chains seen at different times ----------

  ghost predicate FromOwn<V>(h: Hashing, ms: seq<map<Key, V>>, k: Key)
    requires h.Valid()
  {
    h.Index(k) < |ms| && k in ms[h.Index(k)]
  }

  /** What chains seen at different times make up: each key as its own chain had it. */
  ghost function Merged<V>(h: Hashing, ms: seq<map<Key, V>>): (m: map<Key, V>)
    requires h.Valid()
    ensures forall k :: k in m ==> FromOwn(h, ms, k)
    ensures forall k :: FromOwn(h, ms, k) ==> k in m && m[k] == ms[h.Index(k)][k]
  {
    map k | k in (set i, k | 0 <= i < |ms| && k in ms[i] :: k) && FromOwn(h, ms, k) :: ms[h.Index(k)][k]
  }

  /** Chain x was as vals[x] says when it was looked at, and the table stood for ms[x] then. */
  ghost predicate Snapshots(h: Hashing, vals: seq<Chain>, ms: seq<map<Key, Ptr>>, ps: seq<Places>)
    requires h.Valid()
  {
    |vals| == |ms| == |ps| <= h.dim && forall x :: 0 <= x < |vals| ==> Holds(h, vals[x], x, ms[x], ps[x])
  }

  lemma MergedHolds(h: Hashing, vals: seq<Chain>, ms: seq<map<Key, Ptr>>, ps: seq<Places>, x: nat)
    requires h.Valid() && Snapshots(h, vals, ms, ps) && x < |vals|
    ensures Holds(h, vals[x], x, Merged(h, ms), Merged(h, ps))
  {
    OtherChain(h, vals[x], x, ms[x], ps[x], Merged(h, ms), Merged(h, ps));
  }

  lemma SnapshotsList(h: Hashing, vals: seq<Chain>, ms: seq<map<Key, Ptr>>, ps: seq<Places>)
    requires h.Valid() && Snapshots(h, vals, ms, ps)
    ensures Lists(TableElems(vals, |vals|), Merged(h, ms), Merged(h, ms).Keys)
  {
    forall x | 0 <= x < |vals| ensures Holds(h, vals[x], x, Merged(h, ms), Merged(h, ps)) {
      MergedHolds(h, vals, ms, ps, x);
    }
    ChainsList(h, vals, Merged(h, ms), Merged(h, ps));
    assert KeysBelow(h, Merged(h, ms), |vals|) == Merged(h, ms).Keys;
  }

  lemma TakeSome(list: seq<Elem>, m: map<Key, Ptr>, ks: set<Key>, n: nat)
    requires Lists(list, m, ks)
    ensures forall x :: ElemOk(Take(list, n), m, ks, x)
    ensures forall x, y :: Differ(Take(list, n), x, y)
  {
    forall x ensures ElemOk(Take(list, n), m, ks, x) { assert ElemOk(list, m, ks, x); }
    forall x, y ensures Differ(Take(list, n), x, y) { assert Differ(list, x, y); }
  }

  /** Element x was bound as it says when its own chain was looked at. */
  ghost predicate SeenBound(h: Hashing, ms: seq<map<Key, Ptr>>, list: seq<Elem>, x: int)
    requires h.Valid()
  {
    0 <= x < |list| ==>
      && list[x].key.Some? && FromOwn(h, ms, list[x].key.value)
      && ms[h.Index(list[x].key.value)][list[x].key.value] == list[x].obj
  }

  /**
   An enumeration that looks at the first chains one after another, each at its own time with its own
   state of the table, into an array for n elements: it never has more than n, no key twice, each as its
   own chain bound it when it was looked at; and while the array is not full no binding is left out.
   */
  lemma EnumerationOfSnapshots(h: Hashing, vals: seq<Chain>, ms: seq<map<Key, Ptr>>, ps: seq<Places>, n: nat)
    requires h.Valid() && Snapshots(h, vals, ms, ps)
    ensures var list := Take(TableElems(vals, |vals|), n);
            && |list| <= n
            && (forall x, y :: Differ(list, x, y))
            && (forall x :: SeenBound(h, ms, list, x))
            && (|list| < n || |TableElems(vals, |vals|)| <= n ==> Lists(list, Merged(h, ms), Merged(h, ms).Keys))
  {
    var m := Merged(h, ms);
    SnapshotsList(h, vals, ms, ps);
    var list := Take(TableElems(vals, |vals|), n);
    TakeSome(TableElems(vals, |vals|), m, m.Keys, n);
    forall x ensures SeenBound(h, ms, list, x) {
      assert ElemOk(list, m, m.Keys, x);
    }
  }

  /** All chains seen while the table is at rest make up the table. */
  lemma MergedAtRest<V>(h: Hashing, m: map<Key, V>)
    requires h.Valid()
    ensures Merged(h, seq(h.dim, _ => m)) == m
  {
    forall k ensures k in Merged(h, seq(h.dim, _ => m)) <==> k in m {
      assert FromOwn(h, seq(h.dim, _ => m), k) <==> k in m;
    }
  }

  /** A table at rest: an enumeration lists every binding exactly once, and as many as there are. */
  lemma EnumerationComplete(h: Hashing, vals: seq<Chain>, m: map<Key, Ptr>, p: Places)
    requires h.Valid() && |vals| == h.dim
    requires forall x :: 0 <= x < |vals| ==> Holds(h, vals[x], x, m, p)
    ensures Lists(TableElems(vals, |vals|), m, m.Keys) && |TableElems(vals, |vals|)| == |m|
  {
    MergedAtRest(h, m);
    EnumerationOfSnapshots(h, vals, seq(h.dim, _ => m), seq(h.dim, _ => p), |TableElems(vals, |vals|)|);
    assert |m.Keys| == |m|;
  }

  // ---------- sorting ----------

  const FH_ENUM_SORTED_ASC := 1
  const FH_ENUM_SORTED_DESC := 2

  predicate HaveKeys(list: seq<Elem>)
  {
    forall x :: 0 <= x < |list| ==> list[x].key.Some?
  }

  /** fh_ascfunc for ascending order, fh_descfunc otherwise: a comes before b. */
  predicate Precedes(order: int, a: Elem, b: Elem)
    requires a.key.Some? && b.key.Some?
  {
    if order == FH_ENUM_SORTED_ASC then Strcmp(a.key.value, b.key.value) < 0 else Strcmp(b.key.value, a.key.value) < 0
  }

  /** e at its place in a sorted list. */
  function Placed(list: seq<Elem>, e: Elem, order: int): (r: seq<Elem>)
    requires HaveKeys(list) && e.key.Some?
    ensures HaveKeys(r)
  {
    if list == [] || Precedes(order, e, list[0]) then [e] + list
    else [list[0]] + Placed(list[1..], e, order)
  }

  /** What qsort does with one of the two comparison functions. */
  function Qsort(list: seq<Elem>, order: int): (r: seq<Elem>)
    requires HaveKeys(list)
    ensures HaveKeys(r)
  {
    if list == [] then [] else Placed(Qsort(list[1..], order), list[0], order)
  }

  /** The list an enumeration hands out for a sort order; any other value leaves it as it is. */
  function Arranged(list: seq<Elem>, order: int): seq<Elem>
    requires HaveKeys(list)
  {
    if order == FH_ENUM_SORTED_ASC || order == FH_ENUM_SORTED_DESC then Qsort(list, order) else list
  }

  ghost predicate PairInOrder(list: seq<Elem>, order: int, x: int, y: int)
    requires HaveKeys(list)
  {
    0 <= x < y < |list| ==> Precedes(order, list[x], list[y])
  }

  /** Strictly in order. */
  ghost predicate Ordered(list: seq<Elem>, order: int)
    requires HaveKeys(list)
  {
    forall x, y :: PairInOrder(list, order, x, y)
  }

  lemma PrecedesTransitive(order: int, a: Elem, b: Elem, c: Elem)
    requires a.key.Some? && b.key.Some? && c.key.Some?
    requires Precedes(order, a, b) && Precedes(order, b, c)
    ensures Precedes(order, a, c)
  {
    if order == FH_ENUM_SORTED_ASC {
      LessTransitive(a.key.value, b.key.value, c.key.value);
    } else {
      LessTransitive(c.key.value, b.key.value, a.key.value);
    }
  }

  lemma OneOrTheOther(order: int, a: Elem, b: Elem)
    requires a.key.Some? && b.key.Some? && a.key != b.key
    ensures Precedes(order, a, b) || Precedes(order, b, a)
  {
    StrcmpEqual(a.key.value, b.key.value);
    StrcmpSwap(a.key.value, b.key.value);
  }

  /** Where e goes: everything before it precedes it, and it precedes everything behind it. */
  lemma {:induction false} PlacedAt(list: seq<Elem>, e: Elem, order: int) returns (i: nat)
    requires HaveKeys(list) && e.key.Some? && Ordered(list, order)
    requires forall x :: 0 <= x < |list| ==> list[x].key != e.key
    ensures i <= |list| && Placed(list, e, order) == list[..i] + [e] + list[i..]
    ensures forall x :: 0 <= x < i ==> Precedes(order, list[x], e)
    ensures forall x :: i <= x < |list| ==> Precedes(order, e, list[x])
  {
    if list == [] {
      i := 0;
    } else if Precedes(order, e, list[0]) {
      i := 0;
      forall x | 0 < x < |list| ensures Precedes(order, e, list[x]) {
        assert PairInOrder(list, order, 0, x);
        PrecedesTransitive(order, e, list[0], list[x]);
      }
    } else {
      OneOrTheOther(order, e, list[0]);
      forall x, y ensures PairInOrder(list[1..], order, x, y) { assert PairInOrder(list, order, x + 1, y + 1); }
      var j := PlacedAt(list[1..], e, order);
      i := j + 1;
      assert list[..i] == [list[0]] + list[1..][..j] && list[i..] == list[1..][j..];
    }
  }

  lemma PlacedOrdered(list: seq<Elem>, e: Elem, order: int, i: nat)
    requires HaveKeys(list) && e.key.Some? && Ordered(list, order) && i <= |list|
    requires forall x :: 0 <= x < i ==> Precedes(order, list[x], e)
    requires forall x :: i <= x < |list| ==> Precedes(order, e, list[x])
    ensures HaveKeys(list[..i] + [e] + list[i..]) && Ordered(list[..i] + [e] + list[i..], order)
  {
    var l' := list[..i] + [e] + list[i..];
    forall x, y ensures PairInOrder(l', order, x, y) {
      assert PairInOrder(list, order, if x < i then x else x - 1, if y < i then y else y - 1);
    }
  }

  lemma PlacedLists(list: seq<Elem>, m: map<Key, Ptr>, ks: set<Key>, key: Key, i: nat)
    requires Lists(list, m, ks) && key in m && key !in ks && i <= |list|
    ensures Lists(list[..i] + [Elem(Some(key), m[key])] + list[i..], m, ks + {key})
  {
    var l' := list[..i] + [Elem(Some(key), m[key])] + list[i..];
    forall x ensures ElemOk(l', m, ks + {key}, x) {
      assert ElemOk(list, m, ks, if x < i then x else x - 1);
    }
    forall x, y ensures Differ(l', x, y) {
      assert Differ(list, if x < i then x else x - 1, if y < i then y else y - 1);
      assert ElemOk(list, m, ks, x) && ElemOk(list, m, ks, y - 1);
    }
  }

  lemma ListsTail(list: seq<Elem>, m: map<Key, Ptr>, ks: set<Key>)
    requires Lists(list, m, ks) && list != []
    ensures list[0].key.Some? && list[0].key.value in ks && list[0].key.value in m
    ensures list[0] == Elem(Some(list[0].key.value), m[list[0].key.value])
    ensures Lists(list[1..], m, ks - {list[0].key.value})
  {
    assert ElemOk(list, m, ks, 0);
    var rest, ks' := list[1..], ks - {list[0].key.value};
    forall x ensures ElemOk(rest, m, ks', x) {
      assert ElemOk(list, m, ks, x + 1) && Differ(list, 0, x + 1);
    }
    forall x, y ensures Differ(rest, x, y) { assert Differ(list, x + 1, y + 1); }
  }

  /** A sorted enumeration lists the same bindings, each once, in strict order of their keys. */
  lemma {:induction false} QsortLists(list: seq<Elem>, m: map<Key, Ptr>, ks: set<Key>, order: int)
    requires Lists(list, m, ks) && HaveKeys(list)
    ensures Lists(Qsort(list, order), m, ks) && Ordered(Qsort(list, order), order)
    decreases |list|
  {
    if list != [] {
      ListsTail(list, m, ks);
      var key, rest := list[0].key.value, Qsort(list[1..], order);
      QsortLists(list[1..], m, ks - {key}, order);
      forall x | 0 <= x < |rest| ensures rest[x].key != list[0].key { assert ElemOk(rest, m, ks - {key}, x); }
      var i := PlacedAt(rest, list[0], order);
      PlacedOrdered(rest, list[0], order, i);
      PlacedLists(rest, m, ks - {key}, key, i);
      assert ks - {key} + {key} == ks;
    }
  }

  lemma ListsHaveKeys(list: seq<Elem>, m: map<Key, Ptr>, ks: set<Key>)
    requires Lists(list, m, ks)
    ensures HaveKeys(list)
  {
    forall x | 0 <= x < |list| ensures list[x].key.Some? { assert ElemOk(list, m, ks, x); }
  }
}
