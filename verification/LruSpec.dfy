/**
 The LRU cache as its caller sees it: a sequence of bindings, most recently used first. lru_add makes
 room before it looks for a duplicate, and everything below depends on that order.
 */
module LruSpec {
  import opened CTypes

  type Entry = (Key, Ptr)
  type Cache = seq<Entry>

  const LRU_OK := 1
  const LRU_ELEMENT_NOT_FOUND := -2000
  const LRU_DUPLICATED_ELEMENT := -3000
  const LRU_NO_MEMORY := -4000

  ghost function Keys(v: Cache): seq<Key>
  {
    seq(|v|, i requires 0 <= i < |v| => v[i].0)
  }

  ghost predicate DistinctKeys(v: Cache)
  {
    forall i, j :: 0 <= i < j < |v| ==> v[i].0 != v[j].0
  }

  /** A cache that lru_create(dim) and later calls can be in. */
  ghost predicate ValidCache(dim: nat, v: Cache)
  {
    0 < dim && |v| <= dim && DistinctKeys(v)
  }

  /** Where key is, or |v|. */
  ghost function Find(v: Cache, key: Key): (i: nat)
    ensures i <= |v|
    ensures i < |v| ==> v[i].0 == key
    ensures forall j :: 0 <= j < i ==> v[j].0 != key
  {
    if v == [] then 0 else if v[0].0 == key then 0 else 1 + Find(v[1..], key)
  }

  ghost predicate Has(v: Cache, key: Key)
  {
    Find(v, key) < |v|
  }

  ghost function ToFront(v: Cache, i: nat): Cache
    requires i < |v|
  {
    [v[i]] + v[..i] + v[i + 1..]
  }

  /** lru_check: a hit moves to the front and yields its payload. */
  ghost function Check(v: Cache, key: Key): (Cache, int, Option<Ptr>)
  {
    if Has(v, key) then (ToFront(v, Find(v, key)), LRU_OK, Some(v[Find(v, key)].1))
    else (v, LRU_ELEMENT_NOT_FOUND, None)
  }

  /** The room lru_add makes: a full cache loses its last entry, before anything is looked up. */
  ghost function MakeRoom(dim: nat, v: Cache): Cache
  {
    if |v| == dim && dim > 0 then v[..dim - 1] else v
  }

  /** lru_add. */
  ghost function Add(dim: nat, v: Cache, key: Key, payload: Ptr): (Cache, int)
  {
    var w := MakeRoom(dim, v);
    if Has(w, key) then (w, LRU_DUPLICATED_ELEMENT) else ([(key, payload)] + w, LRU_OK)
  }

  lemma FindUnique(v: Cache, i: nat)
    requires DistinctKeys(v) && i < |v|
    ensures Find(v, v[i].0) == i
  {
  }

  lemma CheckValid(dim: nat, v: Cache, key: Key)
    requires ValidCache(dim, v)
    ensures ValidCache(dim, Check(v, key).0)
    ensures |Check(v, key).0| == |v|
  {
  }

  lemma AddValid(dim: nat, v: Cache, key: Key, payload: Ptr)
    requires ValidCache(dim, v)
    ensures ValidCache(dim, Add(dim, v, key, payload).0)
  {
    var w := MakeRoom(dim, v);
    assert DistinctKeys(w);
  }

  /**
   Adding a key that is in the cache is not harmless: the cache is left as it was exactly when it
   was not full. A full one loses its last entry; if that entry is the key itself, the key comes
   back at the front with the new payload.
   */
  lemma AddOfPresentKey(dim: nat, v: Cache, key: Key, payload: Ptr)
    requires ValidCache(dim, v) && Has(v, key)
    ensures Add(dim, v, key, payload).0 == v <==> (|v| < dim || (dim == 1 && v == [(key, payload)]))
    ensures Add(dim, v, key, payload).1 == LRU_DUPLICATED_ELEMENT <==> (|v| < dim || v[dim - 1].0 != key)
  {
    var i := Find(v, key);
    if |v| == dim {
      var w := v[..dim - 1];
      if i == dim - 1 {
        assert !Has(w, key);
      } else {
        FindUnique(w, i);
        assert w[i].0 == key;
      }
    }
  }

  // ---------- runs of the documented use: check, and add what is missing ----------

  /** One request: lru_check, and lru_add of what load provides when the key is not there. */
  ghost function Request(dim: nat, v: Cache, key: Key, load: Key -> Ptr): Cache
  {
    if Has(v, key) then Check(v, key).0 else Add(dim, v, key, load(key)).0
  }

  ghost function Requests(dim: nat, keys: seq<Key>, load: Key -> Ptr): Cache
  {
    if keys == [] then []
    else Request(dim, Requests(dim, keys[..|keys| - 1], load), keys[|keys| - 1], load)
  }

  /** A request to a cache of unlimited size. */
  ghost function Touch(r: Cache, key: Key, load: Key -> Ptr): Cache
  {
    if Has(r, key) then ToFront(r, Find(r, key)) else [(key, load(key))] + r
  }

  /** Every key ever requested, latest first: what a cache of unlimited size would hold. */
  ghost function History(keys: seq<Key>, load: Key -> Ptr): Cache
  {
    if keys == [] then [] else Touch(History(keys[..|keys| - 1], load), keys[|keys| - 1], load)
  }

  ghost function Take(v: Cache, n: nat): Cache
  {
    if |v| <= n then v else v[..n]
  }

  /** The position of the last request for key, or -1. */
  ghost function LastUse(keys: seq<Key>, key: Key): int
  {
    if keys == [] then -1
    else if keys[|keys| - 1] == key then |keys| - 1
    else LastUse(keys[..|keys| - 1], key)
  }

  ghost predicate Loaded(v: Cache, load: Key -> Ptr)
  {
    forall i :: 0 <= i < |v| ==> v[i].1 == load(v[i].0)
  }

  /** Where the entries of the touched cache come from. */
  lemma TouchAt(r: Cache, key: Key, load: Key -> Ptr, j: nat)
    requires j < |Touch(r, key, load)|
    ensures j == 0 ==> Touch(r, key, load)[j].0 == key
    ensures j > 0 && Has(r, key) ==>
              Touch(r, key, load)[j] == r[if j <= Find(r, key) then j - 1 else j]
    ensures j > 0 && !Has(r, key) ==> Touch(r, key, load)[j] == r[j - 1]
  {
  }

  lemma TouchValid(r: Cache, key: Key, load: Key -> Ptr)
    requires DistinctKeys(r) && Loaded(r, load)
    ensures DistinctKeys(Touch(r, key, load)) && Loaded(Touch(r, key, load), load)
  {
    var t := Touch(r, key, load);
    forall j | 0 <= j < |t| ensures t[j].1 == load(t[j].0) {
      TouchAt(r, key, load, j);
    }
    forall i, j | 0 <= i < j < |t| ensures t[i].0 != t[j].0 {
      TouchAt(r, key, load, i);
      TouchAt(r, key, load, j);
    }
  }

  lemma {:induction false} HistoryValid(keys: seq<Key>, load: Key -> Ptr)
    ensures DistinctKeys(History(keys, load)) && Loaded(History(keys, load), load)
  {
    if keys != [] {
      HistoryValid(keys[..|keys| - 1], load);
      TouchValid(History(keys[..|keys| - 1], load), keys[|keys| - 1], load);
    }
  }

  /** A lookup in the first n entries finds what a lookup in all of them finds, if it is among them. */
  lemma FindInTake(v: Cache, n: nat, key: Key)
    requires DistinctKeys(v)
    ensures Has(Take(v, n), key) <==> Find(v, key) < n && Has(v, key)
    ensures Has(Take(v, n), key) ==> Find(Take(v, n), key) == Find(v, key)
  {
    var i := Find(v, key);
    if i < |v| && i < n {
      assert Take(v, n)[i].0 == key;
    }
  }

  /**
   After any sequence of requests a cache of dim entries holds, in order, the dim keys requested
   most recently, each with the payload loaded for it.
   */
  lemma {:induction false} RequestsTakeHistory(dim: nat, keys: seq<Key>, load: Key -> Ptr)
    requires dim > 0
    ensures Requests(dim, keys, load) == Take(History(keys, load), dim)
  {
    if keys != [] {
      var before, key := keys[..|keys| - 1], keys[|keys| - 1];
      RequestsTakeHistory(dim, before, load);
      HistoryValid(before, load);
      TakeStep(dim, History(before, load), key, load);
    }
  }

  lemma FrontOfTake(r: Cache, n: nat, i: nat)
    requires i < |r| && i < n
    ensures ToFront(Take(r, n), i) == Take(ToFront(r, i), n)
  {
    var a, b := ToFront(Take(r, n), i), Take(ToFront(r, i), n);
    assert |a| == |b|;
    forall x | 0 <= x < |a| ensures a[x] == b[x] {
      assert a[x] == Take(r, n)[if x == 0 then i else if x <= i then x - 1 else x];
    }
  }

  /** What is moved to the front from beyond the room pushes the last one out. */
  lemma FrontFromBeyond(r: Cache, n: nat, i: nat)
    requires 0 < n <= i < |r|
    ensures [r[i]] + Take(r, n - 1) == Take(ToFront(r, i), n)
  {
    var a, b := [r[i]] + Take(r, n - 1), Take(ToFront(r, i), n);
    assert |a| == |b| == n;
    forall x | 0 <= x < |a| ensures a[x] == b[x] {
      assert b[x] == ToFront(r, i)[x];
    }
  }

  lemma NewInFront(r: Cache, n: nat, e: Entry)
    requires n > 0
    ensures [e] + Take(r, n - 1) == Take([e] + r, n)
  {
  }

  lemma RoomIsTake(dim: nat, r: Cache)
    requires dim > 0
    ensures MakeRoom(dim, Take(r, dim)) == Take(r, dim - 1)
  {
  }

  lemma TakeStep(dim: nat, r: Cache, key: Key, load: Key -> Ptr)
    requires dim > 0 && DistinctKeys(r) && Loaded(r, load)
    ensures Request(dim, Take(r, dim), key, load) == Take(Touch(r, key, load), dim)
  {
    var v, i := Take(r, dim), Find(r, key);
    FindInTake(r, dim, key);
    if Has(v, key) {
      FrontOfTake(r, dim, i);
    } else {
      TakeMissed(dim, r, key, load);
    }
  }

  lemma TakeMissed(dim: nat, r: Cache, key: Key, load: Key -> Ptr)
    requires dim > 0 && DistinctKeys(r) && Loaded(r, load) && !Has(Take(r, dim), key)
    ensures Request(dim, Take(r, dim), key, load) == Take(Touch(r, key, load), dim)
  {
    RoomIsTake(dim, r);
    FindInTake(r, dim, key);
    FindInTake(r, dim - 1, key);
    var i := Find(r, key);
    if Has(r, key) {
      assert r[i] == (key, load(key));
      FrontFromBeyond(r, dim, i);
    } else {
      NewInFront(r, dim, (key, load(key)));
    }
  }

  /** A smaller cache given the same requests holds a prefix of what a larger one holds. */
  lemma SmallerIsPrefix(small: nat, large: nat, keys: seq<Key>, load: Key -> Ptr)
    requires 0 < small <= large
    ensures Requests(small, keys, load) == Take(Requests(large, keys, load), small)
  {
    RequestsTakeHistory(small, keys, load);
    RequestsTakeHistory(large, keys, load);
  }

  /** The history is sorted by last use. */
  lemma {:induction false} HistorySorted(keys: seq<Key>, load: Key -> Ptr, i: nat, j: nat)
    requires i < j < |History(keys, load)|
    ensures LastUse(keys, History(keys, load)[i].0) > LastUse(keys, History(keys, load)[j].0) >= 0
    decreases |keys|
  {
    var before, key := keys[..|keys| - 1], keys[|keys| - 1];
    var r := History(before, load);
    var at := Find(r, key);
    TouchAt(r, key, load, 0);
    TouchAt(r, key, load, i);
    TouchAt(r, key, load, j);
    HistoryValid(keys, load);
    var i', j' := if i <= at then i - 1 else i, if j <= at then j - 1 else j;
    LastUseInRange(before, History(keys, load)[j].0);
    if i > 0 {
      HistorySorted(before, load, i', j');
    } else {
      HistoryUsed(before, load, j');
    }
  }

  lemma {:induction false} LastUseInRange(keys: seq<Key>, key: Key)
    ensures -1 <= LastUse(keys, key) < |keys|
  {
    if keys != [] {
      LastUseInRange(keys[..|keys| - 1], key);
    }
  }

  lemma {:induction false} HistoryUsed(keys: seq<Key>, load: Key -> Ptr, j: nat)
    requires j < |History(keys, load)|
    ensures LastUse(keys, History(keys, load)[j].0) >= 0
  {
    var before, key := keys[..|keys| - 1], keys[|keys| - 1];
    var r := History(before, load);
    TouchAt(r, key, load, j);
    if j > 0 {
      HistoryUsed(before, load, if j <= Find(r, key) then j - 1 else j);
    }
  }

  /** The history has every key that was requested. */
  lemma {:induction false} HistoryComplete(keys: seq<Key>, load: Key -> Ptr, key: Key)
    requires LastUse(keys, key) >= 0
    ensures Has(History(keys, load), key)
  {
    var before, last := keys[..|keys| - 1], keys[|keys| - 1];
    var r, t := History(before, load), History(keys, load);
    TouchAt(r, last, load, 0);
    if last != key {
      HistoryComplete(before, load, key);
      var j, at := Find(r, key), Find(r, last);
      assert t[if j < at then j + 1 else j] == r[j];
    }
  }

  /** Least recently used goes first: every key in the cache was used after every key that is not. */
  lemma CachedAreMostRecent(dim: nat, keys: seq<Key>, load: Key -> Ptr, cached: Key, other: Key)
    requires dim > 0
    requires Has(Requests(dim, keys, load), cached) && !Has(Requests(dim, keys, load), other)
    ensures LastUse(keys, cached) > LastUse(keys, other)
  {
    var r := History(keys, load);
    RequestsTakeHistory(dim, keys, load);
    HistoryValid(keys, load);
    FindInTake(r, dim, cached);
    FindInTake(r, dim, other);
    if LastUse(keys, other) >= 0 {
      HistoryComplete(keys, load, other);
      HistorySorted(keys, load, Find(r, cached), Find(r, other));
    } else {
      HistoryUsed(keys, load, Find(r, cached));
    }
  }
}
