/** Whole runs of the AVL library: the trees that calls can build, and how deep they get. */
module AvlRuns {
  import opened CTypes
  import opened SortedEntries
  import opened AvlTree

  datatype Call = Add(key: Key, data: Ptr) | Del(key: Key) | Find(key: Key)

  /** One call of avl_insert, avl_del or avl_search: the tree it leaves and the value it returns. */
  function Perform(t: Tree, c: Call): (Tree, Ptr)
  {
    match c
    case Add(key, data) => (Insert(t, key, data), 0)
    case Del(key) => Delete(t, key, NULL)
    case Find(key) => (t, Search(t, key))
  }

  function Run(t: Tree, calls: seq<Call>): (Tree, seq<Ptr>)
    decreases calls
  {
    if calls == [] then (t, [])
    else
      var (t', v) := Perform(t, calls[0]);
      var (t'', vs) := Run(t', calls[1..]);
      (t'', [v] + vs)
  }

  /** The same call on a plain map: an existing key keeps its payload, a missing one yields NULL. */
  function PerformOnMap(m: map<Key, Ptr>, c: Call): (map<Key, Ptr>, Ptr)
  {
    match c
    case Add(key, data) => (if key in m then m else m[key := data], 0)
    case Del(key) => (m - {key}, if key in m then m[key] else NULL)
    case Find(key) => (m, if key in m then m[key] else NULL)
  }

  function RunOnMap(m: map<Key, Ptr>, calls: seq<Call>): (map<Key, Ptr>, seq<Ptr>)
    decreases calls
  {
    if calls == [] then (m, [])
    else
      var (m', v) := PerformOnMap(m, calls[0]);
      var (m'', vs) := RunOnMap(m', calls[1..]);
      (m'', [v] + vs)
  }

  ghost function MapOf(t: Tree): map<Key, Ptr>
  {
    ToMap(InOrder(t))
  }

  lemma PerformRefinesMap(t: Tree, c: Call)
    requires Avl(t)
    ensures Avl(Perform(t, c).0)
    ensures MapOf(Perform(t, c).0) == PerformOnMap(MapOf(t), c).0
    ensures Perform(t, c).1 == PerformOnMap(MapOf(t), c).1
  {
    var s := InOrder(t);
    match c
    case Add(key, data) =>
      InsertCorrect(t, key, data);
      ToMapAdded(s, key, data);
    case Del(key) =>
      DeleteCorrect(t, key, NULL);
      ToMapRemoved(s, key);
      ToMapLookup(s, key, NULL);
    case Find(key) =>
      SearchCorrect(t, key);
      ToMapLookup(s, key, NULL);
  }

  /** Any run of calls on an AVL tree returns what the same calls return on a map, and ends in an AVL tree. */
  lemma {:induction false} RunRefinesMap(t: Tree, calls: seq<Call>)
    requires Avl(t)
    ensures Avl(Run(t, calls).0)
    ensures MapOf(Run(t, calls).0) == RunOnMap(MapOf(t), calls).0
    ensures Run(t, calls).1 == RunOnMap(MapOf(t), calls).1
    decreases calls
  {
    if calls != [] {
      PerformRefinesMap(t, calls[0]);
      RunRefinesMap(Perform(t, calls[0]).0, calls[1..]);
    }
  }

  // ---------- depth ----------

  function Fib(n: nat): nat
  {
    if n < 2 then n else Fib(n - 2) + Fib(n - 1)
  }

  function Pow2(n: nat): nat
  {
    if n == 0 then 1 else 2 * Pow2(n - 1)
  }

  lemma {:induction false} FibMonotone(m: nat, n: nat)
    requires m <= n
    ensures Fib(m) <= Fib(n)
  {
    if m < n {
      FibMonotone(m, n - 1);
      if n == 2 { assert Fib(2) == 1; }
    }
  }

  lemma {:induction false} FibDoubles(n: nat)
    ensures Fib(2 * n + 2) >= Pow2(n)
  {
    if n > 0 {
      FibDoubles(n - 1);
      FibMonotone(2 * n, 2 * n + 1);
    }
  }

  /** A balanced tree of height h holds at least Fib(h + 2) - 1 keys. */
  lemma {:induction false} BalancedIsFull(t: Tree)
    requires Balanced(t)
    ensures Height(t) >= 0 && |InOrder(t)| >= Fib(Height(t) + 2) - 1
  {
    HeightSign(t);
    if t.Node? {
      BalancedIsFull(t.left);
      BalancedIsFull(t.right);
      var h := Height(t);
      assert Height(t.left) == h - 1 || Height(t.right) == h - 1;
      FibMonotone(h, Height(t.left) + 2);
      FibMonotone(h, Height(t.right) + 2);
    }
  }

  /** How many calls of the recursive function behind c are active at once. */
  function Depth(t: Tree, c: Call): nat
  {
    match c
    case Add(key, _) => InsertDepth(t, key)
    case Del(key) => DeleteDepth(t, key)
    case Find(key) => SearchDepth(t, key)
  }

  lemma {:induction false} SearchDepthBounded(t: Tree, key: Key)
    requires Balanced(t)
    ensures 1 <= SearchDepth(t, key) <= Height(t) + 1
  {
    HeightSign(t);
    if t.Node? {
      SearchDepthBounded(t.left, key);
      SearchDepthBounded(t.right, key);
    }
  }

  lemma {:induction false} InsertDepthBounded(t: Tree, key: Key)
    requires Balanced(t)
    ensures 1 <= InsertDepth(t, key) <= Height(t) + 1
  {
    HeightSign(t);
    if t.Node? {
      InsertDepthBounded(t.left, key);
      InsertDepthBounded(t.right, key);
    }
  }

  lemma {:induction false} DeleteDepthBounded(t: Tree, key: Key)
    requires Balanced(t)
    ensures 1 <= DeleteDepth(t, key) <= Height(t) + 1
  {
    HeightSign(t);
    if t.Node? {
      DeleteDepthBounded(t.left, key);
      DeleteDepthBounded(t.right, key);
      if t.right.Node? {
        DeleteDepthBounded(t.right, Min(t.right).key);
      }
    }
  }

  lemma DepthBounded(t: Tree, c: Call)
    requires Balanced(t)
    ensures 1 <= Depth(t, c) <= Height(t) + 1
  {
    match c
    case Add(key, _) => InsertDepthBounded(t, key);
    case Del(key) => DeleteDepthBounded(t, key);
    case Find(key) => SearchDepthBounded(t, key);
  }

  lemma {:induction false} SizeOfMap(s: Entries)
    requires Sorted(s)
    ensures |ToMap(s)| == |s|
  {
    if s != [] {
      LessTotalOrder();
      SizeOfMap(s[1..]);
      ToMapKeys(s[1..], s[0].0);
      var m := ToMap(s[1..]);
      assert m[s[0].0 := s[0].1].Keys == m.Keys + {s[0].0};
      assert |m.Keys| == |m|;
    }
  }

  /** Fibonacci numbers of two steps back bound powers of two. */
  lemma FibAtLeast(n: nat, h: nat)
    requires n <= h
    ensures Fib(h + 2) >= Fib(n + 2) >= Pow2(n / 2)
  {
    FibMonotone(n + 2, h + 2);
    FibDoubles(n / 2);
    FibMonotone(2 * (n / 2) + 2, n + 2);
  }

  lemma KeysOfHeight(t: Tree)
    requires Avl(t)
    ensures Height(t) >= 0 && |MapOf(t)| >= Fib(Height(t) + 2) - 1
  {
    BalancedIsFull(t);
    SizeOfMap(InOrder(t));
  }

  /**
   In every tree that calls can build from the empty one, the next call, whatever it is, recurses to a
   depth logarithmic in the number of keys: with depth d there are at least 2^((d - 1) / 2) - 1 keys.
   */
  lemma RecursionIsLogarithmic(calls: seq<Call>, c: Call)
    ensures var t := Run(Leaf, calls).0;
            && Depth(t, c) >= 1
            && |MapOf(t)| >= Fib(Depth(t, c) + 1) - 1
            && |MapOf(t)| >= Pow2((Depth(t, c) - 1) / 2) - 1
  {
    var t := Run(Leaf, calls).0;
    RunRefinesMap(Leaf, calls);
    DepthBounded(t, c);
    KeysOfHeight(t);
    FibAtLeast(Depth(t, c) - 1, Height(t));
  }
}
