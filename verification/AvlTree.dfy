/**
 The logical trees behind libavl: what the rotations, the insertion and the deletion do to a tree
 of keys, payloads and stored heights, and what that means for the map the tree stands for.
 */
module AvlTree {
  import opened CTypes
  import opened SortedEntries

  datatype Tree =
    | Leaf
    | Node(left: Tree, key: Key, data: Ptr, height: int, right: Tree)

  // ---------- the operations of avl_internal.c ----------

  function Height(t: Tree): int
  {
    if t.Leaf? then 0 else t.height
  }

  function Balance(t: Tree): int
  {
    if t.Leaf? then 0 else Height(t.left) - Height(t.right)
  }

  /** A node over two subtrees whose stored height has just been updated. */
  function Join(left: Tree, key: Key, data: Ptr, right: Tree): Tree
  {
    Node(left, key, data, 1 + (if Height(left) > Height(right) then Height(left) else Height(right)), right)
  }

  function RotateRight(y: Tree): Tree
  {
    if y.Node? && y.left.Node? then
      var x := y.left;
      Join(x.left, x.key, x.data, Join(x.right, y.key, y.data, y.right))
    else y
  }

  function RotateLeft(x: Tree): Tree
  {
    if x.Node? && x.right.Node? then
      var y := x.right;
      Join(Join(x.left, x.key, x.data, y.left), y.key, y.data, y.right)
    else x
  }

  // ---------- insertion ----------

  /** The four rotation cases after an insertion, told apart by where the new key went. */
  function RebalanceInserted(n: Tree, key: Key): Tree
    requires n.Node?
  {
    if Balance(n) > 1 && n.left.Node? && Strcmp(key, n.left.key) < 0 then RotateRight(n)
    else if Balance(n) < -1 && n.right.Node? && Strcmp(key, n.right.key) > 0 then RotateLeft(n)
    else if Balance(n) > 1 && n.left.Node? && Strcmp(key, n.left.key) > 0 then
      RotateRight(n.(left := RotateLeft(n.left)))
    else if Balance(n) < -1 && n.right.Node? && Strcmp(key, n.right.key) < 0 then
      RotateLeft(n.(right := RotateRight(n.right)))
    else n
  }

  function Insert(t: Tree, key: Key, data: Ptr): Tree
  {
    if t.Leaf? then Node(Leaf, key, data, 1, Leaf)
    else if Strcmp(key, t.key) < 0 then
      RebalanceInserted(Join(Insert(t.left, key, data), t.key, t.data, t.right), key)
    else if Strcmp(key, t.key) > 0 then
      RebalanceInserted(Join(t.left, t.key, t.data, Insert(t.right, key, data)), key)
    else t
  }

  /** How many calls of avl_insert_node are active at once, the one that makes the new node included. */
  function InsertDepth(t: Tree, key: Key): nat
  {
    if t.Leaf? then 1
    else if Strcmp(key, t.key) < 0 then 1 + InsertDepth(t.left, key)
    else if Strcmp(key, t.key) > 0 then 1 + InsertDepth(t.right, key)
    else 1
  }

  // ---------- search ----------

  function Search(t: Tree, key: Key): Ptr
  {
    if t.Leaf? then NULL
    else if Strcmp(key, t.key) == 0 then t.data
    else if Strcmp(key, t.key) < 0 then Search(t.left, key)
    else Search(t.right, key)
  }

  /** How many calls of avl_search_node are active at once, one on NULL included. */
  function SearchDepth(t: Tree, key: Key): nat
  {
    if t.Leaf? || Strcmp(key, t.key) == 0 then 1
    else 1 + SearchDepth(if Strcmp(key, t.key) < 0 then t.left else t.right, key)
  }

  // ---------- deletion ----------

  /** The node with the smallest key. */
  function Min(t: Tree): Tree
    requires t.Node?
    ensures Min(t).Node?
  {
    if t.left.Leaf? then t else Min(t.left)
  }

  /** The four rotation cases after a deletion, told apart by the heavy child's own balance. */
  function RebalanceDeleted(n: Tree): Tree
    requires n.Node?
  {
    if Balance(n) > 1 && Balance(n.left) >= 0 then RotateRight(n)
    else if Balance(n) > 1 && Balance(n.left) < 0 then RotateRight(n.(left := RotateLeft(n.left)))
    else if Balance(n) < -1 && Balance(n.right) <= 0 then RotateLeft(n)
    else if Balance(n) < -1 && Balance(n.right) > 0 then RotateLeft(n.(right := RotateRight(n.right)))
    else n
  }

  /** The tree without key, and what *data holds afterwards when it held out before. */
  function Delete(t: Tree, key: Key, out: Ptr): (Tree, Ptr)
  {
    if t.Leaf? then (t, out)
    else if Strcmp(key, t.key) < 0 then
      var (l, o) := Delete(t.left, key, out);
      (RebalanceDeleted(Join(l, t.key, t.data, t.right)), o)
    else if Strcmp(key, t.key) > 0 then
      var (r, o) := Delete(t.right, key, out);
      (RebalanceDeleted(Join(t.left, t.key, t.data, r)), o)
    else if t.left.Leaf? && t.right.Leaf? then (Leaf, t.data)
    else if t.left.Leaf? || t.right.Leaf? then
      var child := if t.left.Node? then t.left else t.right;
      (RebalanceDeleted(Join(child.left, child.key, child.data, child.right)), t.data)
    else
      var next := Min(t.right);
      var (r, _) := Delete(t.right, next.key, next.data);
      (RebalanceDeleted(Join(t.left, next.key, next.data, r)), t.data)
  }

  /** How many calls of avl_delete_node are active at once; one more at a node that takes over its successor's binding. */
  function DeleteDepth(t: Tree, key: Key): nat
  {
    if t.Leaf? then 1
    else if Strcmp(key, t.key) < 0 then 1 + DeleteDepth(t.left, key)
    else if Strcmp(key, t.key) > 0 then 1 + DeleteDepth(t.right, key)
    else if t.left.Leaf? || t.right.Leaf? then 1
    else 1 + DeleteDepth(t.right, Min(t.right).key)
  }

  // ---------- what a tree stands for ----------

  ghost function InOrder(t: Tree): Entries
  {
    if t.Leaf? then [] else InOrder(t.left) + [(t.key, t.data)] + InOrder(t.right)
  }

  ghost predicate Ordered(t: Tree)
  {
    Sorted(InOrder(t))
  }

  /** Every stored height is the true height, and siblings' heights differ by at most one. */
  ghost predicate Balanced(t: Tree)
  {
    t.Node? ==>
      && Balanced(t.left) && Balanced(t.right)
      && t == Join(t.left, t.key, t.data, t.right)
      && -1 <= Balance(t) <= 1
  }

  ghost predicate Avl(t: Tree)
  {
    Ordered(t) && Balanced(t)
  }

  lemma {:induction false} HeightSign(t: Tree)
    requires Balanced(t)
    ensures Height(t) >= 0 && (Height(t) == 0 <==> t.Leaf?)
  {
    if t.Node? {
      HeightSign(t.left);
      HeightSign(t.right);
    }
  }

  // ---------- rotations ----------

  /** A node whose subtrees are sound, with heights at most two apart. */
  ghost predicate Skewed(n: Tree)
  {
    && n.Node?
    && Balanced(n.left) && Balanced(n.right)
    && n == Join(n.left, n.key, n.data, n.right)
    && -2 <= Balance(n) <= 2
  }

  /** What rebalancing n into r must achieve: same entries in the same order, and balance. */
  ghost predicate Repaired(n: Tree, r: Tree)
  {
    && Balanced(r) && r.Node? && InOrder(r) == InOrder(n)
    && Height(n) - 1 <= Height(r) <= Height(n)
    && (-1 <= Balance(n) <= 1 ==> r == n)
  }

  lemma RotateRightKeeps(y: Tree)
    ensures InOrder(RotateRight(y)) == InOrder(y)
  {
  }

  lemma RotateLeftKeeps(x: Tree)
    ensures InOrder(RotateLeft(x)) == InOrder(x)
  {
  }

  lemma RepairRight(n: Tree)
    requires Skewed(n) && Balance(n) == 2 && Balance(n.left) >= 0
    ensures n.left.Node?
    ensures Repaired(n, RotateRight(n))
    ensures Balance(n.left) == 1 ==> Height(RotateRight(n)) == Height(n) - 1
  {
    HeightSign(n.right);
    HeightSign(n.left.right);
    RotateRightKeeps(n);
  }

  lemma RepairLeft(n: Tree)
    requires Skewed(n) && Balance(n) == -2 && Balance(n.right) <= 0
    ensures n.right.Node?
    ensures Repaired(n, RotateLeft(n))
    ensures Balance(n.right) == -1 ==> Height(RotateLeft(n)) == Height(n) - 1
  {
    HeightSign(n.left);
    HeightSign(n.right.left);
    RotateLeftKeeps(n);
  }

  lemma RepairLeftRight(n: Tree)
    requires Skewed(n) && Balance(n) == 2 && Balance(n.left) < 0
    ensures n.left.Node? && n.left.right.Node?
    ensures var r := RotateRight(n.(left := RotateLeft(n.left)));
            Repaired(n, r) && Height(r) == Height(n) - 1
  {
    HeightSign(n.right);
    HeightSign(n.left.left);
    HeightSign(n.left.right);
    RotateLeftKeeps(n.left);
    RotateRightKeeps(n.(left := RotateLeft(n.left)));
  }

  lemma RepairRightLeft(n: Tree)
    requires Skewed(n) && Balance(n) == -2 && Balance(n.right) > 0
    ensures n.right.Node? && n.right.left.Node?
    ensures var r := RotateLeft(n.(right := RotateRight(n.right)));
            Repaired(n, r) && Height(r) == Height(n) - 1
  {
    HeightSign(n.left);
    HeightSign(n.right.left);
    HeightSign(n.right.right);
    RotateRightKeeps(n.right);
    RotateLeftKeeps(n.(right := RotateRight(n.right)));
  }

  // ---------- insertion ----------

  /** The shape an insertion of key into t may leave: which side grew, if the tree did. */
  ghost predicate Grown(t: Tree, key: Key, r: Tree)
  {
    && r.Node? && Balanced(r)
    && Height(t) <= Height(r) <= Height(t) + 1
    && (t.Leaf? ==> r.left.Leaf? && r.right.Leaf?)
    && (t.Node? && Height(r) == Height(t) + 1 ==>
          if Less(key, r.key) then Balance(r) == 1 else Less(r.key, key) && Balance(r) == -1)
  }

  /** The pointers that the rotations chosen for n follow are not NULL. */
  ghost predicate CanRotate(n: Tree)
    requires n.Node?
  {
    && (Balance(n) > 1 ==> n.left.Node? && (Balance(n.left) < 0 ==> n.left.right.Node?))
    && (Balance(n) < -1 ==> n.right.Node? && (Balance(n.right) > 0 ==> n.right.left.Node?))
  }

  /** The child's heavy side is the side key belongs on. */
  ghost predicate LeansTowards(n: Tree, key: Key)
    requires n.Node?
  {
    && (Balance(n) > 0 <==> Strcmp(key, n.key) < 0)
    && (Balance(n) < 0 <==> Strcmp(key, n.key) > 0)
  }

  /** The side the key went to agrees with the side that is too high, at both levels. */
  ghost predicate KeyTellsSide(n: Tree, key: Key)
    requires n.Node?
  {
    && (Balance(n) > 1 ==> n.left.Node? && LeansTowards(n.left, key))
    && (Balance(n) < -1 ==> n.right.Node? && LeansTowards(n.right, key))
  }

  lemma SkewedCanRotate(n: Tree)
    requires Skewed(n)
    ensures CanRotate(n)
  {
    HeightSign(n.left);
    HeightSign(n.right);
    if Balance(n) > 1 {
      HeightSign(n.left.left);
      HeightSign(n.left.right);
    }
    if Balance(n) < -1 {
      HeightSign(n.right.left);
      HeightSign(n.right.right);
    }
  }

  /** The key comparison always picks the rotation that the heavy grandchild needs. */
  lemma RebalanceInsertedRepairs(t: Tree, n: Tree, key: Key)
    requires t.Node? && Balanced(t) && n.Node?
    requires
      || (Less(key, t.key) && n == Join(n.left, t.key, t.data, t.right) && Grown(t.left, key, n.left))
      || (Less(t.key, key) && n == Join(t.left, t.key, t.data, n.right) && Grown(t.right, key, n.right))
    ensures Skewed(n) && KeyTellsSide(n, key) && Repaired(n, RebalanceInserted(n, key))
    ensures Grown(t, key, RebalanceInserted(n, key))
  {
    StrcmpSwap(key, t.key);
    HeightSign(t.left);
    HeightSign(t.right);
    if Balance(n) == 2 {
      StrcmpSwap(key, n.left.key);
      if Balance(n.left) == 1 {
        RepairRight(n);
      } else {
        RepairLeftRight(n);
      }
    } else if Balance(n) == -2 {
      StrcmpSwap(key, n.right.key);
      if Balance(n.right) == 1 {
        RepairRightLeft(n);
      } else {
        RepairLeft(n);
      }
    }
  }

  /** avl_insert_node: the entries gain exactly the new binding; heights and balance are kept. */
  lemma {:induction false} InsertCorrect(t: Tree, key: Key, data: Ptr)
    requires Avl(t)
    ensures Avl(Insert(t, key, data)) && Grown(t, key, Insert(t, key, data))
    ensures InOrder(Insert(t, key, data)) == Added(InOrder(t), key, data)
  {
    AddedSorted(InOrder(t), key, data);
    if t.Node? {
      var a, x, b := InOrder(t.left), (t.key, t.data), InOrder(t.right);
      SortedSplit(a, x, b);
      StrcmpSwap(key, t.key);
      StrcmpEqual(key, t.key);
      if Less(key, t.key) {
        InsertCorrect(t.left, key, data);
        AddedLeft(a, x, b, key, data);
        RebalanceInsertedRepairs(t, Join(Insert(t.left, key, data), t.key, t.data, t.right), key);
      } else if Less(t.key, key) {
        InsertCorrect(t.right, key, data);
        BelowTransitive(a, t.key, key);
        AddedRight(a, x, b, key, data);
        RebalanceInsertedRepairs(t, Join(t.left, t.key, t.data, Insert(t.right, key, data)), key);
      } else {
        AddedHere(a, x, b, data);
      }
    }
  }

  /** What an insertion finds at each node it passes on the way back up. */
  lemma InsertSteps(t: Tree, key: Key, data: Ptr)
    requires t.Node? && Avl(t)
    ensures Avl(t.left) && Avl(t.right)
    ensures Strcmp(key, t.key) < 0 ==>
              var n := Join(Insert(t.left, key, data), t.key, t.data, t.right);
              CanRotate(n) && KeyTellsSide(n, key)
    ensures Strcmp(key, t.key) > 0 ==>
              var n := Join(t.left, t.key, t.data, Insert(t.right, key, data));
              CanRotate(n) && KeyTellsSide(n, key)
  {
    SortedSplit(InOrder(t.left), (t.key, t.data), InOrder(t.right));
    StrcmpSwap(key, t.key);
    if Strcmp(key, t.key) < 0 {
      InsertCorrect(t.left, key, data);
      var n := Join(Insert(t.left, key, data), t.key, t.data, t.right);
      RebalanceInsertedRepairs(t, n, key);
      SkewedCanRotate(n);
    } else if Strcmp(key, t.key) > 0 {
      InsertCorrect(t.right, key, data);
      var n := Join(t.left, t.key, t.data, Insert(t.right, key, data));
      RebalanceInsertedRepairs(t, n, key);
      SkewedCanRotate(n);
    }
  }

  // ---------- search ----------

  lemma {:induction false} SearchCorrect(t: Tree, key: Key)
    requires Ordered(t)
    ensures Search(t, key) == Lookup(InOrder(t), key, NULL)
  {
    if t.Node? {
      var a, x, b := InOrder(t.left), (t.key, t.data), InOrder(t.right);
      SortedSplit(a, x, b);
      StrcmpSwap(key, t.key);
      StrcmpEqual(key, t.key);
      if Less(key, t.key) {
        EntriesLeft(a, x, b, key, NULL);
        SearchCorrect(t.left, key);
      } else if Less(t.key, key) {
        EntriesRight(a, x, b, key, NULL);
        SearchCorrect(t.right, key);
      } else {
        EntriesHere(a, x, b, NULL);
      }
    }
  }

  // ---------- deletion ----------

  /** The shape a deletion from t may leave. */
  ghost predicate Shrunk(t: Tree, r: Tree)
  {
    Balanced(r) && Height(t) - 1 <= Height(r) <= Height(t)
  }

  /** The heavy child's own balance picks a rotation that repairs the node. */
  lemma RebalanceDeletedRepairs(n: Tree)
    requires Skewed(n)
    ensures Repaired(n, RebalanceDeleted(n))
  {
    if Balance(n) == 2 {
      if Balance(n.left) >= 0 { RepairRight(n); } else { RepairLeftRight(n); }
    } else if Balance(n) == -2 {
      if Balance(n.right) <= 0 { RepairLeft(n); } else { RepairRightLeft(n); }
    }
  }

  lemma {:induction false} MinIsFirst(t: Tree)
    requires t.Node?
    ensures InOrder(t) != [] && InOrder(t)[0] == (Min(t).key, Min(t).data)
  {
    if t.left.Node? {
      MinIsFirst(t.left);
    }
  }

  /** A node with at most one child: what is left after the child, if any, has been copied over it. */
  lemma DeleteOnlyChild(t: Tree)
    requires t.Node? && Balanced(t) && (t.left.Leaf? || t.right.Leaf?)
    ensures t.left.Node? ==> t.left.left.Leaf? && t.left.right.Leaf?
    ensures t.right.Node? ==> t.right.left.Leaf? && t.right.right.Leaf?
    ensures InOrder(t.left) + InOrder(t.right) == InOrder(if t.left.Node? then t.left else t.right)
  {
    HeightSign(t.left);
    HeightSign(t.right);
    if t.left.Node? {
      HeightSign(t.left.left);
      HeightSign(t.left.right);
    }
    if t.right.Node? {
      HeightSign(t.right.left);
      HeightSign(t.right.right);
    }
  }

  lemma RebalanceDeletedKeeps(n: Tree)
    requires n.Node?
    ensures InOrder(RebalanceDeleted(n)) == InOrder(n)
  {
    RotateRightKeeps(n);
    RotateLeftKeeps(n);
    RotateRightKeeps(n.(left := RotateLeft(n.left)));
    RotateLeftKeeps(n.(right := RotateRight(n.right)));
    RotateLeftKeeps(n.left);
    RotateRightKeeps(n.right);
  }

  /** avl_delete_node keeps exact heights and balance and lowers the tree by at most one. */
  lemma {:induction false} DeleteBalanced(t: Tree, key: Key, out: Ptr)
    requires Balanced(t)
    ensures Shrunk(t, Delete(t, key, out).0)
  {
    if t.Node? {
      HeightSign(t.left);
      HeightSign(t.right);
      if Strcmp(key, t.key) < 0 {
        DeleteBalanced(t.left, key, out);
        RebalanceDeletedRepairs(Join(Delete(t.left, key, out).0, t.key, t.data, t.right));
      } else if Strcmp(key, t.key) > 0 {
        DeleteBalanced(t.right, key, out);
        RebalanceDeletedRepairs(Join(t.left, t.key, t.data, Delete(t.right, key, out).0));
      } else if t.left.Leaf? || t.right.Leaf? {
        DeleteOnlyChild(t);
      } else {
        var next := Min(t.right);
        DeleteBalanced(t.right, next.key, next.data);
        RebalanceDeletedRepairs(Join(t.left, next.key, next.data, Delete(t.right, next.key, next.data).0));
      }
    }
  }

  /**
   avl_delete_node: the entries lose exactly the binding of key, and *data receives its payload,
   or is left alone when key is absent.
   */
  lemma {:induction false} DeleteEntries(t: Tree, key: Key, out: Ptr)
    requires Avl(t)
    ensures InOrder(Delete(t, key, out).0) == Removed(InOrder(t), key)
    ensures Delete(t, key, out).1 == Lookup(InOrder(t), key, out)
    decreases t, 1
  {
    if t.Node? {
      var a, x, b := InOrder(t.left), (t.key, t.data), InOrder(t.right);
      SortedSplit(a, x, b);
      StrcmpSwap(key, t.key);
      StrcmpEqual(key, t.key);
      if Less(key, t.key) {
        DeleteEntries(t.left, key, out);
        EntriesLeft(a, x, b, key, out);
        RebalanceDeletedKeeps(Join(Delete(t.left, key, out).0, t.key, t.data, t.right));
      } else if Less(t.key, key) {
        DeleteEntries(t.right, key, out);
        EntriesRight(a, x, b, key, out);
        RebalanceDeletedKeeps(Join(t.left, t.key, t.data, Delete(t.right, key, out).0));
      } else {
        EntriesHere(a, x, b, out);
        DeleteFoundEntries(t, out);
      }
    }
  }

  /** Deleting at the root itself. */
  lemma {:induction false} DeleteFoundEntries(t: Tree, out: Ptr)
    requires Avl(t) && t.Node?
    ensures InOrder(Delete(t, t.key, out).0) == InOrder(t.left) + InOrder(t.right)
    ensures Delete(t, t.key, out).1 == t.data
    decreases t, 0
  {
    StrcmpEqual(t.key, t.key);
    if t.left.Leaf? || t.right.Leaf? {
      DeleteOnlyChild(t);
      var child := if t.left.Node? then t.left else t.right;
      if child.Node? {
        RebalanceDeletedKeeps(Join(child.left, child.key, child.data, child.right));
      }
    } else {
      SortedSplit(InOrder(t.left), (t.key, t.data), InOrder(t.right));
      var next := Min(t.right);
      DeleteEntries(t.right, next.key, next.data);
      SuccessorReplaces(t, Delete(t.right, next.key, next.data).0);
    }
  }

  /** The successor over the right subtree without it lists the same entries as the right subtree. */
  lemma SuccessorReplaces(t: Tree, r: Tree)
    requires t.Node? && t.right.Node?
    requires InOrder(r) == Removed(InOrder(t.right), Min(t.right).key)
    ensures InOrder(RebalanceDeleted(Join(t.left, Min(t.right).key, Min(t.right).data, r)))
         == InOrder(t.left) + InOrder(t.right)
  {
    var next := Min(t.right);
    MinIsFirst(t.right);
    assert InOrder(t.right) == [(next.key, next.data)] + InOrder(r);
    RebalanceDeletedKeeps(Join(t.left, next.key, next.data, r));
  }

  lemma DeleteCorrect(t: Tree, key: Key, out: Ptr)
    requires Avl(t)
    ensures Avl(Delete(t, key, out).0) && Shrunk(t, Delete(t, key, out).0)
    ensures InOrder(Delete(t, key, out).0) == Removed(InOrder(t), key)
    ensures Delete(t, key, out).1 == Lookup(InOrder(t), key, out)
  {
    RemovedSorted(InOrder(t), key);
    DeleteBalanced(t, key, out);
    DeleteEntries(t, key, out);
  }

  /** What a deletion finds at each node it passes on the way back up. */
  lemma DeleteSteps(t: Tree, key: Key, out: Ptr)
    requires t.Node? && Avl(t)
    ensures Avl(t.left) && Avl(t.right)
    ensures Strcmp(key, t.key) < 0 ==>
              CanRotate(Join(Delete(t.left, key, out).0, t.key, t.data, t.right))
    ensures Strcmp(key, t.key) > 0 ==>
              CanRotate(Join(t.left, t.key, t.data, Delete(t.right, key, out).0))
    ensures t.right.Node? ==>
              var next := Min(t.right);
              CanRotate(Join(t.left, next.key, next.data, Delete(t.right, next.key, next.data).0))
  {
    SortedSplit(InOrder(t.left), (t.key, t.data), InOrder(t.right));
    if Strcmp(key, t.key) < 0 {
      DeleteBalanced(t.left, key, out);
      SkewedCanRotate(Join(Delete(t.left, key, out).0, t.key, t.data, t.right));
    } else if Strcmp(key, t.key) > 0 {
      DeleteBalanced(t.right, key, out);
      SkewedCanRotate(Join(t.left, t.key, t.data, Delete(t.right, key, out).0));
    }
    if t.right.Node? {
      var next := Min(t.right);
      DeleteBalanced(t.right, next.key, next.data);
      SkewedCanRotate(Join(t.left, next.key, next.data, Delete(t.right, next.key, next.data).0));
    }
  }
}
