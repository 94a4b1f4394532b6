/** libavl itself: nodes on the heap, rewired in place, each call matching its tree operation. */
module Avl {
  import opened CTypes
  import opened SortedEntries
  import T = AvlTree

  class AvlNode {
    var key: Key
    var data: Ptr
    var height: int
    var left: AvlNode?
    var right: AvlNode?

    constructor (key: Key, data: Ptr)
      ensures this.key == key && this.data == data && height == 1
      ensures left == null && right == null
    {
      this.key, this.data := key, data;
      left, right := null, null;
      height := 1;
    }
  }

  /** The nodes of a tree together with the values they hold. */
  datatype Shape =
    | Nil
    | Cell(node: AvlNode, left: Shape, key: Key, data: Ptr, height: int, right: Shape)

  ghost function Root(s: Shape): AvlNode?
  {
    if s.Nil? then null else s.node
  }

  ghost function Nodes(s: Shape): set<AvlNode>
  {
    if s.Nil? then {} else {s.node} + Nodes(s.left) + Nodes(s.right)
  }

  /** The logical tree, forgetting which nodes hold it. */
  ghost function Tree(s: Shape): T.Tree
  {
    if s.Nil? then T.Leaf else T.Node(Tree(s.left), s.key, s.data, s.height, Tree(s.right))
  }

  /** No node occurs twice. */
  ghost predicate Separate(s: Shape)
  {
    s.Cell? ==>
      && s.node !in Nodes(s.left) && s.node !in Nodes(s.right)
      && Nodes(s.left) !! Nodes(s.right)
      && Separate(s.left) && Separate(s.right)
  }

  /** The heap holds the shape: every node's fields are as it says. */
  ghost predicate Linked(s: Shape)
    reads Nodes(s)
  {
    s.Cell? ==>
      && s.node.key == s.key && s.node.data == s.data && s.node.height == s.height
      && s.node.left == Root(s.left) && s.node.right == Root(s.right)
      && Linked(s.left) && Linked(s.right)
  }

  ghost predicate Good(n: AvlNode?, s: Shape)
    reads Nodes(s)
  {
    n == Root(s) && Separate(s) && Linked(s)
  }

  ghost function Join(node: AvlNode, left: Shape, key: Key, data: Ptr, right: Shape): Shape
  {
    Cell(node, left, key, data, T.Join(Tree(left), key, data, Tree(right)).height, right)
  }

  function GetHeight(n: AvlNode?): int
    reads n
  {
    if n == null then 0 else n.height
  }

  function UpdatedHeight(n: AvlNode): int
    reads n, n.left, n.right
  {
    var l, r := GetHeight(n.left), GetHeight(n.right);
    1 + (if l > r then l else r)
  }

  function GetBalance(n: AvlNode?): int
    reads n, if n == null then {} else {n.left, n.right}
  {
    if n == null then 0 else GetHeight(n.left) - GetHeight(n.right)
  }

  /** Nodes reached through a parameter exist already, so newly allocated ones are none of them. */
  lemma {:induction false} NodesAllocated(s: Shape)
    ensures forall n :: n in Nodes(s) ==> allocated(n)
  {
    if s.Cell? {
      NodesAllocated(s.left);
      NodesAllocated(s.right);
    }
  }

  lemma BalanceOf(n: AvlNode?, s: Shape)
    requires Good(n, s)
    ensures GetBalance(n) == T.Balance(Tree(s))
  {
    if n != null {
      assert Good(n.left, s.left) && Good(n.right, s.right);
    }
  }

  /** A shape and its tree branch alike, two levels deep. */
  lemma Children(s: Shape)
    requires s.Cell?
    ensures Tree(s).left == Tree(s.left) && Tree(s).right == Tree(s.right)
    ensures s.left.Cell? <==> Tree(s.left).Node?
    ensures s.right.Cell? <==> Tree(s.right).Node?
    ensures s.left.Cell? ==> (s.left.right.Cell? <==> Tree(s.left).right.Node?)
    ensures s.right.Cell? ==> (s.right.left.Cell? <==> Tree(s.right).left.Node?)
  {
  }

  method RotateRight(y: AvlNode, ghost s: Shape) returns (x: AvlNode, ghost s': Shape)
    requires Good(y, s) && y.left != null
    modifies Nodes(s)
    ensures Good(x, s') && Nodes(s') == Nodes(s)
    ensures Tree(s') == T.RotateRight(Tree(s))
  {
    x := y.left;
    assert Good(x, s.left) && Nodes(s.left) <= Nodes(s);
    var t2 := x.right;
    x.right := y;
    y.left := t2;
    y.height := UpdatedHeight(y);
    x.height := UpdatedHeight(x);
    assert Linked(s.left.left) && Linked(s.left.right) && Linked(s.right);
    ghost var lower := Join(y, s.left.right, y.key, y.data, s.right);
    assert Good(y, lower);
    s' := Join(x, s.left.left, x.key, x.data, lower);
  }

  method RotateLeft(x: AvlNode, ghost s: Shape) returns (y: AvlNode, ghost s': Shape)
    requires Good(x, s) && x.right != null
    modifies Nodes(s)
    ensures Good(y, s') && Nodes(s') == Nodes(s)
    ensures Tree(s') == T.RotateLeft(Tree(s))
  {
    y := x.right;
    assert Good(y, s.right) && Nodes(s.right) <= Nodes(s);
    var t2 := y.left;
    y.left := x;
    x.right := t2;
    x.height := UpdatedHeight(x);
    y.height := UpdatedHeight(y);
    assert Linked(s.left) && Linked(s.right.left) && Linked(s.right.right);
    ghost var lower := Join(x, s.left, x.key, x.data, s.right.left);
    assert Good(x, lower);
    s' := Join(y, lower, y.key, y.data, s.right.right);
  }

  /** The two rotations of the left-right case. */
  method RotateLeftRight(node: AvlNode, ghost s: Shape) returns (r: AvlNode, ghost s': Shape)
    requires Good(node, s) && s.Cell? && s.left.Cell? && s.left.right.Cell?
    modifies Nodes(s)
    ensures Good(r, s') && Nodes(s') == Nodes(s)
    ensures Tree(s') == T.RotateRight(T.Node(T.RotateLeft(Tree(s.left)), s.key, s.data, s.height, Tree(s.right)))
  {
    assert Good(node.left, s.left) && Good(node.right, s.right);
    NodesAllocated(s);
    var child, l := RotateLeft(node.left, s.left);
    assert Linked(s.right);
    node.left := child;
    assert Good(node, s.(left := l));
    r, s' := RotateRight(node, s.(left := l));
  }

  /** The two rotations of the right-left case. */
  method RotateRightLeft(node: AvlNode, ghost s: Shape) returns (r: AvlNode, ghost s': Shape)
    requires Good(node, s) && s.Cell? && s.right.Cell? && s.right.left.Cell?
    modifies Nodes(s)
    ensures Good(r, s') && Nodes(s') == Nodes(s)
    ensures Tree(s') == T.RotateLeft(T.Node(Tree(s.left), s.key, s.data, s.height, T.RotateRight(Tree(s.right))))
  {
    assert Good(node.left, s.left) && Good(node.right, s.right);
    NodesAllocated(s);
    var child, l := RotateRight(node.right, s.right);
    assert Linked(s.left);
    node.right := child;
    assert Good(node, s.(right := l));
    r, s' := RotateLeft(node, s.(right := l));
  }

  /** The rotations after an insertion, at a node whose height is up to date. */
  method RebalanceInserted(node: AvlNode, key: Key, ghost s: Shape) returns (r: AvlNode, ghost s': Shape)
    requires Good(node, s) && s.Cell? && T.CanRotate(Tree(s)) && T.KeyTellsSide(Tree(s), key)
    modifies Nodes(s)
    ensures Good(r, s') && Nodes(s') == Nodes(s)
    ensures Tree(s') == T.RebalanceInserted(Tree(s), key)
  {
    assert Good(node.left, s.left) && Good(node.right, s.right);
    var balance := GetBalance(node);
    BalanceOf(node, s);
    Children(s);
    if balance > 1 && Strcmp(key, node.left.key) < 0 {
      r, s' := RotateRight(node, s);
    } else if balance < -1 && Strcmp(key, node.right.key) > 0 {
      r, s' := RotateLeft(node, s);
    } else if balance > 1 && Strcmp(key, node.left.key) > 0 {
      r, s' := RotateLeftRight(node, s);
    } else if balance < -1 && Strcmp(key, node.right.key) < 0 {
      r, s' := RotateRightLeft(node, s);
    } else {
      r, s' := node, s;
    }
  }

  /** The node s stands at, on its own: its fields but not its subtrees. */
  ghost predicate TopOf(node: AvlNode, s: Shape)
    reads node
  {
    && s.Cell? && s.node == node && node.key == s.key && node.data == s.data
    && node.left == Root(s.left) && node.right == Root(s.right)
  }

  /** Replaces the left subtree and updates the height. */
  method SetLeft(node: AvlNode, child: AvlNode?, ghost s: Shape, ghost l: Shape) returns (ghost s': Shape)
    requires TopOf(node, s) && Good(child, l) && Good(node.right, s.right)
    requires node !in Nodes(l) && node !in Nodes(s.right) && Nodes(l) !! Nodes(s.right)
    modifies node`left, node`height
    ensures s' == Join(node, l, s.key, s.data, s.right) && Good(node, s')
  {
    node.left := child;
    assert Linked(l) && Linked(s.right);
    node.height := UpdatedHeight(node);
    assert Linked(l) && Linked(s.right);
    s' := Join(node, l, s.key, s.data, s.right);
  }

  /** Replaces the right subtree and updates the height. */
  method SetRight(node: AvlNode, child: AvlNode?, ghost s: Shape, ghost r: Shape) returns (ghost s': Shape)
    requires TopOf(node, s) && Good(child, r) && Good(node.left, s.left)
    requires node !in Nodes(r) && node !in Nodes(s.left) && Nodes(s.left) !! Nodes(r)
    modifies node`right, node`height
    ensures s' == Join(node, s.left, s.key, s.data, r) && Good(node, s')
  {
    node.right := child;
    assert Linked(r) && Linked(s.left);
    node.height := UpdatedHeight(node);
    assert Linked(r) && Linked(s.left);
    s' := Join(node, s.left, s.key, s.data, r);
  }

  /** avl_insert_node. depth is how many calls of it were active at once. */
  method InsertNode(node: AvlNode?, key: Key, data: Ptr, ghost s: Shape)
    returns (r: AvlNode, ghost s': Shape, ghost depth: nat)
    requires Good(node, s) && T.Avl(Tree(s))
    modifies Nodes(s)
    ensures Good(r, s') && fresh(Nodes(s') - Nodes(s))
    ensures Tree(s') == T.Insert(Tree(s), key, data) && depth == T.InsertDepth(Tree(s), key)
    decreases s
  {
    depth := 1;
    if node == null {
      r := new AvlNode(key, data);
      s' := Cell(r, Nil, key, data, 1, Nil);
      return;
    }
    assert TopOf(node, s) && Good(node.left, s.left) && Good(node.right, s.right);
    InsertSteps(s, key, data);
    NodesAllocated(s);
    if Strcmp(key, node.key) < 0 {
      var child, l, d := InsertNode(node.left, key, data, s.left);
      depth := d + 1;
      ghost var n := SetLeft(node, child, s, l);
      r, s' := RebalanceInserted(node, key, n);
    } else if Strcmp(key, node.key) > 0 {
      var child, l, d := InsertNode(node.right, key, data, s.right);
      depth := d + 1;
      ghost var n := SetRight(node, child, s, l);
      r, s' := RebalanceInserted(node, key, n);
    } else {
      r, s' := node, s;
    }
  }

  /** What an insertion may rely on at each node it passes. */
  lemma InsertSteps(s: Shape, key: Key, data: Ptr)
    requires s.Cell? && T.Avl(Tree(s))
    ensures T.Avl(Tree(s.left)) && T.Avl(Tree(s.right))
    ensures Strcmp(key, s.key) < 0 ==>
              var n := T.Join(T.Insert(Tree(s.left), key, data), s.key, s.data, Tree(s.right));
              T.CanRotate(n) && T.KeyTellsSide(n, key)
    ensures Strcmp(key, s.key) > 0 ==>
              var n := T.Join(Tree(s.left), s.key, s.data, T.Insert(Tree(s.right), key, data));
              T.CanRotate(n) && T.KeyTellsSide(n, key)
  {
    T.InsertSteps(Tree(s), key, data);
  }

  /** The rotations after a deletion, at a node whose height is up to date. */
  method RebalanceDeleted(root: AvlNode, ghost s: Shape) returns (r: AvlNode, ghost s': Shape)
    requires Good(root, s) && s.Cell? && T.CanRotate(Tree(s))
    modifies Nodes(s)
    ensures Good(r, s') && Nodes(s') == Nodes(s)
    ensures Tree(s') == T.RebalanceDeleted(Tree(s))
  {
    assert Good(root.left, s.left) && Good(root.right, s.right);
    var balance := GetBalance(root);
    BalanceOf(root, s);
    BalanceOf(root.left, s.left);
    BalanceOf(root.right, s.right);
    Children(s);
    if balance > 1 && GetBalance(root.left) >= 0 {
      r, s' := RotateRight(root, s);
    } else if balance > 1 && GetBalance(root.left) < 0 {
      r, s' := RotateLeftRight(root, s);
    } else if balance < -1 && GetBalance(root.right) <= 0 {
      r, s' := RotateLeft(root, s);
    } else if balance < -1 && GetBalance(root.right) > 0 {
      r, s' := RotateRightLeft(root, s);
    } else {
      r, s' := root, s;
    }
  }

  /** avl_min_value_node: walks left until there is no left child. */
  method MinValueNode(node: AvlNode, ghost s: Shape) returns (current: AvlNode)
    requires Good(node, s)
    ensures current.key == T.Min(Tree(s)).key && current.data == T.Min(Tree(s)).data
    ensures current in Nodes(s)
  {
    current := node;
    ghost var c := s;
    while current.left != null
      invariant Good(current, c) && T.Min(Tree(c)) == T.Min(Tree(s))
      invariant Nodes(c) <= Nodes(s)
      decreases c
    {
      assert Good(current.left, c.left);
      current := current.left;
      c := c.left;
    }
  }

  /** avl_delete_node; the value of *data is passed in and handed back. depth is how many calls of it were active at once. */
  method DeleteNode(root: AvlNode?, key: Key, data: Ptr, ghost s: Shape)
    returns (r: AvlNode?, data': Ptr, ghost s': Shape, ghost depth: nat)
    requires Good(root, s) && T.Avl(Tree(s))
    modifies Nodes(s)
    ensures Good(r, s') && Nodes(s') <= Nodes(s)
    ensures (Tree(s'), data') == T.Delete(Tree(s), key, data) && depth == T.DeleteDepth(Tree(s), key)
    decreases s, 1
  {
    depth := 1;
    if root == null {
      return root, data, s, 1;
    }
    assert TopOf(root, s) && Good(root.left, s.left) && Good(root.right, s.right);
    DeleteSteps(s, key, data);
    NodesAllocated(s);
    if Strcmp(key, root.key) < 0 {
      var child, d, l, calls := DeleteNode(root.left, key, data, s.left);
      depth := calls + 1;
      ghost var n := SetLeft(root, child, s, l);
      r, s' := RebalanceDeleted(root, n);
      data' := d;
    } else if Strcmp(key, root.key) > 0 {
      var child, d, l, calls := DeleteNode(root.right, key, data, s.right);
      depth := calls + 1;
      ghost var n := SetRight(root, child, s, l);
      r, s' := RebalanceDeleted(root, n);
      data' := d;
    } else {
      data' := root.data;
      if root.left == null || root.right == null {
        r, s' := DropOnlyChild(root, key, data, s);
      } else {
        r, s', depth := ReplaceBySuccessor(root, key, data, s);
      }
    }
  }

  /** A node with at most one child goes: the child, if any, is copied over it. */
  method DropOnlyChild(root: AvlNode, key: Key, ghost data: Ptr, ghost s: Shape)
    returns (r: AvlNode?, ghost s': Shape)
    requires Good(root, s) && T.Avl(Tree(s)) && Strcmp(key, root.key) == 0
    requires root.left == null || root.right == null
    modifies Nodes(s)
    ensures Good(r, s') && Nodes(s') <= Nodes(s)
    ensures Tree(s') == T.Delete(Tree(s), key, data).0
  {
    assert TopOf(root, s) && Good(root.left, s.left) && Good(root.right, s.right);
    Children(s);
    T.DeleteOnlyChild(Tree(s));
    var temp := if root.left != null then root.left else root.right;
    if temp == null {
      return null, Nil;
    }
    ghost var c := if s.left.Cell? then s.left else s.right;
    assert Good(temp, c) && Tree(c) == T.Node(Tree(c.left), c.key, c.data, c.height, Tree(c.right));
    assert Tree(c.left) == T.Leaf && Tree(c.right) == T.Leaf;
    root.key, root.data, root.height := temp.key, temp.data, temp.height;
    root.left, root.right := temp.left, temp.right;
    root.height := UpdatedHeight(root);
    r, s' := RebalanceDeleted(root, Cell(root, Nil, root.key, root.data, 1, Nil));
  }

  /** A node with two children takes over its successor's binding, and the successor goes. */
  method ReplaceBySuccessor(root: AvlNode, key: Key, ghost data: Ptr, ghost s: Shape)
    returns (r: AvlNode?, ghost s': Shape, ghost depth: nat)
    requires Good(root, s) && T.Avl(Tree(s)) && Strcmp(key, root.key) == 0
    requires root.left != null && root.right != null
    modifies Nodes(s)
    ensures Good(r, s') && Nodes(s') <= Nodes(s)
    ensures Tree(s') == T.Delete(Tree(s), key, data).0 && depth == T.DeleteDepth(Tree(s), key)
    decreases s, 0
  {
    assert TopOf(root, s) && Good(root.left, s.left) && Good(root.right, s.right);
    DeleteSteps(s, key, data);
    NodesAllocated(s);
    var temp := MinValueNode(root.right, s.right);
    ghost var top := s.(key := temp.key, data := temp.data);
    root.key := temp.key;
    root.data := temp.data;
    assert TopOf(root, top) && Good(root.left, s.left) && Good(root.right, s.right);
    var child, _, l, calls := DeleteNode(root.right, temp.key, temp.data, s.right);
    depth := calls + 1;
    assert TopOf(root, top) && Good(root.left, s.left);
    ghost var n := SetRight(root, child, top, l);
    r, s' := RebalanceDeleted(root, n);
  }

  /** What a deletion may rely on at each node it passes. */
  lemma DeleteSteps(s: Shape, key: Key, data: Ptr)
    requires s.Cell? && T.Avl(Tree(s))
    ensures T.Avl(Tree(s.left)) && T.Avl(Tree(s.right))
    ensures Strcmp(key, s.key) < 0 ==>
              T.CanRotate(T.Join(T.Delete(Tree(s.left), key, data).0, s.key, s.data, Tree(s.right)))
    ensures Strcmp(key, s.key) > 0 ==>
              T.CanRotate(T.Join(Tree(s.left), s.key, s.data, T.Delete(Tree(s.right), key, data).0))
    ensures s.right.Cell? ==>
              var next := T.Min(Tree(s.right));
              T.CanRotate(T.Join(Tree(s.left), next.key, next.data,
                                 T.Delete(Tree(s.right), next.key, next.data).0))
  {
    T.DeleteSteps(Tree(s), key, data);
  }

  /** avl_search_node. */
  function SearchNode(node: AvlNode?, key: Key, ghost s: Shape): (r: Ptr)
    requires Good(node, s)
    reads Nodes(s)
    ensures r == T.Search(Tree(s), key)
    decreases s
  {
    if node == null then NULL
    else if Strcmp(key, node.key) == 0 then node.data
    else if Strcmp(key, node.key) < 0 then SearchNode(node.left, key, s.left)
    else SearchNode(node.right, key, s.right)
  }

  /** The tree handle, and the map its calls maintain. */
  class AvlHandle {
    var root: AvlNode?
    ghost var shape: Shape

    ghost predicate Valid()
      reads this, Nodes(shape)
    {
      Good(root, shape) && T.Avl(Tree(shape))
    }

    ghost function Contents(): map<Key, Ptr>
      reads this
    {
      ToMap(T.InOrder(Tree(shape)))
    }

    constructor ()
      ensures Valid() && Contents() == map[] && shape == Nil
    {
      root, shape := null, Nil;
    }

    /** avl_insert: an existing key keeps its payload. */
    method Insert(key: Key, data: Ptr) returns (rc: int)
      requires Valid()
      modifies this, Nodes(shape)
      ensures Valid() && rc == 0 && fresh(Nodes(shape) - old(Nodes(shape)))
      ensures Contents() == if key in old(Contents()) then old(Contents()) else old(Contents())[key := data]
      ensures Tree(shape) == T.Insert(old(Tree(shape)), key, data)
    {
      ghost var t := Tree(shape);
      ghost var depth;
      root, shape, depth := InsertNode(root, key, data, shape);
      T.InsertCorrect(t, key, data);
      ToMapAdded(T.InOrder(t), key, data);
      return 0;
    }

    /** avl_search: the payload of key, or NULL. */
    function Search(key: Key): (r: Ptr)
      requires Valid()
      reads this, Nodes(shape)
      ensures r == if key in Contents() then Contents()[key] else NULL
    {
      T.SearchCorrect(Tree(shape), key);
      ToMapLookup(T.InOrder(Tree(shape)), key, NULL);
      SearchNode(root, key, shape)
    }

    /** avl_del: removes exactly key and returns the payload it had, or NULL. */
    method Del(key: Key) returns (deleted: Ptr)
      requires Valid()
      modifies this, Nodes(shape)
      ensures Valid() && Nodes(shape) <= old(Nodes(shape))
      ensures Contents() == old(Contents()) - {key}
      ensures deleted == if key in old(Contents()) then old(Contents())[key] else NULL
      ensures Tree(shape) == T.Delete(old(Tree(shape)), key, NULL).0
    {
      ghost var t := Tree(shape);
      if root == null {
        return NULL;
      }
      ghost var depth;
      root, deleted, shape, depth := DeleteNode(root, key, NULL, shape);
      T.DeleteCorrect(t, key, NULL);
      ToMapRemoved(T.InOrder(t), key);
      ToMapLookup(T.InOrder(t), key, NULL);
    }
  }
}
