// The AVL multiset of project-3/avl.c in place: nodes whose links, depths,
// counts and items are overwritten.  Each method is proved to compute on the
// heap what the function of the same purpose in AvlTree computes on values.
module Avl {
  import opened Bytes
  import T = AvlTree
  type Str = T.Str

  class Node {
    var depth: int
    var count: nat
    var item: Str
    var left: Node?
    var right: Node?

    constructor (item: Str)
      ensures this.item == item && count == 1 && depth == 0 && left == null && right == null
    {
      this.item, count, depth, left, right := item, 1, 0, null, null;
    }
  }

  // Which nodes form a tree, and how: the witness that what hangs below a node
  // is a tree of distinct nodes.
  datatype Plan = Bare | Fork(left: Plan, node: Node, right: Plan)

  ghost function Objects(p: Plan): set<Node> {
    if p.Bare? then {} else Objects(p.left) + {p.node} + Objects(p.right)
  }

  ghost predicate Holds(p: Plan, n: Node?)
    reads Objects(p)
  {
    match p
    case Bare => n == null
    case Fork(l, m, r) =>
      && n == m && m !in Objects(l) && m !in Objects(r) && Objects(l) !! Objects(r)
      && Holds(l, m.left) && Holds(r, m.right)
  }

  // The tree value that the nodes store.
  ghost function TreeOf(p: Plan): T.Tree
    reads Objects(p)
  {
    match p
    case Bare => T.Nil
    case Fork(l, m, r) => T.Node(TreeOf(l), m.item, m.count, m.depth, TreeOf(r))
  }

  function Delta(n: Node?): int
    reads n
  {
    if n == null then -1 else n.depth
  }

  function Balance(n: Node): int
    reads n, n.left, n.right
  {
    Delta(n.left) - Delta(n.right)
  }

  function Depth(a: Node?, b: Node?): int
    reads a, b
  {
    if Delta(a) > Delta(b) then Delta(a) + 1 else Delta(b) + 1
  }

  lemma DeltaOf(p: Plan, n: Node?)
    requires Holds(p, n)
    ensures Delta(n) == T.Delta(TreeOf(p)) && (n == null <==> p.Bare?) && (n != null ==> n in Objects(p))
  {
  }

  lemma Unfold(p: Plan, n: Node?)
    requires p.Fork?
    ensures Objects(p) == Objects(p.left) + {p.node} + Objects(p.right)
    ensures Holds(p, n) <==>
      && n == p.node && n !in Objects(p.left) && n !in Objects(p.right) && Objects(p.left) !! Objects(p.right)
      && Holds(p.left, n.left) && Holds(p.right, n.right)
    ensures TreeOf(p) == T.Node(TreeOf(p.left), p.node.item, p.node.count, p.node.depth, TreeOf(p.right))
  {
  }

  lemma DepthOf(p: Plan, n: Node?, q: Plan, m: Node?)
    requires Holds(p, n) && Holds(q, m)
    ensures Depth(n, m) == T.Depth(TreeOf(p), TreeOf(q))
  {
  }

  method RotateRight(node: Node, ghost p: Plan) returns (root: Node, ghost q: Plan)
    requires Holds(p, node) && p.left.Fork? && TreeOf(p).Node? && TreeOf(p).left.Node?
    modifies Objects(p)
    ensures Holds(q, root) && Objects(q) == Objects(p)
    ensures TreeOf(q) == T.RotateRight(old(TreeOf(p)))
  {
    hide Holds, TreeOf, Objects, T.Depth, Depth;
    PlanShape(p);
    Unfold(p, node);
    Unfold(p.left, node.left);
    ghost var a, b, c := p.left.left, p.left.right, p.right;
    root := node.left;
    node.left := root.right;
    root.right := node;
    DepthOf(b, node.left, c, node.right);
    node.depth := Depth(node.left, node.right);
    q := Fork(b, node, c);
    Unfold(q, node);
    DepthOf(a, root.left, q, node);
    root.depth := Depth(root.left, node);
    Unfold(q, node);
    q := Fork(a, root, q);
    Unfold(q, root);
  }

  method RotateLeft(node: Node, ghost p: Plan) returns (root: Node, ghost q: Plan)
    requires Holds(p, node) && p.right.Fork? && TreeOf(p).Node? && TreeOf(p).right.Node?
    modifies Objects(p)
    ensures Holds(q, root) && Objects(q) == Objects(p)
    ensures TreeOf(q) == T.RotateLeft(old(TreeOf(p)))
  {
    hide Holds, TreeOf, Objects, T.Depth, Depth;
    PlanShape(p);
    Unfold(p, node);
    Unfold(p.right, node.right);
    ghost var a, b, c := p.left, p.right.left, p.right.right;
    root := node.right;
    node.right := root.left;
    root.left := node;
    DepthOf(a, node.left, b, node.right);
    node.depth := Depth(node.left, node.right);
    q := Fork(a, node, b);
    Unfold(q, node);
    DepthOf(c, root.right, q, node);
    root.depth := Depth(root.right, node);
    Unfold(q, node);
    q := Fork(q, root, c);
    Unfold(q, root);
  }

  method RotateLeftRight(node: Node, ghost p: Plan) returns (root: Node, ghost q: Plan)
    requires Holds(p, node) && p.left.Fork? && p.left.right.Fork?
    requires TreeOf(p).Node? && TreeOf(p).left.Node? && TreeOf(p).left.right.Node?
    modifies Objects(p)
    ensures Holds(q, root) && Objects(q) == Objects(p)
    ensures TreeOf(q) == T.RotateLeftRight(old(TreeOf(p)))
  {
    hide T.RotateLeft, T.RotateRight, Holds, TreeOf, Objects;
    PlanShape(p);
    Unfold(p, node);
    ghost var pl, pr := p.left, p.right;
    DeltaOf(pl, node.left);
    assert allocated(Objects(pr));
    var child, l := RotateLeft(node.left, pl);
    node.left := child;
    Unfold(Fork(l, node, pr), node);
    PlanShape(Fork(l, node, pr));
    root, q := RotateRight(node, Fork(l, node, pr));
  }

  method RotateRightLeft(node: Node, ghost p: Plan) returns (root: Node, ghost q: Plan)
    requires Holds(p, node) && p.right.Fork? && p.right.left.Fork?
    requires TreeOf(p).Node? && TreeOf(p).right.Node? && TreeOf(p).right.left.Node?
    modifies Objects(p)
    ensures Holds(q, root) && Objects(q) == Objects(p)
    ensures TreeOf(q) == T.RotateRightLeft(old(TreeOf(p)))
  {
    hide T.RotateLeft, T.RotateRight, Holds, TreeOf, Objects;
    PlanShape(p);
    Unfold(p, node);
    ghost var pl, pr := p.left, p.right;
    DeltaOf(pr, node.right);
    assert allocated(Objects(pl));
    var child, r := RotateRight(node.right, pr);
    node.right := child;
    Unfold(Fork(pl, node, r), node);
    PlanShape(Fork(pl, node, r));
    root, q := RotateLeft(node, Fork(pl, node, r));
  }

  // root->depth = depth(root->left, root->right)
  method SetDepth(n: Node, ghost p: Plan)
    requires Holds(p, n)
    modifies n`depth
    ensures Holds(p, n)
    ensures var t := old(TreeOf(p)); t.Node? && TreeOf(p) == t.(depth := T.Depth(t.left, t.right))
  {
    DeltaOf(p.left, n.left);
    DeltaOf(p.right, n.right);
    assert allocated(Objects(p.left)) && allocated(Objects(p.right));
    n.depth := Depth(n.left, n.right);
    assert Holds(p.left, n.left) && TreeOf(p.left) == old(TreeOf(p.left));
    assert Holds(p.right, n.right) && TreeOf(p.right) == old(TreeOf(p.right));
  }

  // The end of delete: the depth, and one of four rebalancings.
  method Rebalance(n: Node, ghost p: Plan) returns (r: Node, ghost q: Plan)
    requires Holds(p, n)
    requires var t := TreeOf(p);
      t.Node? && T.Shape(t.left) && T.Shape(t.right) && -2 <= T.Balance(t) <= 2
    modifies Objects(p)
    ensures Holds(q, r) && Objects(q) == Objects(p)
    ensures TreeOf(q) == T.Rebalance(old(TreeOf(p)))
  {
    ghost var t0 := TreeOf(p);
    SetDepth(n, p);
    ghost var t := TreeOf(p);
    assert t == t0.(depth := T.Depth(t0.left, t0.right));
    hide T.RotateLeft, T.RotateRight, T.RotateLeftRight, T.RotateRightLeft;
    BalanceOf(p, n);
    r, q := n, p;
    if Balance(n) > 1 {
      T.RightFixes(t);
      BalanceOf(p.left, n.left);
      PlanShape(p);
      if Balance(n.left) >= 0 {
        r, q := RotateRight(n, p);
      } else {
        T.BalanceRange(t.left);
        PlanShape(p.left);
        r, q := RotateLeftRight(n, p);
      }
    } else if Balance(n) < -1 {
      T.LeftFixes(t);
      BalanceOf(p.right, n.right);
      PlanShape(p);
      if Balance(n.right) <= 0 {
        r, q := RotateLeft(n, p);
      } else {
        T.BalanceRange(t.right);
        PlanShape(p.right);
        r, q := RotateRightLeft(n, p);
      }
    }
  }

  lemma PlanShape(p: Plan)
    ensures p.Fork? <==> TreeOf(p).Node?
    ensures p.Fork? ==> TreeOf(p).left == TreeOf(p.left) && TreeOf(p).right == TreeOf(p.right)
    ensures p.Fork? ==> (p.left.Fork? <==> TreeOf(p.left).Node?) && (p.right.Fork? <==> TreeOf(p.right).Node?)
  {
  }

  lemma BalanceOf(p: Plan, n: Node?)
    requires Holds(p, n) && n != null
    ensures p.Fork? && TreeOf(p).Node? && Balance(n) == T.Balance(TreeOf(p))
  {
    DeltaOf(p.left, n.left);
    DeltaOf(p.right, n.right);
  }

  // ------------------------------------------------------------------ find_min

  ghost function MinNode(p: Plan): Node
    requires p.Fork?
  {
    if p.left.Bare? then p.node else MinNode(p.left)
  }

  lemma {:induction false} MinNodeIn(p: Plan, n: Node?)
    requires p.Fork? && Holds(p, n)
    ensures MinNode(p) in Objects(p)
    ensures TreeOf(p).Node? && T.Min(TreeOf(p)).item == MinNode(p).item && T.Min(TreeOf(p)).count == MinNode(p).count
  {
    if p.left.Fork? {
      MinNodeIn(p.left, n.left);
    }
  }

  method FindMin(n: Node, ghost p: Plan) returns (m: Node)
    requires Holds(p, n)
    ensures p.Fork? && m == MinNode(p)
  {
    m := n;
    ghost var q := p;
    while m.left != null
      invariant Holds(q, m) && q.Fork? && p.Fork? && MinNode(q) == MinNode(p)
      decreases q
    {
      m, q := m.left, q.left;
    }
  }

  // The nodes' own data at one moment, and the tree it makes of a plan.
  datatype Data = Data(item: Str, count: nat, depth: int, left: Node?, right: Node?)

  ghost predicate Recorded(p: Plan, d: map<Node, Data>)
    reads Objects(p)
  {
    forall n :: n in Objects(p) ==> n in d && d[n] == Data(n.item, n.count, n.depth, n.left, n.right)
  }

  ghost function TreeIn(p: Plan, d: map<Node, Data>): T.Tree
    requires Objects(p) <= d.Keys
  {
    match p
    case Bare => T.Nil
    case Fork(l, m, r) => T.Node(TreeIn(l, d), d[m].item, d[m].count, d[m].depth, TreeIn(r, d))
  }

  lemma {:induction false} TreeInNow(p: Plan, d: map<Node, Data>)
    requires Recorded(p, d)
    ensures TreeIn(p, d) == TreeOf(p)
  {
    if p.Fork? {
      TreeInNow(p.left, d);
      TreeInNow(p.right, d);
    }
  }

  ghost predicate HoldsIn(p: Plan, n: Node?, d: map<Node, Data>)
    requires Objects(p) <= d.Keys
  {
    match p
    case Bare => n == null
    case Fork(l, m, r) =>
      && n == m && m !in Objects(l) && m !in Objects(r) && Objects(l) !! Objects(r)
      && HoldsIn(l, d[m].left, d) && HoldsIn(r, d[m].right, d)
  }

  lemma {:induction false} HoldsInNow(p: Plan, n: Node?, d: map<Node, Data>)
    requires Recorded(p, d)
    ensures HoldsIn(p, n, d) <==> Holds(p, n)
  {
    if p.Fork? {
      HoldsInNow(p.left, p.node.left, d);
      HoldsInNow(p.right, p.node.right, d);
    }
  }

  lemma {:induction false} TreeInOther(p: Plan, n: Node?, d: map<Node, Data>, o: Node, x: Data)
    requires Objects(p) <= d.Keys && o !in Objects(p) && HoldsIn(p, n, d)
    ensures TreeIn(p, d[o := x]) == TreeIn(p, d) && HoldsIn(p, n, d[o := x])
  {
    if p.Fork? {
      TreeInOther(p.left, d[p.node].left, d, o, x);
      TreeInOther(p.right, d[p.node].right, d, o, x);
    }
  }

  lemma {:induction false} MinInPlan(p: Plan)
    requires p.Fork?
    ensures MinNode(p) in Objects(p)
  {
    if p.left.Fork? {
      MinInPlan(p.left);
    }
  }

  // Changing the leftmost node's count to 1 changes the tree as MinToOne does.
  lemma {:induction false} MinCounted(p: Plan, n: Node?, d: map<Node, Data>)
    requires p.Fork? && Objects(p) <= d.Keys && HoldsIn(p, n, d) && T.Shape(TreeIn(p, d))
    ensures MinNode(p) in Objects(p) && TreeIn(p, d).Node?
    ensures var m := MinNode(p); var d' := d[m := d[m].(count := 1)];
      HoldsIn(p, n, d') && TreeIn(p, d') == T.MinToOne(TreeIn(p, d))
  {
    MinInPlan(p);
    if p.left.Fork? {
      MinInPlan(p.left);
    }
    var m := MinNode(p);
    var x := d[m].(count := 1);
    TreeInOther(p.right, d[p.node].right, d, m, x);
    if p.left.Fork? {
      MinCounted(p.left, d[p.node].left, d);
    }
  }

  // temp->count = 1, temp being the leftmost node
  method CountOne(m: Node, n: Node, ghost p: Plan)
    requires Holds(p, n) && T.Shape(TreeOf(p)) && p.Fork? && m == MinNode(p)
    modifies Objects(p)
    ensures Holds(p, n) && old(TreeOf(p)).Node? && TreeOf(p) == T.MinToOne(old(TreeOf(p)))
    ensures m.item == T.Min(old(TreeOf(p))).item
  {
    MinNodeIn(p, n);
    ghost var d := map o | o in Objects(p) :: Data(o.item, o.count, o.depth, o.left, o.right);
    TreeInNow(p, d);
    HoldsInNow(p, n, d);
    MinCounted(p, n, d);
    m.count := 1;
    ghost var d' := d[m := d[m].(count := 1)];
    TreeInNow(p, d');
    HoldsInNow(p, n, d');
  }

  // ------------------------------------------------------------------- the class

  class Avl {
    var items: nat
    var unique: nat
    var root: Node?
    ghost var plan: Plan

    ghost predicate Valid()
      reads this, Objects(plan)
    {
      && Holds(plan, root) && T.Valid(TreeOf(plan))
      && items == T.Total(TreeOf(plan))
      && unique == T.Nodes(TreeOf(plan))
    }

    constructor ()
      ensures Valid() && TreeOf(plan) == T.Nil
    {
      items, unique, root, plan := 0, 0, null, Bare;
    }

    method Update(n: Node?, item: Str, ghost p: Plan) returns (r: Node, ghost q: Plan)
      requires Holds(p, n) && T.Shape(TreeOf(p))
      modifies this`items, this`unique, Objects(p)
      ensures Holds(q, r) && Objects(p) <= Objects(q) && fresh(Objects(q) - Objects(p))
      ensures TreeOf(q) == T.Insert(old(TreeOf(p)), item)
      ensures items == old(items) + 1
      ensures unique == old(unique) + T.One(T.IsNew(old(TreeOf(p)), item))
      decreases p, 1
    {
      if n == null {
        r := new Node(item);
        q := Fork(Bare, r, Bare);
        items, unique := items + 1, unique + 1;
        return;
      }
      var d := T.Cmp(item, n.item);
      if d == 0 {
        r, q := n, p;
        CountMore(n, item, p);
        items := items + 1;
        return;
      }
      r := n;
      T.InsertUnfolds(TreeOf(p), item);
      hide T.Shape, T.Grown, T.SettleLeft, T.SettleRight, T.Cmp, T.Insert;
      if d < 0 {
        q := UpdateLeft(n, item, p);
        r, q := SettleLeft(n, item, q);
      } else {
        q := UpdateRight(n, item, p);
        r, q := SettleRight(n, item, q);
      }
    }

    // root->left = update(avl, root->left, item)
    // The item is this node's.
    method CountMore(n: Node, item: Str, ghost p: Plan)
      requires Holds(p, n) && T.Shape(TreeOf(p)) && T.Cmp(item, n.item) == 0
      modifies Objects(p)
      ensures Holds(p, n) && old(TreeOf(p)).Node?
      ensures TreeOf(p) == T.Insert(old(TreeOf(p)), item) && !T.IsNew(old(TreeOf(p)), item)
    {
      hide T.Shape, T.Cmp;
      n.count := n.count + 1;
      assert Holds(p, n);
      SetDepth(n, p);
    }

    method UpdateLeft(n: Node, item: Str, ghost p: Plan) returns (ghost q: Plan)
      requires Holds(p, n) && TreeOf(p).Node? && T.Shape(TreeOf(p).left)
      modifies this`items, this`unique, Objects(p)
      ensures Holds(q, n) && Objects(p) <= Objects(q) && fresh(Objects(q) - Objects(p))
      ensures var t := old(TreeOf(p));
        TreeOf(q) == t.(left := T.Insert(t.left, item))
      ensures items == old(items) + 1
      ensures unique == old(unique) + T.One(T.IsNew(old(TreeOf(p)).left, item))
      decreases p, 0
    {
      hide T.Insert, T.IsNew, T.Shape, T.Grown;
      ghost var po, pc := p.right, p.left;
      assert allocated(Objects(po)) && allocated(Objects(pc));
      var child, l := Update(n.left, item, pc);
      assert Holds(po, n.right) && TreeOf(po) == old(TreeOf(po));
      assert n !in Objects(l) && Objects(l) !! Objects(po);
      assert allocated(Objects(l));
      n.left := child;
      assert Holds(l, n.left) && Holds(po, n.right) && TreeOf(po) == old(TreeOf(po));
      q := Fork(l, n, po);
    }

    // root->right = update(avl, root->right, item)
    method UpdateRight(n: Node, item: Str, ghost p: Plan) returns (ghost q: Plan)
      requires Holds(p, n) && TreeOf(p).Node? && T.Shape(TreeOf(p).right)
      modifies this`items, this`unique, Objects(p)
      ensures Holds(q, n) && Objects(p) <= Objects(q) && fresh(Objects(q) - Objects(p))
      ensures var t := old(TreeOf(p));
        TreeOf(q) == t.(right := T.Insert(t.right, item))
      ensures items == old(items) + 1
      ensures unique == old(unique) + T.One(T.IsNew(old(TreeOf(p)).right, item))
      decreases p, 0
    {
      hide T.Insert, T.IsNew, T.Shape, T.Grown;
      ghost var po, pc := p.left, p.right;
      assert allocated(Objects(po)) && allocated(Objects(pc));
      var child, l := Update(n.right, item, pc);
      assert Holds(po, n.left) && TreeOf(po) == old(TreeOf(po));
      assert n !in Objects(l) && Objects(l) !! Objects(po);
      assert allocated(Objects(l));
      n.right := child;
      assert Holds(l, n.right) && Holds(po, n.left) && TreeOf(po) == old(TreeOf(po));
      q := Fork(po, n, l);
    }

    method Delete(n: Node?, item: Str, ghost p: Plan) returns (r: Node?, ghost q: Plan)
      requires Holds(p, n) && T.Shape(TreeOf(p))
      modifies Objects(p)
      ensures Holds(q, r) && Objects(q) <= Objects(p)
      ensures TreeOf(q) == T.Delete(old(TreeOf(p)), item)
      decreases p, 3
    {
      if n == null {
        return null, p;
      }
      var d := T.Cmp(item, n.item);
      if d == 0 {
        r, q := DeleteFound(n, item, p);
        return;
      }
      T.DeleteUnfolds(TreeOf(p), item);
      hide T.Shape, T.Delete, T.Rebalance, T.MinToOne, T.Min;
      if d < 0 {
        q := DeleteLeft(n, item, p);
      } else {
        q := DeleteRight(n, item, p);
      }
      r, q := Rebalance(n, q);
    }

    // The item is this node's.
    method DeleteFound(n: Node, item: Str, ghost p: Plan) returns (r: Node?, ghost q: Plan)
      requires Holds(p, n) && T.Shape(TreeOf(p)) && T.Cmp(item, n.item) == 0
      modifies Objects(p)
      ensures Holds(q, r) && Objects(q) <= Objects(p)
      ensures TreeOf(q) == T.Delete(old(TreeOf(p)), item)
      decreases p, 2
    {
      T.DeleteUnfolds(TreeOf(p), item);
      hide T.Shape, T.Delete, T.Rebalance, T.MinToOne, T.Min;
      if n.count > 1 {
        n.count := n.count - 1;
        q := p;
        assert Holds(q, n);
      } else if n.left == null {
        return n.right, p.right;
      } else if n.right == null {
        return n.left, p.left;
      } else {
        q := Succeed(n, p);
      }
      r, q := Rebalance(n, q);
    }

    method DeleteLeft(n: Node, item: Str, ghost p: Plan) returns (ghost q: Plan)
      requires Holds(p, n) && TreeOf(p).Node? && T.Shape(TreeOf(p).left)
      modifies Objects(p)
      ensures Holds(q, n) && Objects(q) <= Objects(p)
      ensures var t := old(TreeOf(p));
        TreeOf(q) == t.(left := T.Delete(t.left, item))
      decreases p, 0
    {
      hide T.Shape, T.Delete;
      ghost var po, pc := p.right, p.left;
      assert allocated(Objects(po)) && allocated(Objects(pc));
      var child, l := Delete(n.left, item, pc);
      assert Holds(po, n.right) && TreeOf(po) == old(TreeOf(po));
      n.left := child;
      assert Holds(l, n.left) && Holds(po, n.right) && TreeOf(po) == old(TreeOf(po));
      q := Fork(l, n, po);
    }

    method DeleteRight(n: Node, item: Str, ghost p: Plan) returns (ghost q: Plan)
      requires Holds(p, n) && TreeOf(p).Node? && T.Shape(TreeOf(p).right)
      modifies Objects(p)
      ensures Holds(q, n) && Objects(q) <= Objects(p)
      ensures var t := old(TreeOf(p));
        TreeOf(q) == t.(right := T.Delete(t.right, item))
      decreases p, 0
    {
      hide T.Shape, T.Delete;
      ghost var po, pc := p.left, p.right;
      assert allocated(Objects(po)) && allocated(Objects(pc));
      var child, l := Delete(n.right, item, pc);
      assert Holds(po, n.left) && TreeOf(po) == old(TreeOf(po));
      n.right := child;
      assert Holds(l, n.right) && Holds(po, n.left) && TreeOf(po) == old(TreeOf(po));
      q := Fork(po, n, l);
    }

    // A node with two children takes its successor's item and count; the
    // successor, reduced to one occurrence, is deleted below.
    method Succeed(n: Node, ghost p: Plan) returns (ghost q: Plan)
      requires Holds(p, n) && TreeOf(p).Node? && TreeOf(p).right.Node? && T.Shape(TreeOf(p).right)
      modifies Objects(p)
      ensures Holds(q, n) && Objects(q) <= Objects(p)
      ensures var t := old(TreeOf(p)); var m := T.Min(t.right);
        TreeOf(q) == t.(item := m.item, count := m.count, right := T.Delete(T.MinToOne(t.right), m.item))
      decreases p, 1
    {
      hide T.Shape, T.Delete, T.Min, T.MinToOne;
      ghost var pl, pr := p.left, p.right;
      PlanShape(p);
      assert allocated(Objects(pl)) && allocated(Objects(pr));
      var temp := FindMin(n.right, pr);
      MinNodeIn(pr, n.right);
      n.item, n.count := temp.item, temp.count;
      assert Holds(pl, n.left) && TreeOf(pl) == old(TreeOf(pl));
      assert Holds(pr, n.right) && TreeOf(pr) == old(TreeOf(pr));
      assert Holds(p, n);
      CountOne(temp, n.right, pr);
      assert Holds(pl, n.left) && TreeOf(pl) == old(TreeOf(pl));
      q := DeleteRight(n, temp.item, p);
    }

    method AvlInsert(item: Str)
      requires Valid() && item != []
      modifies this, Objects(plan)
      ensures Valid() && fresh(Objects(plan) - old(Objects(plan)))
      ensures T.Inserted(old(TreeOf(plan)), item, TreeOf(plan))
    {
      ghost var t := TreeOf(plan);
      T.InsertContent(t, item);
      T.IsNewCount(t, item);
      assert T.Total(T.Insert(t, item)) == T.Total(t) + 1;
      assert T.Nodes(T.Insert(t, item)) == T.Nodes(t) + T.One(T.IsNew(t, item));
      hide T.Insert, T.Shape, T.Search, T.Valid, T.Inserted, T.IsNew, T.Count, T.Total, T.Nodes;
      root, plan := Update(root, item, plan);
    }

    lemma ValidSearch()
      requires Valid()
      ensures Holds(plan, root) && T.Search(TreeOf(plan))
    {
    }

    // avl_exists: the item's count, found in as many comparisons as T.PathShort bounds.
    method AvlExists(item: Str) returns (count: nat, ghost steps: nat)
      requires Valid() && item != []
      ensures count == T.Count(TreeOf(plan), item)
      ensures steps == T.Path(TreeOf(plan), item)
    {
      hide T.Shape, T.Nodes, T.Total, T.Search, T.Count, T.Path, T.Cmp;
      T.SearchEnds(item);
      ValidSearch();
      var n := root;
      ghost var p := plan;
      steps := 0;
      while n != null
        invariant Holds(p, n) && T.Search(TreeOf(p))
        invariant T.Count(TreeOf(p), item) == T.Count(TreeOf(plan), item)
        invariant steps + T.Path(TreeOf(p), item) == T.Path(TreeOf(plan), item)
        decreases p
      {
        T.SearchStep(TreeOf(p), item);
        PlanShape(p);
        steps := steps + 1;
        var d := T.Cmp(item, n.item);
        if d == 0 {
          return n.count, steps;
        }
        if 0 > d {
          n, p := n.left, p.left;
        } else {
          n, p := n.right, p.right;
        }
      }
      count := 0;
    }

    // avl_delete keeps its copy of the count in 32 bits: Low32 is what its two
    // tests see.  The counter of distinct items goes wrong exactly when a count
    // other than 1 looks like 1.
    method AvlDelete(item: Str)
      requires Valid() && item != []
      requires Low32(T.Count(TreeOf(plan), item)) != 0
      modifies this, Objects(plan)
      ensures Holds(plan, root) && T.Shape(TreeOf(plan)) && Objects(plan) <= old(Objects(plan))
      ensures T.Deleted(old(TreeOf(plan)), item, TreeOf(plan))
      ensures items == T.Total(TreeOf(plan))
      ensures Valid() <==>
              (Low32(old(T.Count(TreeOf(plan), item))) == 1 ==> old(T.Count(TreeOf(plan), item)) == 1)
    {
      hide T.Shape, T.Search, T.Count, T.Total, T.Nodes, T.Deleted, T.Cmp;
      ghost var t := TreeOf(plan);
      assert allocated(Objects(plan));
      var c, _ := AvlExists(item);
      assert TreeOf(plan) == t && Holds(plan, root);
      var count := Low32(c);
      Counted(t, item);
      items := items - 1;
      if count == 1 {
        unique := unique - 1;
      }
      DeleteRoot(item);
      T.DeletedSearch(t, item, TreeOf(plan));
    }

    // avl->state->root = delete(avl, avl->state->root, item)
    method DeleteRoot(item: Str)
      requires Holds(plan, root) && T.Valid(TreeOf(plan))
      modifies this`root, this`plan, Objects(plan)
      ensures Holds(plan, root) && T.Shape(TreeOf(plan)) && Objects(plan) <= old(Objects(plan))
      ensures T.Deleted(old(TreeOf(plan)), item, TreeOf(plan))
    {
      hide T.Delete, T.Deleted, T.Shape, T.Search, Objects, Holds, TreeOf;
      T.DeleteContent(TreeOf(plan), item);
      root, plan := Delete(root, item, plan);
    }

    // avl_traverse: what the callback is given, in order.
    method AvlTraverse() returns (visited: seq<(Str, nat)>)
      requires Valid()
      ensures visited == T.InOrder(TreeOf(plan))
    {
      visited := Traverse(root, plan, []);
    }
  }

  // What deleting an item that is there does to the totals.
  lemma Counted(t: T.Tree, item: Str)
    requires T.Search(t) && T.Count(t, item) > 0
    ensures T.Total(t) > 0 && T.Nodes(t) > 0
    ensures forall r {:trigger T.Deleted(t, item, r)} :: T.Deleted(t, item, r) ==>
      T.Total(r) == T.Total(t) - 1 && T.Nodes(r) == T.Nodes(t) - T.One(T.Count(t, item) == 1)
  {
  }

  function Low32(c: nat): (r: nat)
    ensures r < 0x1_0000_0000 && (c - r) % 0x1_0000_0000 == 0
  {
    c % 0x1_0000_0000
  }

  // Trees on which the cut count misleads avl_delete arise: one item, inserted
  // 2^32 + 1 times.
  function Repeated(x: Str, n: nat): (t: T.Tree)
    ensures T.Valid(t)
  {
    if n == 0 then T.Nil else T.InsertContent(Repeated(x, n - 1), x); T.Insert(Repeated(x, n - 1), x)
  }

  lemma {:induction false} RepeatedIs(x: Str, n: nat)
    ensures Repeated(x, n) == if n == 0 then T.Nil else T.Node(T.Nil, x, n, 0, T.Nil)
  {
    if n == 0 {
    } else {
      RepeatedIs(x, n - 1);
      T.CmpOrder(x, x);
    }
  }

  lemma CutCountMisleads(x: Str)
    ensures var t := Repeated(x, 0x1_0000_0001);
      Low32(T.Count(t, x)) == 1 && T.Count(t, x) != 1
  {
    RepeatedIs(x, 0x1_0000_0001);
    T.CmpOrder(x, x);
  }

  method Traverse(n: Node?, ghost p: Plan, before: seq<(Str, nat)>) returns (after: seq<(Str, nat)>)
    requires Holds(p, n)
    ensures after == before + T.InOrder(TreeOf(p))
    decreases p
  {
    after := before;
    if n != null {
      assert allocated(Objects(p)) && allocated(Objects(p.right));
      ghost var l, r, t := p.left, p.right, TreeOf(p);
      after := Traverse(n.left, l, after);
      assert TreeOf(p) == t && Holds(p, n) && Holds(r, n.right);
      after := after + [(n.item, n.count)];
      ghost var mid := after;
      after := Traverse(n.right, r, after);
      assert TreeOf(p) == t && TreeOf(r) == t.right;
      assert after == before + (T.InOrder(t.left) + [(n.item, n.count)] + T.InOrder(t.right));
    }
  }

  // The end of update on the left: the rotation the comparison picks, and the depth.
  method SettleLeft(n: Node, item: Str, ghost p: Plan) returns (r: Node, ghost q: Plan)
    requires Holds(p, n)
    requires var t := TreeOf(p); t.Node? && (1 < T.Abs(T.Balance(t)) ==>
      t.left.Node? && (T.Cmp(item, t.left.item) < 0 || t.left.right.Node?))
    modifies Objects(p)
    ensures Holds(q, r) && Objects(q) == Objects(p)
    ensures TreeOf(q) == T.SettleLeft(old(TreeOf(p)), item)
  {
    hide T.RotateLeft, T.RotateRight, T.RotateLeftRight, T.RotateRightLeft;
    BalanceOf(p, n);
    PlanShape(p);
    r, q := n, p;
    if 1 < T.Abs(Balance(n)) {
      if 0 > T.Cmp(item, n.left.item) {
        r, q := RotateRight(n, p);
      } else {
        PlanShape(p.left);
        r, q := RotateLeftRight(n, p);
      }
    }
    SetDepth(r, q);
  }

  method SettleRight(n: Node, item: Str, ghost p: Plan) returns (r: Node, ghost q: Plan)
    requires Holds(p, n)
    requires var t := TreeOf(p); t.Node? && (1 < T.Abs(T.Balance(t)) ==>
      t.right.Node? && (0 < T.Cmp(item, t.right.item) || t.right.left.Node?))
    modifies Objects(p)
    ensures Holds(q, r) && Objects(q) == Objects(p)
    ensures TreeOf(q) == T.SettleRight(old(TreeOf(p)), item)
  {
    hide T.RotateLeft, T.RotateRight, T.RotateLeftRight, T.RotateRightLeft;
    BalanceOf(p, n);
    PlanShape(p);
    r, q := n, p;
    if 1 < T.Abs(Balance(n)) {
      if 0 < T.Cmp(item, n.right.item) {
        r, q := RotateLeft(n, p);
      } else {
        PlanShape(p.right);
        r, q := RotateRightLeft(n, p);
      }
    }
    SetDepth(r, q);
  }
}
