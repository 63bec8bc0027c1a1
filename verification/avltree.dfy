// The AVL multiset of project-3/avl.c on values: what its recursive functions
// compute, and why that keeps a balanced search tree with exact depths.
module AvlTree {
  import opened Bytes

  type Str = Bytes

  // strcmp on NUL-terminated strings, as the difference of the first bytes that differ.
  function Cmp(a: Str, b: Str): int {
    if a == [] then (if b == [] then 0 else -1)
    else if b == [] then 1
    else if a[0] != b[0] then a[0] - b[0]
    else Cmp(a[1..], b[1..])
  }

  predicate Less(a: Str, b: Str) {
    Cmp(a, b) < 0
  }

  lemma {:induction false} CmpOrder(a: Str, b: Str)
    ensures Cmp(a, b) == 0 <==> a == b
    ensures Cmp(b, a) == -Cmp(a, b)
  {
    if a == [] || b == [] || a[0] != b[0] {
    } else {
      CmpOrder(a[1..], b[1..]);
      assert a == [a[0]] + a[1..] && b == [b[0]] + b[1..];
    }
  }

  lemma {:induction false} LessTrans(a: Str, b: Str, c: Str)
    requires Less(a, b) && Less(b, c)
    ensures Less(a, c)
  {
    if a == [] || a[0] != b[0] || b[0] != c[0] {
    } else {
      LessTrans(a[1..], b[1..], c[1..]);
    }
  }

  // The order is that of a dictionary: a proper prefix is less, and otherwise the first
  // byte that differs decides.
  lemma {:induction false} LessLexical(a: Str, b: Str)
    ensures Less(a, b) <==>
      || a < b
      || exists i :: 0 <= i < |a| && i < |b| && a[..i] == b[..i] && a[i] < b[i]
  {
    if a == [] || b == [] {
    } else if a[0] != b[0] {
      assert a[..0] == b[..0];
      forall i | 0 < i < |a| && i < |b|
        ensures a[..i] != b[..i]
      {
        assert a[..i][0] != b[..i][0];
      }
    } else {
      LessLexical(a[1..], b[1..]);
      assert a == [a[0]] + a[1..] && b == [b[0]] + b[1..];
      forall i | 0 < i < |a| && i < |b|
        ensures a[..i] == b[..i] <==> a[1..][..i - 1] == b[1..][..i - 1]
      {
        assert a[..i] == [a[0]] + a[1..][..i - 1] && b[..i] == [b[0]] + b[1..][..i - 1];
      }
    }
  }

  datatype Tree = Nil | Node(left: Tree, item: Str, count: nat, depth: int, right: Tree)

  // ------------------------------------------------------- depths and rotations

  function Delta(t: Tree): int {
    if t.Nil? then -1 else t.depth
  }

  function Balance(t: Tree): int
    requires t.Node?
  {
    Delta(t.left) - Delta(t.right)
  }

  function Depth(a: Tree, b: Tree): int {
    if Delta(a) > Delta(b) then Delta(a) + 1 else Delta(b) + 1
  }

  function Height(t: Tree): int {
    if t.Nil? then -1
    else 1 + if Height(t.left) > Height(t.right) then Height(t.left) else Height(t.right)
  }

  // Every stored depth is right and every node is balanced.
  ghost predicate Shape(t: Tree): (ok: bool)
    ensures ok ==> Delta(t) >= if t.Nil? then -1 else 0
  {
    t.Node? ==>
      && Shape(t.left) && Shape(t.right)
      && t.depth == Depth(t.left, t.right)
      && -1 <= Balance(t) <= 1
  }

  lemma {:induction false} DepthIsHeight(t: Tree)
    requires Shape(t)
    ensures Delta(t) == Height(t) >= -1
  {
    if t.Nil? {
    } else {
      DepthIsHeight(t.left);
      DepthIsHeight(t.right);
    }
  }

  function RotateRight(t: Tree): (r: Tree)
    requires t.Node? && t.left.Node?
    ensures r.Node?
  {
    var root := t.left;
    var node := t.(left := root.right, depth := Depth(root.right, t.right));
    root.(right := node, depth := Depth(root.left, node))
  }

  function RotateLeft(t: Tree): (r: Tree)
    requires t.Node? && t.right.Node?
    ensures r.Node?
  {
    var root := t.right;
    var node := t.(right := root.left, depth := Depth(t.left, root.left));
    root.(left := node, depth := Depth(root.right, node))
  }

  function RotateLeftRight(t: Tree): (r: Tree)
    requires t.Node? && t.left.Node? && t.left.right.Node?
    ensures r.Node?
  {
    RotateRight(t.(left := RotateLeft(t.left)))
  }

  function RotateRightLeft(t: Tree): (r: Tree)
    requires t.Node? && t.right.Node? && t.right.left.Node?
    ensures r.Node?
  {
    RotateLeft(t.(right := RotateRight(t.right)))
  }

  // A node two deeper on one side, whose deeper child leans the same way or not
  // at all: one rotation; leaning the other way: two.
  lemma RightFixes(t: Tree)
    requires t.Node? && Shape(t.left) && Shape(t.right) && Balance(t) == 2
    ensures t.left.Node? && (Balance(t.left) == -1 ==> t.left.right.Node?)
    ensures var r := if Balance(t.left) >= 0 then RotateRight(t) else RotateLeftRight(t);
      && Shape(r) && r.depth == Depth(r.left, r.right)
      && Delta(r) == Delta(t.left) + if Balance(t.left) == 0 then 1 else 0
  {
    if Balance(t.left) < 0 {
      var l := RotateLeft(t.left);
      var r := RotateRight(t.(left := l));
      assert Shape(r.left) && Shape(r.right);
    }
  }

  lemma LeftFixes(t: Tree)
    requires t.Node? && Shape(t.left) && Shape(t.right) && Balance(t) == -2
    ensures t.right.Node? && (Balance(t.right) == 1 ==> t.right.left.Node?)
    ensures var r := if Balance(t.right) <= 0 then RotateLeft(t) else RotateRightLeft(t);
      && Shape(r) && r.depth == Depth(r.left, r.right)
      && Delta(r) == Delta(t.right) + if Balance(t.right) == 0 then 1 else 0
  {
    if Balance(t.right) > 0 {
      var q := RotateRight(t.right);
      var r := RotateLeft(t.(right := q));
      assert Shape(r.left) && Shape(r.right);
    }
  }

  function Abs(i: int): nat {
    if i < 0 then -i else i
  }

  // ------------------------------------------------------------------- insertion

  // The item an insertion that made a non-empty tree deeper went past: the root
  // is the old one, and the side the comparison chose is the deeper one now.
  ghost predicate GrewOn(t: Tree, x: Str, r: Tree) {
    t.Node? && r.Node? && r.item == t.item && Cmp(x, t.item) != 0 &&
    Balance(r) == if Cmp(x, t.item) < 0 then 1 else -1
  }

  // The end of update after the left child changed: the comparison of the new
  // item with the child's picks the rotation, if one is due.
  function SettleLeft(n: Tree, x: Str): (r: Tree)
    requires n.Node?
    requires 1 < Abs(Balance(n)) ==> n.left.Node? && (Cmp(x, n.left.item) < 0 || n.left.right.Node?)
    ensures r.Node?
  {
    var m := if 1 < Abs(Balance(n)) then
               if Cmp(x, n.left.item) < 0 then RotateRight(n) else RotateLeftRight(n)
             else n;
    m.(depth := Depth(m.left, m.right))
  }

  function SettleRight(n: Tree, x: Str): (r: Tree)
    requires n.Node?
    requires 1 < Abs(Balance(n)) ==> n.right.Node? && (0 < Cmp(x, n.right.item) || n.right.left.Node?)
    ensures r.Node?
  {
    var m := if 1 < Abs(Balance(n)) then
               if 0 < Cmp(x, n.right.item) then RotateLeft(n) else RotateRightLeft(n)
             else n;
    m.(depth := Depth(m.left, m.right))
  }

  // What the recursive call promises about the tree it returns.
  ghost predicate Grown(t: Tree, x: Str, r: Tree) {
    && Shape(r) && r.Node?
    && Delta(t) <= Delta(r) <= Delta(t) + 1
    && (t.Node? && Delta(r) > Delta(t) ==> GrewOn(t, x, r))
  }

  lemma SettleLeftGrown(t: Tree, x: Str, l: Tree)
    requires Shape(t) && t.Node? && Cmp(x, t.item) < 0 && Grown(t.left, x, l)
    ensures var n := t.(left := l);
      && (1 < Abs(Balance(n)) ==> n.left.Node? && (Cmp(x, n.left.item) < 0 || n.left.right.Node?))
      && Grown(t, x, SettleLeft(n, x))
  {
    var n := t.(left := l);
    if 1 < Abs(Balance(n)) {
      RightFixes(n);
    }
  }

  lemma SettleRightGrown(t: Tree, x: Str, q: Tree)
    requires Shape(t) && t.Node? && Cmp(x, t.item) > 0 && Grown(t.right, x, q)
    ensures var n := t.(right := q);
      && (1 < Abs(Balance(n)) ==> n.right.Node? && (0 < Cmp(x, n.right.item) || n.right.left.Node?))
      && Grown(t, x, SettleRight(n, x))
  {
    var n := t.(right := q);
    if 1 < Abs(Balance(n)) {
      LeftFixes(n);
    }
  }

  // update
  function Insert(t: Tree, x: Str): (r: Tree)
    requires Shape(t)
    ensures Grown(t, x, r)
  {
    if t.Nil? then Node(Nil, x, 1, 0, Nil)
    else if Cmp(x, t.item) == 0 then
      t.(count := t.count + 1, depth := Depth(t.left, t.right))
    else if Cmp(x, t.item) < 0 then
      var l := Insert(t.left, x);
      SettleLeftGrown(t, x, l);
      SettleLeft(t.(left := l), x)
    else
      var q := Insert(t.right, x);
      SettleRightGrown(t, x, q);
      SettleRight(t.(right := q), x)
  }

  // -------------------------------------------------------------------- deletion

  function Nodes(t: Tree): nat {
    if t.Nil? then 0 else 1 + Nodes(t.left) + Nodes(t.right)
  }

  // find_min
  function Min(t: Tree): (m: Tree)
    requires t.Node?
    ensures m.Node? && m.left.Nil?
  {
    if t.left.Nil? then t else Min(t.left)
  }

  // temp->count = 1
  function MinToOne(t: Tree): (r: Tree)
    requires t.Node? && Shape(t)
    ensures r.Node? && Shape(r) && Delta(r) == Delta(t) && Nodes(r) == Nodes(t)
    ensures Min(r).item == Min(t).item && Min(r).count == 1
  {
    if t.left.Nil? then t.(count := 1) else t.(left := MinToOne(t.left))
  }

  // The last part of delete: depth, then one of four rebalancings.
  function Rebalance(t: Tree): (r: Tree)
    requires t.Node? && Shape(t.left) && Shape(t.right) && -2 <= Balance(t) <= 2
    ensures Shape(r) && r.Node?
    ensures Depth(t.left, t.right) - 1 <= Delta(r) <= Depth(t.left, t.right)
    ensures -1 <= Balance(t) <= 1 ==> Delta(r) == Depth(t.left, t.right)
  {
    var n := t.(depth := Depth(t.left, t.right));
    if Balance(n) > 1 then
      RightFixes(n);
      if Balance(n.left) >= 0 then RotateRight(n) else RotateLeftRight(n)
    else if Balance(n) < -1 then
      LeftFixes(n);
      if Balance(n.right) <= 0 then RotateLeft(n) else RotateRightLeft(n)
    else n
  }

  function Delete(t: Tree, x: Str): (r: Tree)
    requires Shape(t)
    ensures Shape(r)
    ensures Delta(t) - 1 <= Delta(r) <= Delta(t)
    decreases Nodes(t)
  {
    if t.Nil? then t
    else if Cmp(x, t.item) < 0 then Rebalance(t.(left := Delete(t.left, x)))
    else if Cmp(x, t.item) > 0 then Rebalance(t.(right := Delete(t.right, x)))
    else if t.count > 1 then Rebalance(t.(count := t.count - 1))
    else if t.left.Nil? then t.right
    else if t.right.Nil? then t.left
    else
      var m := Min(t.right);
      Rebalance(t.(item := m.item, count := m.count, right := Delete(MinToOne(t.right), m.item)))
  }

  // ------------------------------------------------- the multiset a tree holds

  // How often item y is in the tree.
  function Count(t: Tree, y: Str): nat {
    if t.Nil? then 0
    else Count(t.left, y) + (if t.item == y then t.count else 0) + Count(t.right, y)
  }

  function Total(t: Tree): nat {
    if t.Nil? then 0 else Total(t.left) + t.count + Total(t.right)
  }

  ghost predicate AllLess(t: Tree, b: Str) {
    forall y :: Count(t, y) > 0 ==> Less(y, b)
  }

  ghost predicate AllMore(t: Tree, b: Str) {
    forall y :: Count(t, y) > 0 ==> Less(b, y)
  }

  ghost predicate Search(t: Tree) {
    t.Node? ==>
      && t.count > 0 && Search(t.left) && Search(t.right)
      && AllLess(t.left, t.item) && AllMore(t.right, t.item)
  }

  // A tree of project-3/avl.c: balanced, exact depths, ordered, positive counts.
  ghost predicate Valid(t: Tree) {
    Shape(t) && Search(t)
  }

  // An item not equal to the root's is counted on one side only.
  lemma CountSides(t: Tree, y: Str)
    requires t.Node? && Search(t)
    ensures Cmp(y, t.item) <= 0 ==> Count(t.right, y) == 0
    ensures Cmp(y, t.item) >= 0 ==> Count(t.left, y) == 0
    ensures Cmp(y, t.item) == 0 <==> y == t.item
  {
    CmpOrder(y, t.item);
  }

  // ----------------------------------------------------- rotations keep all this

  ghost predicate SameContent(t: Tree, r: Tree) {
    && Search(r) && Nodes(r) == Nodes(t) && Total(r) == Total(t)
    && (forall y :: Count(r, y) == Count(t, y))
  }

  lemma SameTrans(t: Tree, m: Tree, r: Tree)
    requires SameContent(t, m) && SameContent(m, r)
    ensures SameContent(t, r)
  {
  }

  // Replacing a child by one of the same content.
  lemma SameLeft(t: Tree, l: Tree)
    requires t.Node? && Search(t) && SameContent(t.left, l)
    ensures SameContent(t, t.(left := l))
  {
  }

  lemma SameRight(t: Tree, q: Tree)
    requires t.Node? && Search(t) && SameContent(t.right, q)
    ensures SameContent(t, t.(right := q))
  {
  }

  lemma RotateRightContent(t: Tree)
    requires t.Node? && t.left.Node? && Search(t)
    ensures SameContent(t, RotateRight(t))
  {
    var l, r := t.left, RotateRight(t);
    assert Count(l, l.item) > 0;
    forall y
      ensures Count(r.right, y) == Count(l.right, y) + (if t.item == y then t.count else 0) + Count(t.right, y)
      ensures Count(r, y) == Count(t, y)
      ensures Count(r.right, y) > 0 ==> Less(l.item, y)
    {
      if Count(t.right, y) > 0 {
        LessTrans(l.item, t.item, y);
      }
    }
    assert AllLess(l.right, t.item) by {
      forall y | Count(l.right, y) > 0
        ensures Less(y, t.item)
      {
        assert Count(l, y) > 0;
      }
    }
  }

  lemma RotateLeftContent(t: Tree)
    requires t.Node? && t.right.Node? && Search(t)
    ensures SameContent(t, RotateLeft(t))
  {
    var q, r := t.right, RotateLeft(t);
    assert Count(q, q.item) > 0;
    forall y
      ensures Count(r.left, y) == Count(t.left, y) + (if t.item == y then t.count else 0) + Count(q.left, y)
      ensures Count(r, y) == Count(t, y)
      ensures Count(r.left, y) > 0 ==> Less(y, q.item)
    {
      if Count(t.left, y) > 0 {
        LessTrans(y, t.item, q.item);
      }
    }
    assert AllMore(q.left, t.item) by {
      forall y | Count(q.left, y) > 0
        ensures Less(t.item, y)
      {
        assert Count(q, y) > 0;
      }
    }
  }

  lemma RotateLeftRightContent(t: Tree)
    requires t.Node? && t.left.Node? && t.left.right.Node? && Search(t)
    ensures SameContent(t, RotateLeftRight(t))
  {
    hide Search, SameContent, RotateRight, RotateLeft;
    ChildrenSearch(t);
    RotateLeftContent(t.left);
    var m := t.(left := RotateLeft(t.left));
    SameLeft(t, RotateLeft(t.left));
    SameSearch(t, m);
    RotateRightContent(m);
    SameTrans(t, m, RotateRight(m));
  }

  lemma RotateRightLeftContent(t: Tree)
    requires t.Node? && t.right.Node? && t.right.left.Node? && Search(t)
    ensures SameContent(t, RotateRightLeft(t))
  {
    hide Search, SameContent, RotateRight, RotateLeft;
    ChildrenSearch(t);
    RotateRightContent(t.right);
    var m := t.(right := RotateRight(t.right));
    SameRight(t, RotateRight(t.right));
    SameSearch(t, m);
    RotateLeftContent(m);
    SameTrans(t, m, RotateLeft(m));
  }

  lemma ChildrenSearch(t: Tree)
    requires t.Node? && Search(t)
    ensures Search(t.left) && Search(t.right)
  {
  }

  lemma SameSearch(t: Tree, r: Tree)
    requires SameContent(t, r)
    ensures Search(r)
  {
  }

  lemma SameDepth(t: Tree, d: int)
    requires t.Node? && Search(t)
    ensures SameContent(t, t.(depth := d))
  {
  }

  lemma RebalanceContent(t: Tree)
    requires t.Node? && Shape(t.left) && Shape(t.right) && -2 <= Balance(t) <= 2 && Search(t)
    ensures SameContent(t, Rebalance(t))
  {
    hide Search, SameContent, Shape;
    var n := t.(depth := Depth(t.left, t.right));
    SameDepth(t, Depth(t.left, t.right));
    SameSearch(t, n);
    if Balance(n) > 1 {
      RightFixes(n);
      if Balance(n.left) >= 0 {
        RotateRightContent(n);
      } else {
        BalanceRange(n.left);
        RotateLeftRightContent(n);
      }
      SameTrans(t, n, Rebalance(t));
    } else if Balance(n) < -1 {
      LeftFixes(n);
      if Balance(n.right) <= 0 {
        RotateLeftContent(n);
      } else {
        BalanceRange(n.right);
        RotateRightLeftContent(n);
      }
      SameTrans(t, n, Rebalance(t));
    }
  }

  lemma BalanceRange(t: Tree)
    requires Shape(t) && t.Node?
    ensures -1 <= Balance(t) <= 1 && Shape(t.left) && Shape(t.right)
  {
  }

  // ------------------------------------------------------------ insertion, whole

  function One(b: bool): nat {
    if b then 1 else 0
  }

  ghost predicate Inserted(t: Tree, x: Str, r: Tree) {
    && Search(r)
    && (forall y :: Count(r, y) == Count(t, y) + One(y == x))
    && Nodes(r) == Nodes(t) + One(Count(t, x) == 0)
    && Total(r) == Total(t) + 1
  }

  // The root with a child the item was inserted into, before any rotation.
  lemma InsertLeft(t: Tree, x: Str, l: Tree)
    requires Search(t) && t.Node? && Less(x, t.item) && Inserted(t.left, x, l)
    ensures Inserted(t, x, t.(left := l))
  {
    var r := t.(left := l);
    CountSides(t, x);
    assert AllLess(l, t.item) by {
      forall y | Count(l, y) > 0
        ensures Less(y, t.item)
      {
        assert Count(l, y) == Count(t.left, y) + One(y == x);
      }
    }
    assert Search(r);
    hide Search, Less;
    assert Count(t, x) == Count(t.left, x);
    forall y
      ensures Count(r, y) == Count(t, y) + One(y == x)
    {
      assert Count(l, y) == Count(t.left, y) + One(y == x);
    }
  }

  lemma InsertRight(t: Tree, x: Str, q: Tree)
    requires Search(t) && t.Node? && Less(t.item, x) && Inserted(t.right, x, q)
    ensures Inserted(t, x, t.(right := q))
  {
    var r := t.(right := q);
    CmpOrder(t.item, x);
    CountSides(t, x);
    assert AllMore(q, t.item) by {
      forall y | Count(q, y) > 0
        ensures Less(t.item, y)
      {
        assert Count(q, y) == Count(t.right, y) + One(y == x);
      }
    }
    assert Search(r);
    hide Search, Less;
    assert Count(t, x) == Count(t.right, x);
    forall y
      ensures Count(r, y) == Count(t, y) + One(y == x)
    {
      assert Count(q, y) == Count(t.right, y) + One(y == x);
    }
  }

  lemma InsertedIntro(t: Tree, x: Str, r: Tree)
    requires Search(r)
    requires forall y :: Count(r, y) == Count(t, y) + One(y == x)
    requires Nodes(r) == Nodes(t) + One(Count(t, x) == 0)
    requires Total(r) == Total(t) + 1
    ensures Inserted(t, x, r)
  {
  }

  lemma InsertHere(t: Tree, d: int)
    requires Search(t) && t.Node?
    ensures Inserted(t, t.item, t.(count := t.count + 1, depth := d))
  {
    var r := t.(count := t.count + 1, depth := d);
    assert Search(r);
    hide Search, Less, Inserted;
    assert Count(t, t.item) > 0;
    InsertedIntro(t, t.item, r);
  }

  lemma InsertedThen(t: Tree, x: Str, n: Tree, r: Tree)
    requires Inserted(t, x, n) && SameContent(n, r)
    ensures Inserted(t, x, r)
  {
  }

  lemma InsertedSearch(t: Tree, x: Str, n: Tree)
    requires Inserted(t, x, n)
    ensures Search(n)
  {
  }

  // The rotation that update makes, or none, keeps what the child gained.
  lemma InsertSettle(t: Tree, x: Str, n: Tree, m: Tree)
    requires Inserted(t, x, n) && n.Node?
    requires m == n
      || (n.left.Node? && m == RotateRight(n))
      || (n.left.Node? && n.left.right.Node? && m == RotateLeftRight(n))
      || (n.right.Node? && m == RotateLeft(n))
      || (n.right.Node? && n.right.left.Node? && m == RotateRightLeft(n))
    ensures m.Node? && Inserted(t, x, m.(depth := Depth(m.left, m.right)))
  {
    hide Search, Inserted, SameContent, Count, RotateRight, RotateLeft, RotateLeftRight, RotateRightLeft;
    InsertedSearch(t, x, n);
    if m != n {
      if n.left.Node? && m == RotateRight(n) {
        RotateRightContent(n);
      } else if n.left.Node? && n.left.right.Node? && m == RotateLeftRight(n) {
        RotateLeftRightContent(n);
      } else if n.right.Node? && m == RotateLeft(n) {
        RotateLeftContent(n);
      } else {
        RotateRightLeftContent(n);
      }
      InsertedThen(t, x, n, m);
      InsertedSearch(t, x, m);
    }
    SameDepth(m, Depth(m.left, m.right));
    InsertedThen(t, x, m, m.(depth := Depth(m.left, m.right)));
  }

  // update on any valid tree keeps it one and adds exactly one occurrence of
  // the item, and no other item's count changes.
  lemma {:induction false} InsertContent(t: Tree, x: Str)
    requires Valid(t)
    ensures Valid(Insert(t, x)) && Inserted(t, x, Insert(t, x))
  {
    if t.Nil? {
      assert Inserted(t, x, Node(Nil, x, 1, 0, Nil));
    } else {
      CmpOrder(x, t.item);
      BalanceRange(t);
      ChildrenSearch(t);
      hide Search, Inserted, SameContent, Shape, Count, RotateRight, RotateLeft, RotateLeftRight, RotateRightLeft;
      if Cmp(x, t.item) == 0 {
        InsertHere(t, Depth(t.left, t.right));
      } else if Cmp(x, t.item) < 0 {
        InsertContent(t.left, x);
        var l := Insert(t.left, x);
        var n := t.(left := l);
        InsertLeft(t, x, l);
        if 1 < Abs(Balance(n)) {
          RightFixes(n);
          InsertSettle(t, x, n, if Cmp(x, l.item) < 0 then RotateRight(n) else RotateLeftRight(n));
        } else {
          InsertSettle(t, x, n, n);
        }
      } else {
        InsertContent(t.right, x);
        var q := Insert(t.right, x);
        var n := t.(right := q);
        InsertRight(t, x, q);
        if 1 < Abs(Balance(n)) {
          LeftFixes(n);
          InsertSettle(t, x, n, if 0 < Cmp(x, q.item) then RotateLeft(n) else RotateRightLeft(n));
        } else {
          InsertSettle(t, x, n, n);
        }
      }
      InsertedSearch(t, x, Insert(t, x));
    }
  }

  // ------------------------------------------------------------- deletion, whole

  ghost predicate Deleted(t: Tree, x: Str, r: Tree) {
    && Search(r)
    && (forall y :: Count(r, y) == Count(t, y) - One(y == x && Count(t, x) > 0))
    && Nodes(r) == Nodes(t) - One(Count(t, x) == 1)
    && Total(r) == Total(t) - One(Count(t, x) > 0)
  }

  lemma DeletedIntro(t: Tree, x: Str, r: Tree)
    requires Search(r)
    requires forall y :: Count(r, y) == Count(t, y) - One(y == x && Count(t, x) > 0)
    requires Nodes(r) == Nodes(t) - One(Count(t, x) == 1)
    requires Total(r) == Total(t) - One(Count(t, x) > 0)
    ensures Deleted(t, x, r)
  {
  }

  lemma DeleteLeft(t: Tree, x: Str, l: Tree)
    requires Search(t) && t.Node? && Less(x, t.item) && Deleted(t.left, x, l)
    ensures Deleted(t, x, t.(left := l))
  {
    var r := t.(left := l);
    CountSides(t, x);
    assert AllLess(l, t.item) by {
      forall y | Count(l, y) > 0
        ensures Less(y, t.item)
      {
        assert Count(l, y) <= Count(t.left, y);
      }
    }
    assert Search(r);
    assert Nodes(l) == Nodes(t.left) - One(Count(t.left, x) == 1);
    assert Total(l) == Total(t.left) - One(Count(t.left, x) > 0);
    hide Search, Less, Deleted;
    assert Count(t, x) == Count(t.left, x);
    DeletedIntro(t, x, r);
  }

  lemma DeleteRight(t: Tree, x: Str, q: Tree)
    requires Search(t) && t.Node? && Less(t.item, x) && Deleted(t.right, x, q)
    ensures Deleted(t, x, t.(right := q))
  {
    var r := t.(right := q);
    CmpOrder(t.item, x);
    CountSides(t, x);
    assert AllMore(q, t.item) by {
      forall y | Count(q, y) > 0
        ensures Less(t.item, y)
      {
        assert Count(q, y) <= Count(t.right, y);
      }
    }
    assert Search(r);
    assert Nodes(q) == Nodes(t.right) - One(Count(t.right, x) == 1);
    assert Total(q) == Total(t.right) - One(Count(t.right, x) > 0);
    hide Search, Less, Deleted;
    assert Count(t, x) == Count(t.right, x);
    DeletedIntro(t, x, r);
  }

  lemma DeleteOne(t: Tree)
    requires Search(t) && t.Node? && t.count > 1
    ensures Deleted(t, t.item, t.(count := t.count - 1))
  {
    var r := t.(count := t.count - 1);
    assert Search(r);
    hide Search, Less, Deleted;
    DeletedIntro(t, t.item, r);
  }

  // A node with one child or none gives way to that child.
  lemma DeleteSplice(t: Tree)
    requires Search(t) && t.Node? && t.count == 1 && (t.left.Nil? || t.right.Nil?)
    ensures Deleted(t, t.item, if t.left.Nil? then t.right else t.left)
  {
    var r := if t.left.Nil? then t.right else t.left;
    CmpOrder(t.item, t.item);
    CountSides(t, t.item);
    forall y
      ensures Count(r, y) == Count(t, y) - One(y == t.item)
    {
    }
    DeletedIntro(t, t.item, r);
  }

  // find_min finds the least item, with its full count.
  lemma {:induction false} MinLeast(t: Tree)
    requires Search(t) && t.Node?
    ensures Count(t, Min(t).item) == Min(t).count > 0
    ensures forall y :: Count(t, y) > 0 ==> y == Min(t).item || Less(Min(t).item, y)
  {
    var m := Min(t).item;
    if t.left.Node? {
      MinLeast(t.left);
      CmpOrder(m, t.item);
      CountSides(t, m);
      forall y | Count(t, y) > 0
        ensures y == m || Less(m, y)
      {
        if Count(t.left, y) == 0 && y != t.item {
          LessTrans(m, t.item, y);
        }
      }
    } else {
      CmpOrder(m, m);
      CountSides(t, m);
    }
  }

  lemma {:induction false} MinToOneContent(t: Tree)
    requires Shape(t) && Search(t) && t.Node?
    ensures Search(MinToOne(t))
    ensures forall y :: Count(MinToOne(t), y) == if y == Min(t).item then 1 else Count(t, y)
    ensures Total(MinToOne(t)) == Total(t) - Min(t).count + 1
  {
    var r, m := MinToOne(t), Min(t).item;
    MinLeast(t);
    if t.left.Node? {
      MinLeast(t.left);
      CmpOrder(m, t.item);
      CountSides(t, m);
      MinToOneContent(t.left);
      var l := MinToOne(t.left);
      forall y
        ensures Count(l, y) > 0 ==> Count(t.left, y) > 0
        ensures Count(r, y) == if y == m then 1 else Count(t, y)
      {
      }
    } else {
      CmpOrder(m, m);
      CountSides(t, m);
    }
  }

  // The root takes over its successor's item and full count, and one remaining
  // occurrence of that item is deleted from the right subtree.
  lemma DeleteSuccessor(t: Tree, d: Tree)
    requires Shape(t) && Search(t) && t.Node? && t.count == 1 && t.right.Node?
    requires Deleted(MinToOne(t.right), Min(t.right).item, d)
    ensures Deleted(t, t.item, t.(item := Min(t.right).item, count := Min(t.right).count, right := d))
  {
    var q, m := t.right, Min(t.right);
    var r := t.(item := m.item, count := m.count, right := d);
    MinLeast(q);
    MinToOneContent(q);
    CmpOrder(t.item, t.item);
    CountSides(t, t.item);
    forall y
      ensures Count(d, y) == if y == m.item then 0 else Count(q, y)
    {
    }
    forall y | Count(t.left, y) > 0
      ensures Less(y, m.item)
    {
      LessTrans(y, t.item, m.item);
    }
    assert Search(r);
    hide Search, Less, Deleted;
    forall y
      ensures Count(r, y) == Count(t, y) - One(y == t.item)
    {
    }
    DeletedIntro(t, t.item, r);
  }

  lemma DeletedThen(t: Tree, x: Str, n: Tree, r: Tree)
    requires Deleted(t, x, n) && SameContent(n, r)
    ensures Deleted(t, x, r)
  {
  }

  lemma DeletedSearch(t: Tree, x: Str, n: Tree)
    requires Deleted(t, x, n)
    ensures Search(n)
  {
  }

  // delete on any valid tree keeps it one and removes exactly one occurrence of
  // the item if there is any, and no other item's count changes.
  lemma {:induction false} DeleteContent(t: Tree, x: Str)
    requires Valid(t)
    ensures Valid(Delete(t, x)) && Deleted(t, x, Delete(t, x))
    decreases Nodes(t)
  {
    if t.Nil? {
      assert Deleted(t, x, t);
    } else {
      CmpOrder(x, t.item);
      BalanceRange(t);
      ChildrenSearch(t);
      CountPositive(t);
      hide Search, Deleted, SameContent, Shape, Count;
      var n := t;
      if Cmp(x, t.item) < 0 {
        DeleteContent(t.left, x);
        n := t.(left := Delete(t.left, x));
        DeleteLeft(t, x, Delete(t.left, x));
      } else if Cmp(x, t.item) > 0 {
        DeleteContent(t.right, x);
        n := t.(right := Delete(t.right, x));
        DeleteRight(t, x, Delete(t.right, x));
      } else if t.count > 1 {
        n := t.(count := t.count - 1);
        DeleteOne(t);
      } else if t.left.Nil? || t.right.Nil? {
        DeleteSplice(t);
        DeletedSearch(t, x, Delete(t, x));
        return;
      } else {
        MinToOneContent(t.right);
        var m, d := Min(t.right), Delete(MinToOne(t.right), Min(t.right).item);
        DeleteContent(MinToOne(t.right), m.item);
        n := t.(item := m.item, count := m.count, right := d);
        DeleteSuccessor(t, d);
      }
      DeletedSearch(t, x, n);
      RebalanceContent(n);
      DeletedThen(t, x, n, Rebalance(n));
      DeletedSearch(t, x, Rebalance(n));
    }
  }

  lemma CountPositive(t: Tree)
    requires Search(t) && t.Node?
    ensures t.count > 0
  {
  }

  // Wherever update rotates, comparing the new item with the child's item, which
  // it never equals, points at the child's deeper side.
  lemma RotationChoice(t: Tree, x: Str)
    requires Shape(t) && t.Node?
    ensures Cmp(x, t.item) < 0 && Delta(Insert(t.left, x)) - Delta(t.right) > 1 ==>
      var l := Insert(t.left, x);
      Cmp(x, l.item) != 0 && (Cmp(x, l.item) < 0 <==> Balance(l) == 1) && -1 <= Balance(l) <= 1
    ensures Cmp(x, t.item) > 0 && Delta(Insert(t.right, x)) - Delta(t.left) > 1 ==>
      var q := Insert(t.right, x);
      Cmp(x, q.item) != 0 && (Cmp(x, q.item) > 0 <==> Balance(q) == -1) && -1 <= Balance(q) <= 1
  {
    BalanceRange(t);
    if Cmp(x, t.item) < 0 && Delta(Insert(t.left, x)) - Delta(t.right) > 1 {
      assert GrewOn(t.left, x, Insert(t.left, x));
    } else if Cmp(x, t.item) > 0 && Delta(Insert(t.right, x)) - Delta(t.left) > 1 {
      assert GrewOn(t.right, x, Insert(t.right, x));
    }
  }

  // ---------------------------------------------------------------- how deep it is

  function Fib(n: nat): nat {
    if n < 2 then n else Fib(n - 2) + Fib(n - 1)
  }

  lemma {:induction false} FibMono(m: nat, n: nat)
    requires m <= n
    ensures Fib(m) <= Fib(n)
    decreases n - m
  {
    if m < n {
      FibMono(m + 1, n);
    }
  }

  // A valid tree of depth d has at least Fib(d + 3) - 1 nodes.
  lemma {:induction false} ManyNodes(t: Tree)
    requires Shape(t)
    ensures Nodes(t) + 1 >= Fib(Delta(t) + 3)
  {
    if t.Nil? {
    } else {
      BalanceRange(t);
      ManyNodes(t.left);
      ManyNodes(t.right);
      FibMono(t.depth + 1, Delta(t.left) + 3);
      FibMono(t.depth + 1, Delta(t.right) + 3);
    }
  }

  // The items compared by avl_exists on its way down.
  function Path(t: Tree, x: Str): nat {
    if t.Nil? then 0
    else if Cmp(x, t.item) == 0 then 1
    else 1 + if Cmp(x, t.item) < 0 then Path(t.left, x) else Path(t.right, x)
  }

  lemma {:induction false} PathShort(t: Tree, x: Str)
    requires Shape(t)
    ensures Path(t, x) <= Delta(t) + 1
    ensures Fib(Path(t, x) + 2) <= Nodes(t) + 1
  {
    ManyNodes(t);
    FibMono(0, 2);
    if t.Nil? {
      FibMono(2, Delta(t) + 3);
    } else {
      BalanceRange(t);
      hide Fib, Shape, Cmp;
      if Cmp(x, t.item) < 0 {
        PathShort(t.left, x);
      } else if Cmp(x, t.item) > 0 {
        PathShort(t.right, x);
      }
      FibMono(Path(t, x) + 2, Delta(t) + 3);
    }
  }

  // One turn of avl_exists.
  lemma SearchStep(t: Tree, x: Str)
    requires t.Node? && Search(t)
    ensures Search(t.left) && Search(t.right)
    ensures var d := Cmp(x, t.item);
      var s := if d < 0 then t.left else t.right;
      if d == 0 then Count(t, x) == t.count && Path(t, x) == 1
      else Count(t, x) == Count(s, x) && Path(t, x) == 1 + Path(s, x)
  {
    CountSides(t, x);
  }

  lemma SearchEnds(x: Str)
    ensures Count(Nil, x) == 0 && Path(Nil, x) == 0
  {
  }

  function Pow2(n: nat): (p: nat)
    ensures p > 0
  {
    if n == 0 then 1 else 2 * Pow2(n - 1)
  }

  // It is exponential.
  lemma {:induction false} Pow2Sums(m: nat, n: nat)
    ensures Pow2(m + n) == Pow2(m) * Pow2(n) && Pow2(1) == 2
  {
    if m > 0 {
      Pow2Sums(m - 1, n);
    }
  }

  lemma {:induction false} FibExponential(n: nat)
    ensures Fib(n + 2) >= Pow2(n / 2)
  {
    if n < 2 {
      assert Fib(2) == 1 && Fib(3) == 2;
    } else {
      FibExponential(n - 2);
      FibMono(n, n + 1);
      assert Fib(n + 2) == Fib(n + 1) + Fib(n);
    }
  }

  // The steps of a search are at most twice the binary logarithm of the number of
  // distinct items, plus a constant.
  lemma Logarithmic(t: Tree, x: Str)
    requires Shape(t)
    ensures Pow2(Path(t, x) / 2) <= Nodes(t) + 1
  {
    PathShort(t, x);
    FibExponential(Path(t, x));
  }

  // ------------------------------------------------------------------- traversal

  // What traverse hands to its callback, in order.
  function InOrder(t: Tree): seq<(Str, nat)> {
    if t.Nil? then [] else InOrder(t.left) + [(t.item, t.count)] + InOrder(t.right)
  }

  lemma {:induction false} InOrderCounts(t: Tree, i: nat)
    requires Search(t) && i < |InOrder(t)|
    ensures Count(t, InOrder(t)[i].0) == InOrder(t)[i].1 > 0
  {
    var n := |InOrder(t.left)|;
    if i < n {
      InOrderCounts(t.left, i);
      CountSides(t, InOrder(t.left)[i].0);
    } else if i == n {
      CmpOrder(t.item, t.item);
      CountSides(t, t.item);
    } else {
      InOrderCounts(t.right, i - n - 1);
      assert InOrder(t)[i] == InOrder(t.right)[i - n - 1];
      CmpOrder(t.item, InOrder(t)[i].0);
      CountSides(t, InOrder(t)[i].0);
    }
  }

  // Each distinct item once, with its count, in increasing order.
  lemma {:induction false} InOrderSorted(t: Tree, i: nat, j: nat)
    requires Search(t) && i < j < |InOrder(t)|
    ensures Less(InOrder(t)[i].0, InOrder(t)[j].0)
  {
    var n := |InOrder(t.left)|;
    if j < n {
      InOrderSorted(t.left, i, j);
    } else if i > n {
      InOrderSorted(t.right, i - n - 1, j - n - 1);
    } else {
      if i < n {
        InOrderCounts(t.left, i);
        assert InOrder(t)[i] == InOrder(t.left)[i];
      }
      if j > n {
        InOrderCounts(t.right, j - n - 1);
        assert InOrder(t)[j] == InOrder(t.right)[j - n - 1];
      }
      if i < n < j {
        LessTrans(InOrder(t)[i].0, t.item, InOrder(t)[j].0);
      }
    }
  }

  // The same in terms of the bytes.
  lemma InOrderLexical(t: Tree, i: nat, j: nat)
    requires Search(t) && i < j < |InOrder(t)|
    ensures var a, b := InOrder(t)[i].0, InOrder(t)[j].0;
      || a < b
      || exists k :: 0 <= k < |a| && k < |b| && a[..k] == b[..k] && a[k] < b[k]
  {
    InOrderSorted(t, i, j);
    LessLexical(InOrder(t)[i].0, InOrder(t)[j].0);
  }

  lemma {:induction false} InOrderLength(t: Tree)
    ensures |InOrder(t)| == Nodes(t)
  {
    if t.Nil? {
    } else {
      InOrderLength(t.left);
      InOrderLength(t.right);
    }
  }

  // Whether update allocates a node: the search for the item ends at NULL.
  function IsNew(t: Tree, x: Str): bool {
    t.Node? ==> Cmp(x, t.item) != 0 && if Cmp(x, t.item) < 0 then IsNew(t.left, x) else IsNew(t.right, x)
  }

  lemma {:induction false} IsNewCount(t: Tree, x: Str)
    requires Search(t)
    ensures IsNew(t, x) <==> Count(t, x) == 0
  {
    if t.Nil? {
    } else {
      CountSides(t, x);
      IsNewCount(t.left, x);
      IsNewCount(t.right, x);
    }
  }

  // One unfolding of update on either side.
  lemma InsertUnfolds(t: Tree, x: Str)
    requires Shape(t) && t.Node?
    ensures Shape(t.left) && Shape(t.right)
    ensures Cmp(x, t.item) < 0 ==> var n := t.(left := Insert(t.left, x));
      && (1 < Abs(Balance(n)) ==> n.left.Node? && (Cmp(x, n.left.item) < 0 || n.left.right.Node?))
      && Insert(t, x) == SettleLeft(n, x) && (IsNew(t, x) <==> IsNew(t.left, x))
    ensures Cmp(x, t.item) > 0 ==> var n := t.(right := Insert(t.right, x));
      && (1 < Abs(Balance(n)) ==> n.right.Node? && (0 < Cmp(x, n.right.item) || n.right.left.Node?))
      && Insert(t, x) == SettleRight(n, x) && (IsNew(t, x) <==> IsNew(t.right, x))
  {
    BalanceRange(t);
    if Cmp(x, t.item) < 0 {
      SettleLeftGrown(t, x, Insert(t.left, x));
    } else if Cmp(x, t.item) > 0 {
      SettleRightGrown(t, x, Insert(t.right, x));
    }
  }

  // One unfolding of delete, up to the rebalancing.
  lemma DeleteUnfolds(t: Tree, x: Str)
    requires Shape(t) && t.Node?
    ensures Shape(t.left) && Shape(t.right)
    ensures Cmp(x, t.item) < 0 ==>
      Rebalances(t.(left := Delete(t.left, x)), Delete(t, x))
    ensures Cmp(x, t.item) > 0 ==>
      Rebalances(t.(right := Delete(t.right, x)), Delete(t, x))
    ensures Cmp(x, t.item) == 0 && t.count > 1 ==> Rebalances(t.(count := t.count - 1), Delete(t, x))
    ensures Cmp(x, t.item) == 0 && t.count <= 1 ==>
      && (t.left.Nil? ==> Delete(t, x) == t.right)
      && (t.left.Node? && t.right.Nil? ==> Delete(t, x) == t.left)
      && (t.left.Node? && t.right.Node? ==>
           var m := Min(t.right);
           Rebalances(t.(item := m.item, count := m.count, right := Delete(MinToOne(t.right), m.item)), Delete(t, x)))
  {
    BalanceRange(t);
  }

  ghost predicate Rebalances(n: Tree, r: Tree) {
    && n.Node? && Shape(n.left) && Shape(n.right) && -2 <= Balance(n) <= 2
    && r == Rebalance(n)
  }
}
