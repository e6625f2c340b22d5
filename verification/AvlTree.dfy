// The mutable AVL tree: nodes rewired in place, balance and count fields updated as the
// recursion unwinds. Every operation is proved to act on the tree's value as the functions
// of AvlShape do.
module AvlTree {
  import opened CString
  import opened AvlShape
  import opened AvlTable
  import opened Wrappers

  class AvlNode {
    var balance: int
    var key: CStr
    var data: Pointer
    var left: AvlNode?
    var right: AvlNode?

    constructor (key: CStr, data: Pointer)
      ensures this.key == key && this.data == data && balance == 0 && left == null && right == null
    {
      this.balance, this.key, this.data, this.left, this.right := 0, key, data, null, null;
    }
  }

  // Which node sits where, and what its fields hold.
  datatype Shape = Nil | Cell(self: AvlNode, left: Shape, bal: int, key: CStr, data: Pointer, right: Shape)

  ghost function Nodes(s: Shape): set<AvlNode> {
    match s
    case Nil => {}
    case Cell(n, l, _, _, _, r) => {n} + Nodes(l) + Nodes(r)
  }

  ghost function Root(s: Shape): AvlNode? {
    if s.Nil? then null else s.self
  }

  ghost function Value(s: Shape): (t: Tree)
    ensures t.Node? <==> s.Cell?
  {
    match s
    case Nil => Leaf
    case Cell(_, l, b, k, d, r) => Node(Value(l), b, k, d, Value(r))
  }

  // The heap really holds this shape: a tree, no node shared.
  ghost predicate Valid(s: Shape)
    reads Nodes(s)
  {
    match s
    case Nil => true
    case Cell(n, l, b, k, d, r) =>
      && n.left == Root(l) && n.right == Root(r)
      && n.balance == b && n.key == k && n.data == d
      && n !in Nodes(l) && n !in Nodes(r) && Nodes(l) !! Nodes(r)
      && Valid(l) && Valid(r)
  }

  // ---------------------------------------------------------------- rotations

  method RotateRight(a: AvlNode, ghost s: Shape) returns (b: AvlNode, ghost s': Shape)
    requires Valid(s) && Root(s) == a && s.right.Cell? && Value(s).right.Node?
    modifies a, s.right.self
    ensures Valid(s') && Root(s') == b && Nodes(s') == Nodes(s)
    ensures Value(s') == RightRotation(Value(s))
  {
    b := a.right;
    a.right := b.left;
    b.left := a;
    b.balance := b.balance - 1;
    a.balance := -b.balance;
    s' := Cell(b, Cell(a, s.left, a.balance, a.key, a.data, s.right.left), b.balance, b.key, b.data, s.right.right);
  }

  method RotateLeft(a: AvlNode, ghost s: Shape) returns (b: AvlNode, ghost s': Shape)
    requires Valid(s) && Root(s) == a && s.left.Cell? && Value(s).left.Node?
    modifies a, s.left.self
    ensures Valid(s') && Root(s') == b && Nodes(s') == Nodes(s)
    ensures Value(s') == LeftRotation(Value(s))
  {
    b := a.left;
    a.left := b.right;
    b.right := a;
    b.balance := b.balance + 1;
    a.balance := -b.balance;
    s' := Cell(b, s.left.left, b.balance, b.key, b.data, Cell(a, s.left.right, a.balance, a.key, a.data, s.right));
  }

  // The shape after a double rotation: b takes over the left half, a the right half.
  ghost function LeftRightShape(s: Shape): (r: Shape)
    requires s.Cell? && s.left.Cell? && s.left.right.Cell?
    requires Value(s).left.Node? && Value(s).left.right.Node?
    ensures Value(r) == LeftRightRotation(Value(s)) && Nodes(r) == Nodes(s)
  {
    var b, c := s.left, s.left.right;
    assert Value(b).right == Value(c);
    assert Nodes(b) == {b.self} + Nodes(b.left) + Nodes(c) && Nodes(c) == {c.self} + Nodes(c.left) + Nodes(c.right);
    Cell(c.self,
         Cell(b.self, b.left, if c.bal < 0 then 0 else -c.bal, b.key, b.data, c.left), 0, c.key, c.data,
         Cell(s.self, c.right, if c.bal > 0 then 0 else -c.bal, s.key, s.data, s.right))
  }

  ghost function RightLeftShape(s: Shape): (r: Shape)
    requires s.Cell? && s.right.Cell? && s.right.left.Cell?
    requires Value(s).right.Node? && Value(s).right.left.Node?
    ensures Value(r) == RightLeftRotation(Value(s)) && Nodes(r) == Nodes(s)
  {
    var b, c := s.right, s.right.left;
    assert Value(b).left == Value(c);
    assert Nodes(b) == {b.self} + Nodes(c) + Nodes(b.right) && Nodes(c) == {c.self} + Nodes(c.left) + Nodes(c.right);
    Cell(c.self,
         Cell(s.self, s.left, if c.bal < 0 then 0 else -c.bal, s.key, s.data, c.left), 0, c.key, c.data,
         Cell(b.self, c.right, if c.bal > 0 then 0 else -c.bal, b.key, b.data, b.right))
  }

  ghost predicate Outside(n: AvlNode, v: set<AvlNode>, w: set<AvlNode>, x: set<AvlNode>, y: set<AvlNode>) {
    n !in v && n !in w && n !in x && n !in y
  }

  // Three nodes and four subtrees, nothing in two places.
  ghost predicate Spread(a: AvlNode, b: AvlNode, c: AvlNode, v: set<AvlNode>, w: set<AvlNode>, x: set<AvlNode>, y: set<AvlNode>) {
    && a != b && a != c && b != c && Outside(a, v, w, x, y) && Outside(b, v, w, x, y) && Outside(c, v, w, x, y)
    && v !! w && v !! x && v !! y && w !! x && w !! y && x !! y
  }

  lemma SpreadLeftRight(s: Shape)
    requires Valid(s) && s.Cell? && s.left.Cell? && s.left.right.Cell?
    ensures Spread(s.self, s.left.self, s.left.right.self, Nodes(s.left.left), Nodes(s.left.right.left), Nodes(s.left.right.right), Nodes(s.right))
  {
    var bs, cs := s.left, s.left.right;
    assert Valid(bs) && Valid(cs) && Nodes(bs) == {bs.self} + Nodes(bs.left) + Nodes(cs);
  }

  lemma SpreadRightLeft(s: Shape)
    requires Valid(s) && s.Cell? && s.right.Cell? && s.right.left.Cell?
    ensures Spread(s.self, s.right.self, s.right.left.self, Nodes(s.left), Nodes(s.right.left.left), Nodes(s.right.left.right), Nodes(s.right.right))
  {
    var bs, cs := s.right, s.right.left;
    assert Valid(bs) && Valid(cs) && Nodes(bs) == {bs.self} + Nodes(cs) + Nodes(bs.right);
  }

  // Each of two nodes with two of the subtrees.
  lemma Halves(a: AvlNode, b: AvlNode, c: AvlNode, v: set<AvlNode>, w: set<AvlNode>, x: set<AvlNode>, y: set<AvlNode>,
               m: set<AvlNode>, n: set<AvlNode>)
    requires Spread(a, b, c, v, w, x, y)
    requires (m == {a} + x + y && n == {b} + v + w) || (m == {a} + v + w && n == {b} + x + y)
    ensures b !in m && c !in m && c !in n && m !! n
  {
  }

  // Gives a node new children and a new balance.
  method Rehang(n: AvlNode, l: AvlNode?, r: AvlNode?, balance: int, ghost ls: Shape, ghost rs: Shape) returns (ghost s: Shape)
    requires Valid(ls) && Valid(rs) && Root(ls) == l && Root(rs) == r
    requires n !in Nodes(ls) && n !in Nodes(rs) && Nodes(ls) !! Nodes(rs)
    modifies n`left, n`right, n`balance
    ensures s == Cell(n, ls, balance, n.key, n.data, rs) && Valid(s) && Nodes(s) == {n} + Nodes(ls) + Nodes(rs)
  {
    n.left, n.right, n.balance := l, r, balance;
    s := Cell(n, ls, balance, n.key, n.data, rs);
  }

  method RotateLeftRight(a: AvlNode, ghost s: Shape, ghost fp: set<AvlNode>) returns (c: AvlNode, ghost s': Shape)
    requires Valid(s) && Root(s) == a && Nodes(s) == fp && s.left.Cell? && s.left.right.Cell?
    requires Value(s).left.Node? && Value(s).left.right.Node?
    modifies a, s.left.self, s.left.right.self
    ensures Valid(s') && Root(s') == c && Nodes(s') == Nodes(s)
    ensures Value(s') == LeftRightRotation(Value(s))
  {
    SpreadLeftRight(s);
    ghost var bs, cs, l, r := s.left, s.left.right, Nil, Nil;
    assert Valid(bs) && Valid(cs);
    var b := a.left;
    c := b.right;
    r := Rehang(a, c.right, a.right, if c.balance > 0 then 0 else -c.balance, cs.right, s.right);
    ghost var m, n := {a} + Nodes(cs.right) + Nodes(s.right), {b} + Nodes(bs.left) + Nodes(cs.left);
    Halves(a, b, c, Nodes(bs.left), Nodes(cs.left), Nodes(cs.right), Nodes(s.right), m, n);
    l := Rehang(b, b.left, c.left, if c.balance < 0 then 0 else -c.balance, bs.left, cs.left);
    s' := Rehang(c, b, a, 0, l, r);
    LeftRightIs(s, bs, cs, l, r, s');
  }

  lemma LeftRightIs(s: Shape, bs: Shape, cs: Shape, l: Shape, r: Shape, s': Shape)
    requires s.Cell? && bs == s.left && bs.Cell? && cs == bs.right && cs.Cell? && Value(s).left.Node? && Value(s).left.right.Node?
    requires l == Cell(bs.self, bs.left, if cs.bal < 0 then 0 else -cs.bal, bs.key, bs.data, cs.left)
    requires r == Cell(s.self, cs.right, if cs.bal > 0 then 0 else -cs.bal, s.key, s.data, s.right)
    requires s' == Cell(cs.self, l, 0, cs.key, cs.data, r)
    ensures Value(s') == LeftRightRotation(Value(s)) && Nodes(s') == Nodes(s)
  {
    assert s' == LeftRightShape(s);
  }

  method RotateRightLeft(a: AvlNode, ghost s: Shape, ghost fp: set<AvlNode>) returns (c: AvlNode, ghost s': Shape)
    requires Valid(s) && Root(s) == a && Nodes(s) == fp && s.right.Cell? && s.right.left.Cell?
    requires Value(s).right.Node? && Value(s).right.left.Node?
    modifies a, s.right.self, s.right.left.self
    ensures Valid(s') && Root(s') == c && Nodes(s') == Nodes(s)
    ensures Value(s') == RightLeftRotation(Value(s))
  {
    SpreadRightLeft(s);
    ghost var bs, cs, l, r := s.right, s.right.left, Nil, Nil;
    assert Valid(bs) && Valid(cs);
    var b := a.right;
    c := b.left;
    l := Rehang(a, a.left, c.left, if c.balance < 0 then 0 else -c.balance, s.left, cs.left);
    ghost var m, n := {a} + Nodes(s.left) + Nodes(cs.left), {b} + Nodes(cs.right) + Nodes(bs.right);
    Halves(a, b, c, Nodes(s.left), Nodes(cs.left), Nodes(cs.right), Nodes(bs.right), m, n);
    r := Rehang(b, c.right, b.right, if c.balance > 0 then 0 else -c.balance, cs.right, bs.right);
    s' := Rehang(c, a, b, 0, l, r);
    RightLeftIs(s, bs, cs, l, r, s');
  }

  lemma RightLeftIs(s: Shape, bs: Shape, cs: Shape, l: Shape, r: Shape, s': Shape)
    requires s.Cell? && bs == s.right && bs.Cell? && cs == bs.left && cs.Cell? && Value(s).right.Node? && Value(s).right.left.Node?
    requires l == Cell(s.self, s.left, if cs.bal < 0 then 0 else -cs.bal, s.key, s.data, cs.left)
    requires r == Cell(bs.self, cs.right, if cs.bal > 0 then 0 else -cs.bal, bs.key, bs.data, bs.right)
    requires s' == Cell(cs.self, l, 0, cs.key, cs.data, r)
    ensures Value(s') == RightLeftRotation(Value(s)) && Nodes(s') == Nodes(s)
  {
    assert s' == RightLeftShape(s);
  }

  // ---------------------------------------------------------------- rebalancing

  // The children of a tilted node that the rotations dereference do exist.
  lemma HeavyChild(s: Shape)
    requires Tilted(Value(s)) && (s.bal == 2 || s.bal == -2)
    ensures s.bal == 2 ==> s.right.Cell? && s.right.bal == Value(s).right.bal
    ensures s.bal == 2 && s.right.bal < 0 ==> s.right.left.Cell? && Value(s).right.left.Node?
    ensures s.bal == -2 ==> s.left.Cell? && s.left.bal == Value(s).left.bal
    ensures s.bal == -2 && s.left.bal > 0 ==> s.left.right.Cell? && Value(s).left.right.Node?
  {
    if s.bal == 2 {
      assert Value(s).right == Value(s.right);
    } else {
      assert Value(s).left == Value(s.left);
    }
  }

  method LiftRightNode(node: AvlNode, limit: int, ghost s: Shape) returns (top: AvlNode, ghost s': Shape)
    requires Valid(s) && Root(s) == node
    requires Tilted(Value(s)) && s.bal == 2 && (limit == 0 || (limit == 1 && Value(s).right.bal != 0))
    modifies Nodes(s)
    ensures Valid(s') && Root(s') == top && Nodes(s') == Nodes(s)
    ensures Value(s') == LiftRight(Value(s), limit)
  {
    HeavyChild(s);
    if node.right.balance >= limit {
      top, s' := RotateRight(node, s);
    } else {
      top, s' := RotateRightLeft(node, s, Nodes(s));
    }
  }

  method LiftLeftNode(node: AvlNode, limit: int, ghost s: Shape) returns (top: AvlNode, ghost s': Shape)
    requires Valid(s) && Root(s) == node
    requires Tilted(Value(s)) && s.bal == -2 && (limit == 0 || (limit == -1 && Value(s).left.bal != 0))
    modifies Nodes(s)
    ensures Valid(s') && Root(s') == top && Nodes(s') == Nodes(s)
    ensures Value(s') == LiftLeft(Value(s), limit)
  {
    HeavyChild(s);
    if node.left.balance <= limit {
      top, s' := RotateLeft(node, s);
    } else {
      top, s' := RotateLeftRight(node, s, Nodes(s));
    }
  }

  // A node whose left subtree has been rewritten to `l` and is to be hung in again.
  ghost predicate OpenLeft(node: AvlNode, l: Shape, s: Shape)
    reads {node} + Nodes(l) + if s.Cell? then Nodes(s.right) else {}
  {
    && s.Cell? && s.self == node && Valid(l) && Valid(s.right)
    && node.right == Root(s.right) && node.balance == s.bal && node.key == s.key && node.data == s.data
    && node !in Nodes(l) && node !in Nodes(s.right) && Nodes(l) !! Nodes(s.right)
  }

  ghost predicate OpenRight(node: AvlNode, r: Shape, s: Shape)
    reads {node} + Nodes(r) + if s.Cell? then Nodes(s.left) else {}
  {
    && s.Cell? && s.self == node && Valid(r) && Valid(s.left)
    && node.left == Root(s.left) && node.balance == s.bal && node.key == s.key && node.data == s.data
    && node !in Nodes(r) && node !in Nodes(s.left) && Nodes(s.left) !! Nodes(r)
  }

  method SetLeft(node: AvlNode, child: AvlNode?, ghost l: Shape, ghost s: Shape) returns (ghost s': Shape)
    requires OpenLeft(node, l, s) && Root(l) == child
    modifies node`left
    ensures s' == s.(left := l) && Valid(s') && Value(s).Node? && Value(s') == Value(s).(left := Value(l))
    ensures Nodes(s') == {node} + Nodes(l) + Nodes(s.right)
  {
    node.left := child;
    s' := s.(left := l);
  }

  method SetRight(node: AvlNode, child: AvlNode?, ghost r: Shape, ghost s: Shape) returns (ghost s': Shape)
    requires OpenRight(node, r, s) && Root(r) == child
    modifies node`right
    ensures s' == s.(right := r) && Valid(s') && Value(s).Node? && Value(s') == Value(s).(right := Value(r))
    ensures Nodes(s') == {node} + Nodes(s.left) + Nodes(r)
  {
    node.right := child;
    s' := s.(right := r);
  }

  // The switch statements after a recursive call reported "changed". The result says whether
  // the change goes on upwards; the source's "Invalid balance" default is never reached.

  // What the node looks like then: its balance field is one behind.
  ghost predicate CanGrowLeft(t: Tree) {
    t.Node? && Tilted(t.(bal := t.bal - 1)) && t.bal <= 1 && (t.bal == -1 ==> t.left.bal != 0)
  }

  ghost predicate CanGrowRight(t: Tree) {
    t.Node? && Tilted(t.(bal := t.bal + 1)) && t.bal >= -1 && (t.bal == 1 ==> t.right.bal != 0)
  }

  ghost predicate CanShrinkLeft(t: Tree) {
    t.Node? && Tilted(t.(bal := t.bal + 1)) && t.bal >= -1
  }

  ghost predicate CanShrinkRight(t: Tree) {
    t.Node? && Tilted(t.(bal := t.bal - 1)) && t.bal <= 1
  }

  lemma GrowsLeft(t: Tree, l: Tree)
    requires t.Node? && Balanced(t) && Grown(t.left, l, true)
    ensures CanGrowLeft(t.(left := l))
  {
  }

  lemma InsertedLeft(o: Order, t: Tree, k: CStr, d: Pointer, l: Tree, changed: bool)
    requires t.Node? && Balanced(t) && Compare(o, k, t.key) < 0 && (l, changed) == AvlShape.Insert(o, t.left, k, d)
    ensures Search(o, t, k) == Search(o, t.left, k)
    ensures !changed ==> AvlShape.Insert(o, t, k, d) == (t.(left := l), false)
    ensures changed ==> CanGrowLeft(t.(left := l)) && AvlShape.Insert(o, t, k, d) == AfterLeftGrow(t.(left := l, bal := t.bal - 1))
  {
    if changed {
      GrowsLeft(t, l);
    }
  }

  lemma GrowsRight(t: Tree, r: Tree)
    requires t.Node? && Balanced(t) && Grown(t.right, r, true)
    ensures CanGrowRight(t.(right := r))
  {
  }

  lemma InsertedRight(o: Order, t: Tree, k: CStr, d: Pointer, r: Tree, changed: bool)
    requires t.Node? && Balanced(t) && Compare(o, k, t.key) > 0 && (r, changed) == AvlShape.Insert(o, t.right, k, d)
    ensures Search(o, t, k) == Search(o, t.right, k)
    ensures !changed ==> AvlShape.Insert(o, t, k, d) == (t.(right := r), false)
    ensures changed ==> CanGrowRight(t.(right := r)) && AvlShape.Insert(o, t, k, d) == AfterRightGrow(t.(right := r, bal := t.bal + 1))
  {
    if changed {
      GrowsRight(t, r);
    }
  }

  lemma ShrinksLeft(t: Tree, l: Tree)
    requires t.Node? && Balanced(t) && Shrunk(t.left, l, true)
    ensures CanShrinkLeft(t.(left := l))
  {
  }

  lemma DeletedLeft(o: Order, t: Tree, k: CStr, l: Tree, changed: bool)
    requires t.Node? && Balanced(t) && Compare(o, k, t.key) < 0 && (l, changed) == AvlShape.Delete(o, t.left, k)
    ensures Search(o, t, k) == Search(o, t.left, k)
    ensures !changed ==> AvlShape.Delete(o, t, k) == (t.(left := l), false)
    ensures changed ==> CanShrinkLeft(t.(left := l)) && AvlShape.Delete(o, t, k) == AfterLeftShrink(t.(left := l, bal := t.bal + 1))
  {
    if changed {
      ShrinksLeft(t, l);
    }
  }

  lemma ShrinksRight(t: Tree, r: Tree)
    requires t.Node? && Balanced(t) && Shrunk(t.right, r, true)
    ensures CanShrinkRight(t.(right := r))
  {
  }

  lemma DeletedRight(o: Order, t: Tree, k: CStr, r: Tree, changed: bool)
    requires t.Node? && Balanced(t) && Compare(o, k, t.key) > 0 && (r, changed) == AvlShape.Delete(o, t.right, k)
    ensures Search(o, t, k) == Search(o, t.right, k)
    ensures !changed ==> AvlShape.Delete(o, t, k) == (t.(right := r), false)
    ensures changed ==> CanShrinkRight(t.(right := r)) && AvlShape.Delete(o, t, k) == AfterRightShrink(t.(right := r, bal := t.bal - 1))
  {
    if changed {
      ShrinksRight(t, r);
    }
  }

  lemma DeletedInner(o: Order, t: Tree, k: CStr, t1: Tree, r: Tree, changed: bool)
    requires t.Node? && Balanced(t) && Compare(o, k, t.key) == 0 && t.left.Node? && t.right.Node?
    requires var e := Least(t.right); t1 == Node(t.left, t.bal, e.key, e.data, WithLeast(t.right, Entry(t.key, t.data)))
    requires (r, changed) == AvlShape.Delete(o, t1.right, k)
    ensures !changed ==> AvlShape.Delete(o, t, k) == (t1.(right := r), false)
    ensures changed ==> CanShrinkRight(t1.(right := r)) && AvlShape.Delete(o, t, k) == AfterRightShrink(t1.(right := r, bal := t1.bal - 1))
  {
  }

  method LeftGrew(node: AvlNode, ghost s: Shape) returns (top: AvlNode, changed: bool, ghost s': Shape)
    requires Valid(s) && Root(s) == node
    requires CanGrowLeft(Value(s))
    modifies Nodes(s)
    ensures Valid(s') && Root(s') == top && Nodes(s') == Nodes(s)
    ensures (Value(s'), changed) == AfterLeftGrow(Value(s).(bal := s.bal - 1))
  {
    node.balance := node.balance - 1;
    changed := node.balance != 0;
    top, s' := node, s.(bal := node.balance);
    if node.balance == -2 {
      top, s' := LiftLeftNode(node, -1, s');
      changed := false;
    } else if node.balance == 0 {
      changed := false;
    } else if node.balance != -1 {
      assert false;
    }
  }

  method RightGrew(node: AvlNode, ghost s: Shape) returns (top: AvlNode, changed: bool, ghost s': Shape)
    requires Valid(s) && Root(s) == node
    requires CanGrowRight(Value(s))
    modifies Nodes(s)
    ensures Valid(s') && Root(s') == top && Nodes(s') == Nodes(s)
    ensures (Value(s'), changed) == AfterRightGrow(Value(s).(bal := s.bal + 1))
  {
    node.balance := node.balance + 1;
    changed := node.balance != 0;
    top, s' := node, s.(bal := node.balance);
    if node.balance == 2 {
      top, s' := LiftRightNode(node, 1, s');
      changed := false;
    } else if node.balance == 0 {
      changed := false;
    } else if node.balance != 1 {
      assert false;
    }
  }

  method LeftShrank(node: AvlNode, ghost s: Shape) returns (top: AvlNode, changed: bool, ghost s': Shape)
    requires Valid(s) && Root(s) == node
    requires CanShrinkLeft(Value(s))
    modifies Nodes(s)
    ensures Valid(s') && Root(s') == top && Nodes(s') == Nodes(s)
    ensures (Value(s'), changed) == AfterLeftShrink(Value(s).(bal := s.bal + 1))
  {
    changed := true;
    node.balance := node.balance + 1;
    top, s' := node, s.(bal := node.balance);
    if node.balance == 1 {
      changed := false;
    } else if node.balance == 2 {
      top, s' := LiftRightNode(node, 0, s');
      if top.balance == -1 {
        changed := false;
      }
    } else if node.balance != 0 {
      assert false;
    }
  }

  method RightShrank(node: AvlNode, ghost s: Shape) returns (top: AvlNode, changed: bool, ghost s': Shape)
    requires Valid(s) && Root(s) == node
    requires CanShrinkRight(Value(s))
    modifies Nodes(s)
    ensures Valid(s') && Root(s') == top && Nodes(s') == Nodes(s)
    ensures (Value(s'), changed) == AfterRightShrink(Value(s).(bal := s.bal - 1))
  {
    changed := true;
    node.balance := node.balance - 1;
    top, s' := node, s.(bal := node.balance);
    if node.balance == -1 {
      changed := false;
    } else if node.balance == -2 {
      top, s' := LiftLeftNode(node, 0, s');
      if top.balance == 1 {
        changed := false;
      }
    } else if node.balance != 0 {
      assert false;
    }
  }

  // A subtree comes back from the recursion: hang it in and, when it changed height, rebalance.

  method HangGrownLeft(node: AvlNode, child: AvlNode?, changed: bool, ghost l: Shape, ghost s: Shape)
    returns (top: AvlNode, goesOn: bool, ghost s': Shape)
    requires OpenLeft(node, l, s) && Root(l) == child && Value(s).Node? && (changed ==> CanGrowLeft(Value(s).(left := Value(l))))
    modifies {node} + Nodes(l) + Nodes(s.right)
    ensures Valid(s') && Root(s') == top && Nodes(s') == {node} + Nodes(l) + Nodes(s.right)
    ensures !changed ==> Value(s') == Value(s).(left := Value(l)) && !goesOn
    ensures changed ==> (Value(s'), goesOn) == AfterLeftGrow(Value(s).(left := Value(l), bal := s.bal - 1))
  {
    s' := SetLeft(node, child, l, s);
    top, goesOn := node, false;
    if changed {
      top, goesOn, s' := LeftGrew(node, s');
    }
  }

  method HangGrownRight(node: AvlNode, child: AvlNode?, changed: bool, ghost r: Shape, ghost s: Shape)
    returns (top: AvlNode, goesOn: bool, ghost s': Shape)
    requires OpenRight(node, r, s) && Root(r) == child && Value(s).Node? && (changed ==> CanGrowRight(Value(s).(right := Value(r))))
    modifies {node} + Nodes(s.left) + Nodes(r)
    ensures Valid(s') && Root(s') == top && Nodes(s') == {node} + Nodes(s.left) + Nodes(r)
    ensures !changed ==> Value(s') == Value(s).(right := Value(r)) && !goesOn
    ensures changed ==> (Value(s'), goesOn) == AfterRightGrow(Value(s).(right := Value(r), bal := s.bal + 1))
  {
    s' := SetRight(node, child, r, s);
    top, goesOn := node, false;
    if changed {
      top, goesOn, s' := RightGrew(node, s');
    }
  }

  method HangShrunkLeft(node: AvlNode, child: AvlNode?, changed: bool, ghost l: Shape, ghost s: Shape)
    returns (top: AvlNode, goesOn: bool, ghost s': Shape)
    requires OpenLeft(node, l, s) && Root(l) == child && Value(s).Node? && (changed ==> CanShrinkLeft(Value(s).(left := Value(l))))
    modifies {node} + Nodes(l) + Nodes(s.right)
    ensures Valid(s') && Root(s') == top && Nodes(s') == {node} + Nodes(l) + Nodes(s.right)
    ensures !changed ==> Value(s') == Value(s).(left := Value(l)) && !goesOn
    ensures changed ==> (Value(s'), goesOn) == AfterLeftShrink(Value(s).(left := Value(l), bal := s.bal + 1))
  {
    s' := SetLeft(node, child, l, s);
    top, goesOn := node, false;
    if changed {
      top, goesOn, s' := LeftShrank(node, s');
    }
  }

  method HangShrunkRight(node: AvlNode, child: AvlNode?, changed: bool, ghost r: Shape, ghost s: Shape)
    returns (top: AvlNode, goesOn: bool, ghost s': Shape)
    requires OpenRight(node, r, s) && Root(r) == child && Value(s).Node? && (changed ==> CanShrinkRight(Value(s).(right := Value(r))))
    modifies {node} + Nodes(s.left) + Nodes(r)
    ensures Valid(s') && Root(s') == top && Nodes(s') == {node} + Nodes(s.left) + Nodes(r)
    ensures !changed ==> Value(s') == Value(s).(right := Value(r)) && !goesOn
    ensures changed ==> (Value(s'), goesOn) == AfterRightShrink(Value(s).(right := Value(r), bal := s.bal - 1))
  {
    s' := SetRight(node, child, r, s);
    top, goesOn := node, false;
    if changed {
      top, goesOn, s' := RightShrank(node, s');
    }
  }

  ghost function SetLeast(s: Shape, e: Entry): (r: Shape)
    requires s.Cell?
    ensures Value(r) == WithLeast(Value(s), e) && Nodes(r) == Nodes(s) && Root(r) == Root(s)
  {
    if s.left.Nil? then s.(key := e.key, data := e.data) else s.(left := SetLeast(s.left, e))
  }

  // One cell on the way down to `below`, whose nodes may be overwritten.
  ghost predicate OnPath(s: Shape, below: set<AvlNode>)
    reads if s.Cell? then {s.self} + Nodes(s.right) else {}
  {
    && s.Cell? && s.left.Cell? && below <= Nodes(s.left)
    && s.self.left == Root(s.left) && s.self.right == Root(s.right)
    && s.self.balance == s.bal && s.self.key == s.key && s.self.data == s.data
    && s.self !in Nodes(s.left) && s.self !in Nodes(s.right) && Nodes(s.left) !! Nodes(s.right)
    && Valid(s.right)
  }

  // The successor takes over the deleted entry: find the leftmost node of the right subtree,
  // hand out its contents and store the entry in its place.
  method SwapWithSuccessor(start: AvlNode, key: CStr, data: Pointer, ghost s: Shape)
    returns (succKey: CStr, succData: Pointer, ghost s': Shape)
    requires Valid(s) && Root(s) == start
    modifies Nodes(s)
    ensures Valid(s') && Root(s') == start && Nodes(s') == Nodes(s)
    ensures Value(s).Node? && Entry(succKey, succData) == Least(Value(s))
    ensures Value(s') == WithLeast(Value(s), Entry(key, data))
  {
    ghost var e := Entry(key, data);
    var succ := start;
    ghost var here, path := s, [];
    while succ.left != null
      invariant here.Cell? && Value(here).Node? && Valid(here) && Root(here) == succ
      invariant Value(s).Node? && Least(Value(here)) == Least(Value(s))
      invariant Nodes(here) <= Nodes(s)
      invariant forall p | p in path :: OnPath(p, Nodes(here))
      invariant forall i | 0 <= i < |path| :: path[i].Cell?
      invariant here == if path == [] then s else path[|path| - 1].left
      invariant path != [] ==> path[0] == s
      invariant forall i | 0 < i < |path| :: path[i] == path[i - 1].left
      decreases here
    {
      path := path + [here];
      succ, here := succ.left, here.left;
    }
    succKey, succData := succ.key, succ.data;
    succ.key, succ.data := key, data;
    s' := SetLeast(here, e);
    // Back up along the path, every cell finds its left subtree rewritten and the rest as it was.
    ghost var n, below := |path|, Nodes(here);
    while n > 0
      invariant 0 <= n <= |path|
      invariant forall p | p in path :: OnPath(p, below)
      invariant forall i | 0 <= i < |path| :: path[i].Cell?
      invariant here.Cell? && s' == SetLeast(here, e) && Valid(s')
      invariant here == if n == 0 then s else path[n - 1].left
    {
      n := n - 1;
      assert path[n] in path;
      here := path[n];
      s' := SetLeast(here, e);
    }
  }

  method TakeSuccessor(node: AvlNode, ghost s: Shape, ghost left: set<AvlNode>, ghost right: set<AvlNode>) returns (ghost s': Shape)
    requires Valid(s) && Root(s) == node && s.right.Cell? && Nodes(s.left) == left && Nodes(s.right) == right
    modifies {node} + right
    ensures Valid(s') && Root(s') == node && s'.left == s.left && Nodes(s'.right) == right
    ensures Value(s).right.Node?
    ensures var t, e := Value(s), Least(Value(s).right);
      Value(s') == Node(t.left, t.bal, e.key, e.data, WithLeast(t.right, Entry(t.key, t.data)))
  {
    var key, data;
    ghost var r;
    key, data, r := SwapWithSuccessor(node.right, node.key, node.data, s.right);
    assert Valid(s.left);
    node.key, node.data := key, data;
    s' := Cell(node, s.left, s.bal, key, data, r);
  }

  // A traversal has seen a prefix of the table and holds the entry behind it.
  ghost predicate Visiting(table: seq<Entry>, visited: seq<Entry>, key: Option<CStr>, data: Pointer) {
    && |visited| <= |table| && visited == table[..|visited|]
    && key == (if |visited| < |table| then Some(table[|visited|].key) else None)
    && (key.Some? ==> data == table[|visited|].data)
  }

  lemma VisitOne(o: Order, table: seq<Entry>, visited: seq<Entry>, key: Option<CStr>, data: Pointer)
    requires Sorted(o, table) && Visiting(table, visited, key, data) && key.Some?
    ensures var more, above := visited + [Entry(key.value, data)], Above(o, table, key.value);
      if above == None then more == table
      else Visiting(table, more, Some(above.value.key), above.value.data)
    ensures |visited| < |table| && (Above(o, table, key.value) == None ==> Visiting(table, table, None, 0))
  {
    AboveAt(o, table, |visited|);
    assert table[..|visited|] + [table[|visited|]] == table[..|visited| + 1];
    assert table[..|table|] == table;
  }

  lemma Inserted(o: Order, t: Tree, k: CStr, d: Pointer, u: Tree, changed: bool, present: bool)
    requires Balanced(t) && Sorted(o, InOrder(t)) && (u, changed) == AvlShape.Insert(o, t, k, d) && present == HasKey(o, InOrder(t), k)
    ensures Balanced(u) && Sorted(o, InOrder(u)) && InOrder(u) == With(o, InOrder(t), k, d)
    ensures |InOrder(u)| == |InOrder(t)| + (if present then 0 else 1) && Search(o, t, k).Some? == present
  {
    InsertEffect(o, t, k, d);
  }

  lemma Deleted(o: Order, t: Tree, k: CStr, u: Tree, changed: bool, present: bool)
    requires Balanced(t) && Sorted(o, InOrder(t)) && (u, changed) == AvlShape.Delete(o, t, k) && present == HasKey(o, InOrder(t), k)
    ensures Balanced(u) && Sorted(o, InOrder(u)) && InOrder(u) == Without(o, InOrder(t), k)
    ensures |InOrder(u)| == |InOrder(t)| - (if present then 1 else 0) && Search(o, t, k).Some? == present
  {
    DeleteEffect(o, t, k);
  }

  class AvlTree {
    const order: Order
    const paranoiac: bool
    var root: AvlNode?
    var count: int
    var savedKey: Option<CStr>
    ghost var shape: Shape
    ghost var nodes: set<AvlNode>

    ghost predicate Inv()
      reads this, nodes
    {
      && nodes == Nodes(shape) && Valid(shape) && Root(shape) == root
      && Balanced(Value(shape))
      && Sorted(order, Table())
      && count == |Table()|
    }

    ghost function Table(): seq<Entry>
      reads this
    {
      InOrder(Value(shape))
    }

    constructor (order: Order, paranoiac: bool)
      ensures Inv() && Table() == [] && nodes == {}
      ensures this.order == order && this.paranoiac == paranoiac
    {
      this.order, this.paranoiac := order, paranoiac;
      root, count, savedKey, shape, nodes := null, 0, None, Nil, {};
    }

    // Makes a rewritten shape the tree's own.
    method Adopt(top: AvlNode?, ghost s: Shape)
      requires Valid(s) && Root(s) == top && Balanced(Value(s)) && Sorted(order, InOrder(Value(s))) && count == |InOrder(Value(s))|
      modifies this`root, this`shape, this`nodes
      ensures Inv() && shape == s && nodes == Nodes(s)
    {
      root, shape, nodes := top, s, Nodes(s);
    }

    method InsertNode(node: AvlNode?, key: CStr, data: Pointer, ghost s: Shape, ghost fp: set<AvlNode>)
      returns (top: AvlNode, changed: bool, fatal: bool, ghost s': Shape)
      requires Valid(s) && Root(s) == node && Nodes(s) == fp && Balanced(Value(s))
      modifies this`count, Nodes(s)
      ensures Valid(s') && Root(s') == top && fresh(Nodes(s') - Nodes(s))
      ensures (Value(s'), changed) == AvlShape.Insert(order, Value(s), key, data)
      ensures count == old(count) + (if Search(order, Value(s), key).Some? then 0 else 1)
      ensures fatal <==> paranoiac && Search(order, Value(s), key).Some?
      decreases s, 1
    {
      if node == null {
        top := new AvlNode(key, data);
        s' := Cell(top, Nil, 0, key, data, Nil);
        count := count + 1;
        return top, true, false, s';
      }
      var compare := Compare(order, key, node.key);
      if compare < 0 {
        top, changed, fatal, s' := InsertLeft(node, key, data, s, fp);
      } else if compare > 0 {
        top, changed, fatal, s' := InsertRight(node, key, data, s, fp);
      } else {
        top, changed, fatal, s' := node, false, paranoiac, s;
      }
    }

    method InsertLeft(node: AvlNode, key: CStr, data: Pointer, ghost s: Shape, ghost fp: set<AvlNode>)
      returns (top: AvlNode, changed: bool, fatal: bool, ghost s': Shape)
      requires Valid(s) && Root(s) == node && Nodes(s) == fp && Balanced(Value(s))
      requires Compare(order, key, s.key) < 0
      modifies this`count, Nodes(s)
      ensures Valid(s') && Root(s') == top && fresh(Nodes(s') - Nodes(s))
      ensures (Value(s'), changed) == AvlShape.Insert(order, Value(s), key, data)
      ensures count == old(count) + (if Search(order, Value(s), key).Some? then 0 else 1)
      ensures fatal <==> paranoiac && Search(order, Value(s), key).Some?
      decreases s, 0
    {
      ghost var left, right := Nodes(s.left), Nodes(s.right);
      var l;
      ghost var ls;
      l, changed, fatal, ls := InsertNode(node.left, key, data, s.left, left);
      InsertedLeft(order, Value(s), key, data, Value(ls), changed);
      assert Nodes(ls) !! {node} + right && Valid(s.right);
      top, changed, s' := HangGrownLeft(node, l, changed, ls, s);
    }

    method InsertRight(node: AvlNode, key: CStr, data: Pointer, ghost s: Shape, ghost fp: set<AvlNode>)
      returns (top: AvlNode, changed: bool, fatal: bool, ghost s': Shape)
      requires Valid(s) && Root(s) == node && Nodes(s) == fp && Balanced(Value(s))
      requires Compare(order, key, s.key) > 0
      modifies this`count, Nodes(s)
      ensures Valid(s') && Root(s') == top && fresh(Nodes(s') - Nodes(s))
      ensures (Value(s'), changed) == AvlShape.Insert(order, Value(s), key, data)
      ensures count == old(count) + (if Search(order, Value(s), key).Some? then 0 else 1)
      ensures fatal <==> paranoiac && Search(order, Value(s), key).Some?
      decreases s, 0
    {
      ghost var left, right := Nodes(s.left), Nodes(s.right);
      var r;
      ghost var rs;
      r, changed, fatal, rs := InsertNode(node.right, key, data, s.right, right);
      InsertedRight(order, Value(s), key, data, Value(rs), changed);
      assert Nodes(rs) !! {node} + left && Valid(s.left);
      top, changed, s' := HangGrownRight(node, r, changed, rs, s);
    }

    method DeleteNode(node: AvlNode?, key: CStr, ghost s: Shape, ghost fp: set<AvlNode>)
      returns (top: AvlNode?, changed: bool, deleted: bool, fatal: bool, ghost s': Shape)
      requires Valid(s) && Root(s) == node && Nodes(s) == fp && Balanced(Value(s)) && Sorted(order, InOrder(Value(s)))
      modifies this`count, Nodes(s)
      ensures Valid(s') && Root(s') == top && Nodes(s') <= Nodes(s)
      ensures (Value(s'), changed) == AvlShape.Delete(order, Value(s), key)
      ensures deleted <==> Search(order, Value(s), key).Some?
      ensures count == old(count) - (if deleted then 1 else 0)
      ensures fatal <==> paranoiac && !deleted
      decreases Height(Value(s)), 1
    {
      if node == null {
        return null, false, false, paranoiac, s;
      }
      var compare := Compare(order, key, node.key);
      if compare < 0 {
        top, changed, deleted, fatal, s' := DeleteLeft(node, key, s, fp);
      } else if compare > 0 {
        top, changed, deleted, fatal, s' := DeleteRight(node, key, s, fp);
      } else if node.left != null && node.right != null {
        top, changed, deleted, fatal, s' := DeleteInner(node, key, s, fp);
      } else {
        if node.left != null {
          top, s' := node.left, s.left;
        } else {
          top, s' := node.right, s.right;
        }
        count := count - 1;
        changed, deleted, fatal := true, true, false;
      }
    }

    method DeleteLeft(node: AvlNode, key: CStr, ghost s: Shape, ghost fp: set<AvlNode>)
      returns (top: AvlNode, changed: bool, deleted: bool, fatal: bool, ghost s': Shape)
      requires Valid(s) && Root(s) == node && Nodes(s) == fp && Balanced(Value(s)) && Sorted(order, InOrder(Value(s)))
      requires Compare(order, key, s.key) < 0
      modifies this`count, Nodes(s)
      ensures Valid(s') && Root(s') == top && Nodes(s') <= Nodes(s)
      ensures (Value(s'), changed) == AvlShape.Delete(order, Value(s), key)
      ensures deleted <==> Search(order, Value(s), key).Some?
      ensures count == old(count) - (if deleted then 1 else 0)
      ensures fatal <==> paranoiac && !deleted
      decreases Height(Value(s)), 0
    {
      ghost var left, right := Nodes(s.left), Nodes(s.right);
      SortedChildren(order, Value(s));
      var l;
      ghost var ls;
      l, changed, deleted, fatal, ls := DeleteNode(node.left, key, s.left, left);
      DeletedLeft(order, Value(s), key, Value(ls), changed);
      assert Nodes(ls) !! {node} + right && Valid(s.right);
      top, changed, s' := HangShrunkLeft(node, l, changed, ls, s);
    }

    method DeleteRight(node: AvlNode, key: CStr, ghost s: Shape, ghost fp: set<AvlNode>)
      returns (top: AvlNode, changed: bool, deleted: bool, fatal: bool, ghost s': Shape)
      requires Valid(s) && Root(s) == node && Nodes(s) == fp && Balanced(Value(s)) && Sorted(order, InOrder(Value(s)))
      requires Compare(order, key, s.key) > 0
      modifies this`count, Nodes(s)
      ensures Valid(s') && Root(s') == top && Nodes(s') <= Nodes(s)
      ensures (Value(s'), changed) == AvlShape.Delete(order, Value(s), key)
      ensures deleted <==> Search(order, Value(s), key).Some?
      ensures count == old(count) - (if deleted then 1 else 0)
      ensures fatal <==> paranoiac && !deleted
      decreases Height(Value(s)), 0
    {
      ghost var left, right := Nodes(s.left), Nodes(s.right);
      SortedChildren(order, Value(s));
      var r;
      ghost var rs;
      r, changed, deleted, fatal, rs := DeleteNode(node.right, key, s.right, right);
      DeletedRight(order, Value(s), key, Value(rs), changed);
      assert Nodes(rs) !! {node} + left && Valid(s.left);
      top, changed, s' := HangShrunkRight(node, r, changed, rs, s);
    }

    // Two children: the successor's contents move up, and the entry to delete, now leftmost in
    // the right subtree, is deleted there.
    method DeleteInner(node: AvlNode, key: CStr, ghost s: Shape, ghost fp: set<AvlNode>)
      returns (top: AvlNode, changed: bool, deleted: bool, fatal: bool, ghost s': Shape)
      requires Valid(s) && Root(s) == node && Nodes(s) == fp && Balanced(Value(s)) && Sorted(order, InOrder(Value(s)))
      requires Compare(order, key, s.key) == 0 && node.left != null && node.right != null
      modifies this`count, Nodes(s)
      ensures Valid(s') && Root(s') == top && Nodes(s') <= Nodes(s)
      ensures (Value(s'), changed) == AvlShape.Delete(order, Value(s), key)
      ensures deleted <==> Search(order, Value(s), key).Some?
      ensures count == old(count) - (if deleted then 1 else 0)
      ensures fatal <==> paranoiac && !deleted
      decreases Height(Value(s)), 0
    {
      ghost var left, right, s1 := Nodes(s.left), Nodes(s.right), s;
      SwapIsFound(order, Value(s), key);
      s1 := TakeSuccessor(node, s, left, right);
      var r;
      ghost var rs;
      r, changed, deleted, fatal, rs := DeleteNode(node.right, key, s1.right, right);
      DeletedInner(order, Value(s), key, Value(s1), Value(rs), changed);
      assert Nodes(rs) !! {node} + left && Valid(s1.left);
      top, changed, s' := HangShrunkRight(node, r, changed, rs, s1);
    }

    // ------------------------------------------------------------- public operations

    /** Adds the key unless an equal one is present; only a "paranoiac" tree treats that as fatal. */
    method Insert(key: CStr, data: Pointer) returns (added: bool, fatal: bool)
      requires Inv()
      modifies this, nodes
      ensures Inv() && fresh(nodes - old(nodes))
      ensures Table() == With(order, old(Table()), key, data)
      ensures added <==> !HasKey(order, old(Table()), key)
      ensures fatal <==> paranoiac && HasKey(order, old(Table()), key)
      ensures savedKey == old(savedKey)
    {
      var before := count;
      var top, changed;
      ghost var s, t, present := shape, Value(shape), HasKey(order, Table(), key);
      top, changed, fatal, s := InsertNode(root, key, data, shape, nodes);
      Inserted(order, t, key, data, Value(s), changed, present);
      Adopt(top, s);
      added := before != count;
    }

    /** Removes the entry with an equal key, and nothing else. */
    method Delete(key: CStr) returns (deleted: bool, fatal: bool)
      requires Inv()
      modifies this, nodes
      ensures Inv() && nodes <= old(nodes)
      ensures Table() == Without(order, old(Table()), key)
      ensures deleted <==> HasKey(order, old(Table()), key)
      ensures fatal <==> paranoiac && !HasKey(order, old(Table()), key)
      ensures savedKey == old(savedKey)
    {
      var top, changed;
      ghost var s, t, present := shape, Value(shape), HasKey(order, Table(), key);
      top, changed, deleted, fatal, s := DeleteNode(root, key, shape, nodes);
      Deleted(order, t, key, Value(s), changed, present);
      Adopt(top, s);
    }

    /** Looks the key up, visiting no more nodes than the tree is high. */
    method Find(key: CStr) returns (found: bool, data: Pointer, ghost steps: nat)
      requires Inv()
      ensures found <==> HasKey(order, Table(), key)
      ensures found ==> Lookup(order, Table(), key) == Some(data)
      ensures steps <= Height(Value(shape)) && Pow2(steps / 2) <= |Table()| + 1
    {
      data, steps := 0, 0;
      var node := root;
      ghost var s := shape;
      SearchIsLookup(order, Value(shape), key);
      while node != null
        invariant Valid(s) && Root(s) == node
        invariant Search(order, Value(s), key) == Search(order, Value(shape), key)
        invariant steps + Height(Value(s)) <= Height(Value(shape))
        decreases s
      {
        steps := steps + 1;
        var compare := Compare(order, key, node.key);
        if compare < 0 {
          node, s := node.left, s.left;
        } else if compare > 0 {
          node, s := node.right, s.right;
        } else {
          data := node.data;
          break;
        }
      }
      found := node != null;
      HeightIsLogarithmic(Value(shape));
      Pow2Monotone(steps / 2, Height(Value(shape)) / 2);
    }

    /** The least key, remembered for a later step. */
    method First() returns (key: Option<CStr>, data: Pointer)
      requires Inv()
      modifies this`savedKey
      ensures Table() == [] ==> key == None && savedKey == old(savedKey)
      ensures Table() != [] ==> key == savedKey == Some(Table()[0].key) && data == Table()[0].data
      ensures forall i | 0 < i < |Table()| :: KeyBelow(order, key.value, Table()[i].key)
    {
      data := 0;
      if root == null {
        return None, data;
      }
      var node;
      ghost var s;
      node, s := Leftmost(root, shape);
      LeastIsFirst(Value(shape), Least(Value(shape)));
      SortedByKeys(order, Table());
      savedKey := Some(node.key);
      return savedKey, node.data;
    }

    /** The least key above the given one, which need not be in the tree any more. */
    method Next(key: CStr) returns (next: Option<CStr>, data: Pointer)
      requires Inv()
      modifies this`savedKey
      ensures Above(order, Table(), key) == None ==> next == None
      ensures Above(order, Table(), key).Some? ==>
        next == savedKey == Some(Above(order, Table(), key).value.key) && data == Above(order, Table(), key).value.data
      ensures next.Some? ==> Follows(order, Table(), key, Entry(next.value, data))
      ensures next == None ==> forall e | e in Table() :: !KeyBelow(order, key, e.key)
    {
      data := 0;
      AboveMeaning(order, Table(), key);
      SearchNextIsAbove(order, Value(shape), key, None);
      if root == null {
        return None, data;
      }
      var node := FindNext(key);
      if node != null {
        savedKey, data := Some(node.key), node.data;
      } else {
        savedKey := None;
      }
      next := savedKey;
    }

    method FindNext(key: CStr) returns (next: AvlNode?)
      requires Inv()
      ensures next == null <==> SearchNext(order, Value(shape), key, None) == None
      ensures next != null ==> SearchNext(order, Value(shape), key, None) == Some(Entry(next.key, next.data))
    {
      var node, prev: AvlNode? := root, null;
      ghost var s, passed := shape, None;
      while node != null
        invariant Valid(s) && Root(s) == node
        invariant passed == if prev == null then None else Some(Entry(prev.key, prev.data))
        invariant SearchNext(order, Value(s), key, passed) == SearchNext(order, Value(shape), key, None)
        decreases s
      {
        var compare := Compare(order, key, node.key);
        if compare < 0 {
          prev, passed := node, Some(Entry(node.key, node.data));
          node, s := node.left, s.left;
        } else if compare > 0 {
          node, s := node.right, s.right;
        } else {
          if node.right != null {
            next, s := Leftmost(node.right, s.right);
          } else {
            next := prev;
          }
          return;
        }
      }
      next := prev;
    }

    /** The height, measured along one path guided by the balance fields. */
    method HeightOf() returns (h: nat)
      requires Inv()
      ensures h == Height(Value(shape))
    {
      WalkIsHeight(Value(shape));
      if count != 0 {
        h := NodeHeight(root, shape);
      } else {
        h := 0;
      }
    }

    /** Drops every entry and says how many there were. */
    method Clear() returns (res: nat)
      requires Inv()
      modifies this
      ensures Inv() && Table() == [] && res == old(|Table()|) && savedKey == None
    {
      res := count;
      savedKey := None;
      if res != 0 {
        count, root, shape, nodes := 0, null, Nil, {};
      }
    }

    /** A duplicate shares no node with the original; it has the keys but not the data. */
    method Dupe() returns (dupe: AvlTree)
      requires Inv()
      ensures fresh(dupe) && fresh(dupe.nodes) && dupe.Inv() && dupe.order == order
      ensures Value(dupe.shape) == Blank(Value(shape))
    {
      BlankMeaning(Value(shape));
      dupe := new AvlTree(order, paranoiac);
      dupe.count := count;
      if count != 0 {
        var top;
        ghost var s, made;
        top, s, made := DupeNode(root, shape, nodes);
        dupe.Adopt(top, s);
      }
    }

    /** First and then Next, as every caller in the repository iterates, visits each entry once in key order. */
    method Traverse() returns (visited: seq<Entry>)
      requires Inv()
      modifies this`savedKey
      ensures visited == Table() && KeysInOrder(order, visited)
    {
      visited := [];
      ghost var table := Table();
      SortedByKeys(order, table);
      var key, data := First();
      while key.Some?
        invariant table == Table() && Visiting(table, visited, key, data)
        decreases |table| - |visited|
      {
        VisitOne(order, table, visited, key, data);
        visited := visited + [Entry(key.value, data)];
        key, data := Next(key.value);
      }
    }

    // One round of the loop the comment at avltree_save_key has in mind.
    method DeleteAndStep(key: CStr) returns (next: Option<CStr>, data: Pointer)
      requires Inv() && Table() != [] && key == Table()[0].key
      modifies this, nodes
      ensures Inv() && nodes <= old(nodes) && Table() == old(Table())[1..]
      ensures next == if Table() == [] then None else Some(Table()[0].key)
      ensures Table() != [] ==> data == Table()[0].data
    {
      DeleteFirst(order, Table());
      var deleted, fatal := Delete(key);
      next, data := Next(key);
    }

    /** Deleting the current key before each step still visits every entry once, and empties the tree. */
    method Drain() returns (visited: seq<Entry>)
      requires Inv()
      modifies this, nodes
      ensures Inv() && Table() == [] && visited == old(Table())
    {
      visited := [];
      ghost var all, n := Table(), nodes;
      var key, data := First();
      while key.Some?
        invariant Inv() && nodes <= n
        invariant visited + Table() == all
        invariant key == if Table() == [] then None else Some(Table()[0].key)
        invariant Table() != [] ==> data == Table()[0].data
        decreases |Table()|
      {
        ShiftHead(visited, Table());
        visited := visited + [Entry(key.value, data)];
        key, data := DeleteAndStep(key.value);
      }
    }
  }

  method Leftmost(start: AvlNode, ghost s: Shape) returns (node: AvlNode, ghost s': Shape)
    requires Valid(s) && Root(s) == start
    ensures Value(s).Node? && Entry(node.key, node.data) == Least(Value(s))
  {
    node, s' := start, s;
    while node.left != null
      invariant Valid(s') && Root(s') == node && Value(s').Node? && Value(s).Node?
      invariant Least(Value(s')) == Least(Value(s))
      decreases s'
    {
      node, s' := node.left, s'.left;
    }
  }

  function NodeHeight(node: AvlNode, ghost s: Shape): (h: nat)
    requires Valid(s) && Root(s) == node && Balanced(Value(s))
    reads Nodes(s)
    ensures h == WalkHeight(Value(s))
    decreases s
  {
    if node.balance < 0 then 1 + NodeHeight(node.left, s.left)
    else if node.right != null then 1 + NodeHeight(node.right, s.right)
    else 1
  }

  method DupeNode(node: AvlNode, ghost s: Shape, ghost fp: set<AvlNode>) returns (res: AvlNode, ghost s': Shape, ghost made: set<AvlNode>)
    requires Valid(s) && Root(s) == node && Nodes(s) == fp
    ensures Valid(s') && Root(s') == res && Nodes(s') == made && fresh(made)
    ensures Value(s') == Blank(Value(s))
    decreases s
  {
    ghost var left, right := Nodes(s.left), Nodes(s.right);
    var lc, rc: AvlNode? := null, null;
    ghost var l, r, ln, rn: set<AvlNode> := Nil, Nil, {}, {};
    if node.left != null {
      lc, l, ln := DupeNode(node.left, s.left, left);
    }
    if node.right != null {
      rc, r, rn := DupeNode(node.right, s.right, right);
    }
    res, s', made := NewParent(node.balance, node.key, lc, l, ln, rc, r, rn);
  }

  method NewParent(balance: int, key: CStr, lc: AvlNode?, ghost l: Shape, ghost ln: set<AvlNode>,
      rc: AvlNode?, ghost r: Shape, ghost rn: set<AvlNode>)
    returns (res: AvlNode, ghost s': Shape, ghost made: set<AvlNode>)
    requires Valid(l) && Root(l) == lc && Nodes(l) == ln
    requires Valid(r) && Root(r) == rc && Nodes(r) == rn
    requires ln !! rn
    ensures s' == Cell(res, l, balance, key, 0, r) && Valid(s')
    ensures Nodes(s') == made && fresh(made - ln - rn)
  {
    res := new AvlNode(key, 0);
    res.balance, res.left, res.right := balance, lc, rc;
    s' := Cell(res, l, balance, key, 0, r);
    made := {res} + ln + rn;
  }
}
