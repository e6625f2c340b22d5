// The value of an AVL tree: the four rotations, insertion and deletion as they act on
// the balance fields, and the ordered table the tree stands for.
module AvlShape {
  import opened CString

  type Pointer = nat  // an opaque `const void *`; 0 is NULL

  datatype Entry = Entry(key: CStr, data: Pointer)

  datatype Tree = Leaf | Node(left: Tree, bal: int, key: CStr, data: Pointer, right: Tree)

  function Max(a: int, b: int): int {
    if a < b then b else a
  }

  function Height(t: Tree): nat {
    match t
    case Leaf => 0
    case Node(l, _, _, _, r) => 1 + Max(Height(l), Height(r))
  }

  function InOrder(t: Tree): seq<Entry> {
    match t
    case Leaf => []
    case Node(l, _, k, d, r) => InOrder(l) + [Entry(k, d)] + InOrder(r)
  }

  // Every balance field is right height minus left height, and within -1..1.
  ghost predicate Balanced(t: Tree) {
    match t
    case Leaf => true
    case Node(l, b, _, _, r) => b == Height(r) - Height(l) && -1 <= b <= 1 && Balanced(l) && Balanced(r)
  }

  // Like Balanced, but the root's own field may be one step out of range.
  ghost predicate Tilted(t: Tree) {
    && t.Node?
    && t.bal == Height(t.right) - Height(t.left)
    && -2 <= t.bal <= 2
    && Balanced(t.left) && Balanced(t.right)
  }

  // ---------------------------------------------------------------- rotations

  function RightRotation(a: Tree): Tree
    requires a.Node? && a.right.Node?
  {
    var b := a.right;
    var bal := b.bal - 1;
    Node(Node(a.left, -bal, a.key, a.data, b.left), bal, b.key, b.data, b.right)
  }

  function LeftRotation(a: Tree): Tree
    requires a.Node? && a.left.Node?
  {
    var b := a.left;
    var bal := b.bal + 1;
    Node(b.left, bal, b.key, b.data, Node(b.right, -bal, a.key, a.data, a.right))
  }

  function LeftRightRotation(a: Tree): Tree
    requires a.Node? && a.left.Node? && a.left.right.Node?
  {
    var b := a.left;
    var c := b.right;
    Node(Node(b.left, if c.bal < 0 then 0 else -c.bal, b.key, b.data, c.left), 0, c.key, c.data,
         Node(c.right, if c.bal > 0 then 0 else -c.bal, a.key, a.data, a.right))
  }

  function RightLeftRotation(a: Tree): Tree
    requires a.Node? && a.right.Node? && a.right.left.Node?
  {
    var b := a.right;
    var c := b.left;
    Node(Node(a.left, if c.bal < 0 then 0 else -c.bal, a.key, a.data, c.left), 0, c.key, c.data,
         Node(c.right, if c.bal > 0 then 0 else -c.bal, b.key, b.data, b.right))
  }

  // The rebalancing step at balance +2: which rotation depends on the right child's
  // balance, and the two callers draw the line differently (insert: > 0, delete: >= 0).
  function LiftRight(t: Tree, limit: int): (r: Tree)
    requires Tilted(t) && t.bal == 2
    requires t.right.bal != 0 || limit == 0
    requires limit == 0 || limit == 1
    ensures Balanced(r) && r.Node? && InOrder(r) == InOrder(t)
    ensures Height(r) == Height(t) - (if t.right.bal == 0 then 0 else 1)
    ensures r.bal == (if t.right.bal == 0 then -1 else 0)
  {
    LiftRightOrder(t);
    assert Balanced(t.right.left) && Balanced(t.right.right);
    if t.right.bal >= limit then RightRotation(t) else RightLeftRotation(t)
  }

  function LiftLeft(t: Tree, limit: int): (r: Tree)
    requires Tilted(t) && t.bal == -2
    requires t.left.bal != 0 || limit == 0
    requires limit == 0 || limit == -1
    ensures Balanced(r) && r.Node? && InOrder(r) == InOrder(t)
    ensures Height(r) == Height(t) - (if t.left.bal == 0 then 0 else 1)
    ensures r.bal == (if t.left.bal == 0 then 1 else 0)
  {
    LiftLeftOrder(t);
    assert Balanced(t.left.left) && Balanced(t.left.right);
    if t.left.bal <= limit then LeftRotation(t) else LeftRightRotation(t)
  }

  lemma Rebracket(a: seq<Entry>, x: Entry, b: seq<Entry>, y: Entry, c: seq<Entry>)
    ensures a + [x] + (b + [y] + c) == (a + [x] + b) + [y] + c
  {
  }

  // Rotations only re-bracket the in-order sequence.
  lemma LiftRightOrder(t: Tree)
    requires t.Node? && t.right.Node?
    ensures InOrder(RightRotation(t)) == InOrder(t)
    ensures t.right.left.Node? ==> InOrder(RightLeftRotation(t)) == InOrder(t)
  {
    var b := t.right;
    var x, y := Entry(t.key, t.data), Entry(b.key, b.data);
    Rebracket(InOrder(t.left), x, InOrder(b.left), y, InOrder(b.right));
    if b.left.Node? {
      var c := b.left;
      var z := Entry(c.key, c.data);
      Rebracket(InOrder(c.left), z, InOrder(c.right), y, InOrder(b.right));
      Rebracket(InOrder(t.left), x, InOrder(c.left), z, InOrder(c.right) + [y] + InOrder(b.right));
    }
  }

  lemma LiftLeftOrder(t: Tree)
    requires t.Node? && t.left.Node?
    ensures InOrder(LeftRotation(t)) == InOrder(t)
    ensures t.left.right.Node? ==> InOrder(LeftRightRotation(t)) == InOrder(t)
  {
    var b := t.left;
    var x, y := Entry(t.key, t.data), Entry(b.key, b.data);
    Rebracket(InOrder(b.left), y, InOrder(b.right), x, InOrder(t.right));
    if b.right.Node? {
      var c := b.right;
      var z := Entry(c.key, c.data);
      Rebracket(InOrder(b.left), y, InOrder(c.left), z, InOrder(c.right));
      Rebracket(InOrder(b.left) + [y] + InOrder(c.left), z, InOrder(c.right), x, InOrder(t.right));
    }
  }

  // ---------------------------------------------------------------- insertion

  // A subtree that reports "changed" leans to one side unless it is a single new leaf;
  // that is what makes the child's balance decide the rotation.
  ghost predicate Grown(before: Tree, after: Tree, changed: bool) {
    && after.Node? && Balanced(after)
    && Height(after) == Height(before) + (if changed then 1 else 0)
    && (changed && before.Node? ==> after.bal != 0)
  }

  function AfterLeftGrow(t: Tree): (r: (Tree, bool))
    requires Tilted(t) && t.bal <= 0
    requires t.bal == -2 ==> t.left.bal != 0
    ensures Balanced(r.0) && r.0.Node? && InOrder(r.0) == InOrder(t)
    ensures r.1 <==> t.bal == -1
    ensures t.bal == -2 ==> Height(r.0) == Height(t) - 1
    ensures t.bal != -2 ==> r.0 == t
  {
    if t.bal == -2 then (LiftLeft(t, -1), false) else (t, t.bal == -1)
  }

  function AfterRightGrow(t: Tree): (r: (Tree, bool))
    requires Tilted(t) && t.bal >= 0
    requires t.bal == 2 ==> t.right.bal != 0
    ensures Balanced(r.0) && r.0.Node? && InOrder(r.0) == InOrder(t)
    ensures r.1 <==> t.bal == 1
    ensures t.bal == 2 ==> Height(r.0) == Height(t) - 1
    ensures t.bal != 2 ==> r.0 == t
  {
    if t.bal == 2 then (LiftRight(t, 1), false) else (t, t.bal == 1)
  }

  function Insert(o: Order, t: Tree, k: CStr, d: Pointer): (r: (Tree, bool))
    requires Balanced(t)
    ensures Grown(t, r.0, r.1)
  {
    match t
    case Leaf => (Node(Leaf, 0, k, d, Leaf), true)
    case Node(l, b, key, data, rt) =>
      var c := Compare(o, k, key);
      if c < 0 then
        var (l', ch) := Insert(o, l, k, d);
        if ch then AfterLeftGrow(Node(l', b - 1, key, data, rt)) else (Node(l', b, key, data, rt), false)
      else if c > 0 then
        var (r', ch) := Insert(o, rt, k, d);
        if ch then AfterRightGrow(Node(l, b + 1, key, data, r')) else (Node(l, b, key, data, r'), false)
      else (t, false)
  }

  // ---------------------------------------------------------------- deletion

  ghost predicate Shrunk(before: Tree, after: Tree, changed: bool) {
    && Balanced(after)
    && Height(after) == Height(before) - (if changed then 1 else 0)
  }

  function AfterLeftShrink(t: Tree): (r: (Tree, bool))
    requires Tilted(t) && t.bal >= 0
    ensures Balanced(r.0) && r.0.Node? && InOrder(r.0) == InOrder(t)
    ensures t.bal == 2 ==> Height(r.0) == Height(t) - (if r.1 then 1 else 0)
    ensures t.bal != 2 ==> r.0 == t && (r.1 <==> t.bal == 0)
  {
    if t.bal == 2 then var u := LiftRight(t, 0); (u, u.bal != -1) else (t, t.bal != 1)
  }

  function AfterRightShrink(t: Tree): (r: (Tree, bool))
    requires Tilted(t) && t.bal <= 0
    ensures Balanced(r.0) && r.0.Node? && InOrder(r.0) == InOrder(t)
    ensures t.bal == -2 ==> Height(r.0) == Height(t) - (if r.1 then 1 else 0)
    ensures t.bal != -2 ==> r.0 == t && (r.1 <==> t.bal == 0)
  {
    if t.bal == -2 then var u := LiftLeft(t, 0); (u, u.bal != 1) else (t, t.bal != -1)
  }

  function Least(t: Tree): Entry
    requires t.Node?
  {
    if t.left.Leaf? then Entry(t.key, t.data) else Least(t.left)
  }

  // Overwrites the key and data of the leftmost node; shape and balances stay.
  function WithLeast(t: Tree, e: Entry): (r: Tree)
    requires t.Node?
    ensures r.Node? && Height(r) == Height(t) && r.bal == t.bal
    ensures Balanced(t) ==> Balanced(r)
  {
    if t.left.Leaf? then t.(key := e.key, data := e.data) else t.(left := WithLeast(t.left, e))
  }

  // The left subtree comes back, perhaps one shorter.
  function HungLeft(t: Tree, l: Tree, changed: bool): (r: (Tree, bool))
    requires t.Node? && Balanced(t) && Shrunk(t.left, l, changed)
    ensures Shrunk(t, r.0, r.1) && InOrder(r.0) == InOrder(t.(left := l))
  {
    if changed then AfterLeftShrink(t.(left := l, bal := t.bal + 1)) else (t.(left := l), false)
  }

  function HungRight(t: Tree, r: Tree, changed: bool): (res: (Tree, bool))
    requires t.Node? && Balanced(t) && Shrunk(t.right, r, changed)
    ensures Shrunk(t, res.0, res.1) && InOrder(res.0) == InOrder(t.(right := r))
  {
    if changed then AfterRightShrink(t.(right := r, bal := t.bal - 1)) else (t.(right := r), false)
  }

  function Delete(o: Order, t: Tree, k: CStr): (r: (Tree, bool))
    requires Balanced(t)
    ensures Shrunk(t, r.0, r.1)
    decreases Height(t)
  {
    match t
    case Leaf => (Leaf, false)
    case Node(l, b, key, data, rt) =>
      var c := Compare(o, k, key);
      if c < 0 then
        var (l', ch) := Delete(o, l, k);
        HungLeft(t, l', ch)
      else if c > 0 then
        var (r', ch) := Delete(o, rt, k);
        HungRight(t, r', ch)
      else if l.Node? && rt.Node? then
        var e := Least(rt);
        var swapped := WithLeast(rt, Entry(key, data));
        var (r', ch) := Delete(o, swapped, k);
        HungRight(Node(l, b, e.key, e.data, swapped), r', ch)
      else (if l.Node? then l else rt, true)
  }
}
