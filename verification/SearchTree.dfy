// The unbalanced search tree of the duplicate filter. Nodes are linked in place; they live in an
// arena here, -1 standing for NULL. Smaller keys go to the right.
module SearchTree {
  import opened Wrappers

  datatype Node = Node(left: int, right: int, data: nat, wpt: Option<nat>)

  datatype Shape = Nil | Bin(i: nat, left: Shape, right: Shape)

  ghost function Ids(s: Shape): set<nat> {
    if s.Nil? then {} else {s.i} + Ids(s.left) + Ids(s.right)
  }

  ghost predicate InArena(ns: seq<Node>, s: Shape) {
    (forall j | j in Ids(s) :: j < |ns|) && (s.Bin? ==> s.i < |ns| && InArena(ns, s.left) && InArena(ns, s.right))
  }

  // The links from `root` form this tree, ordered by key.
  ghost predicate Linked(ns: seq<Node>, root: int, s: Shape)
    decreases s
  {
    InArena(ns, s) && match s
      case Nil => root == -1
      case Bin(i, l, r) =>
        && root == i && i < |ns| && Linked(ns, ns[i].left, l) && Linked(ns, ns[i].right, r)
        && i !in Ids(l) && i !in Ids(r) && Ids(l) !! Ids(r)
        && (forall j | j in Ids(l) :: ns[j].data > ns[i].data) && (forall j | j in Ids(r) :: ns[j].data < ns[i].data)
  }

  // Where the search for a key ends: at a node with it, or below the last node visited.
  datatype Outcome = Hit(i: nat) | Miss(last: int)

  ghost function Search(ns: seq<Node>, s: Shape, key: nat, last: int): Outcome
    requires InArena(ns, s)
  {
    match s
    case Nil => Miss(last)
    case Bin(i, l, r) =>
      if key < ns[i].data then Search(ns, r, key, i) else if key > ns[i].data then Search(ns, l, key, i) else Hit(i)
  }

  /** The search finds a key exactly if a node of the tree has it. */
  lemma {:induction false} SearchFinds(ns: seq<Node>, root: int, s: Shape, key: nat, last: int)
    requires Linked(ns, root, s)
    ensures match Search(ns, s, key, last)
      case Hit(i) => i in Ids(s) && ns[i].data == key
      case Miss(l) => (forall j | j in Ids(s) :: ns[j].data != key) && (if s.Nil? then l == last else l >= 0 && l in Ids(s))
    decreases s
  {
    match s
    case Nil =>
    case Bin(i, l, r) =>
      SearchFinds(ns, ns[i].left, l, key, i);
      SearchFinds(ns, ns[i].right, r, key, i);
  }

  lemma {:induction false} KeysDiffer(ns: seq<Node>, root: int, s: Shape, i: nat, j: nat)
    requires Linked(ns, root, s) && i in Ids(s) && j in Ids(s) && i != j
    ensures ns[i].data != ns[j].data
    decreases s
  {
    if i in Ids(s.left) && j in Ids(s.left) {
      KeysDiffer(ns, ns[s.i].left, s.left, i, j);
    } else if i in Ids(s.right) && j in Ids(s.right) {
      KeysDiffer(ns, ns[s.i].right, s.right, i, j);
    }
  }

  // The tree with a leaf hung below the last node of the search.
  ghost function Hung(ns: seq<Node>, s: Shape, key: nat, k: nat): Shape
    requires InArena(ns, s)
  {
    match s
    case Nil => Bin(k, Nil, Nil)
    case Bin(i, l, r) => if key < ns[i].data then Bin(i, l, Hung(ns, r, key, k)) else Bin(i, Hung(ns, l, key, k), r)
  }

  lemma {:induction false} HungIds(ns: seq<Node>, s: Shape, key: nat, k: nat)
    requires InArena(ns, s)
    ensures Ids(Hung(ns, s, key, k)) == Ids(s) + {k}
    decreases s
  {
    match s
    case Nil =>
    case Bin(i, l, r) =>
      if key < ns[i].data { HungIds(ns, r, key, k); } else { HungIds(ns, l, key, k); }
  }

  // Changing nodes outside a tree leaves it alone.
  lemma {:induction false} Untouched(ns: seq<Node>, ns': seq<Node>, root: int, s: Shape)
    requires Linked(ns, root, s) && |ns| <= |ns'| && forall j | j in Ids(s) :: ns'[j].(wpt := None) == ns[j].(wpt := None)
    ensures Linked(ns', root, s)
    decreases s
  {
    match s
    case Nil =>
    case Bin(i, l, r) =>
      assert i in Ids(s);
      Untouched(ns, ns', ns[i].left, l);
      Untouched(ns, ns', ns[i].right, r);
  }

  function HungBelow(ns: seq<Node>, last: nat, key: nat, k: nat): seq<Node>
    requires last < |ns|
  {
    if key < ns[last].data then ns[last := ns[last].(right := k)] else ns[last := ns[last].(left := k)]
  }

  // The subtree a key belongs to, the other one, and the links to them.
  ghost function Toward(ns: seq<Node>, s: Shape, key: nat): Shape
    requires s.Bin? && InArena(ns, s)
  {
    if key < ns[s.i].data then s.right else s.left
  }

  ghost function Away(ns: seq<Node>, s: Shape, key: nat): Shape
    requires s.Bin? && InArena(ns, s)
  {
    if key < ns[s.i].data then s.left else s.right
  }

  ghost function LinkTo(ns: seq<Node>, i: nat, key: nat): int
    requires i < |ns|
  {
    if key < ns[i].data then ns[i].right else ns[i].left
  }

  ghost function LinkAway(ns: seq<Node>, i: nat, key: nat): int
    requires i < |ns|
  {
    if key < ns[i].data then ns[i].left else ns[i].right
  }

  // One level up: the subtree toward the key has grown, the other has not changed.
  lemma Rejoined(ns: seq<Node>, ns': seq<Node>, root: int, s: Shape, key: nat, k: nat)
    requires Linked(ns, root, s) && s.Bin? && |ns'| == |ns| && k < |ns| && ns[k].data == key && k !in Ids(s) && key != ns[s.i].data
    requires forall j | 0 <= j < |ns| :: ns'[j].data == ns[j].data
    requires Linked(ns', LinkTo(ns', s.i, key), Hung(ns, Toward(ns, s, key), key, k))
    requires Linked(ns', LinkAway(ns', s.i, key), Away(ns, s, key))
    ensures Linked(ns', root, Hung(ns, s, key, k))
  {
    HungIds(ns, Toward(ns, s, key), key, k);
  }

  lemma LeafLinked(ns: seq<Node>, k: nat)
    requires k < |ns| && ns[k].left == -1 && ns[k].right == -1
    ensures Linked(ns, k, Bin(k, Nil, Nil))
  {
    assert Ids(Nil) == {};
    assert Linked(ns, -1, Nil);
  }

  /** Hanging a leaf below the last node of a failed search gives the ordered tree with one more key. */
  lemma {:induction false} HungIsLinked(ns: seq<Node>, root: int, s: Shape, key: nat, k: nat, last: int, m: nat)
    requires Linked(ns, root, s) && s.Bin? && Search(ns, s, key, last) == Miss(m) && m < |ns|
    requires k < |ns| && k !in Ids(s) && ns[k].data == key && ns[k].left == -1 && ns[k].right == -1
    ensures m in Ids(s) && Linked(HungBelow(ns, m, key, k), root, Hung(ns, s, key, k))
    decreases s
  {
    var i, t, u := s.i, Toward(ns, s, key), Away(ns, s, key);
    var ns' := HungBelow(ns, m, key, k);
    assert i in Ids(s);
    if t.Nil? {
      LeafLinked(ns', k);
    } else {
      HungIsLinked(ns, LinkTo(ns, i, key), t, key, k, i, m);
    }
    Untouched(ns, ns', LinkAway(ns, i, key), u);
    Rejoined(ns, ns', root, s, key, k);
  }

  /** addnode: walks down from the root. A node with the key is reported and nothing changes; otherwise
      the new node becomes the child of the last node visited, or the root. */
  method AddNode(ns: seq<Node>, root: int, k: nat, ghost s: Shape) returns (ns': seq<Node>, root': int, old': int, ghost s': Shape)
    requires Linked(ns, root, s) && k < |ns| && k !in Ids(s) && ns[k].left == -1 && ns[k].right == -1
    ensures Linked(ns', root', s') && |ns'| == |ns| && forall j | 0 <= j < |ns| :: ns'[j].data == ns[j].data && ns'[j].wpt == ns[j].wpt
    ensures old' == -1 <==> forall j | j in Ids(s) :: ns[j].data != ns[k].data
    ensures old' == -1 ==> Ids(s') == Ids(s) + {k}
    ensures old' != -1 ==> old' >= 0 && old' in Ids(s) && ns[old'].data == ns[k].data && ns' == ns && s' == s && root' == root
  {
    var key := ns[k].data;
    if root == -1 {
      return ns, k, -1, Bin(k, Nil, Nil);
    }
    SearchFinds(ns, root, s, key, -1);
    var tmp, last := root, -1;
    ghost var t := s;
    while tmp != -1
      invariant Linked(ns, tmp, t) && Search(ns, t, key, last) == Search(ns, s, key, -1)
      decreases t
    {
      assert tmp in Ids(t);
      last := tmp;
      if key < ns[tmp].data {
        tmp, t := ns[tmp].right, t.right;
      } else if key > ns[tmp].data {
        tmp, t := ns[tmp].left, t.left;
      } else {
        return ns, root, tmp, s;
      }
    }
    HungIsLinked(ns, root, s, key, k, -1, last);
    HungIds(ns, s, key, k);
    ns', root', old', s' := HungBelow(ns, last, key, k), root, -1, Hung(ns, s, key, k);
  }
}
