// The ordered table an AVL tree stands for, as a sorted sequence without balances, and the
// proof that the tree operations are the table operations.
module AvlTable {
  import opened CString
  import opened AvlShape
  import opened Wrappers

  ghost predicate AllBelow(o: Order, s: seq<Entry>, k: CStr) {
    forall e | e in s :: Compare(o, k, e.key) > 0
  }

  ghost predicate AllAbove(o: Order, s: seq<Entry>, k: CStr) {
    forall e | e in s :: Compare(o, k, e.key) < 0
  }

  ghost predicate Sorted(o: Order, s: seq<Entry>) {
    forall i, j | 0 <= i < j < |s| :: Compare(o, s[i].key, s[j].key) < 0
  }

  ghost predicate HasKey(o: Order, s: seq<Entry>, k: CStr) {
    exists e :: e in s && Compare(o, k, e.key) == 0
  }

  // ------------------------------------------------ the table operations

  function With(o: Order, s: seq<Entry>, k: CStr, d: Pointer): seq<Entry> {
    if s == [] then [Entry(k, d)]
    else
      var c := Compare(o, k, s[0].key);
      if c < 0 then [Entry(k, d)] + s
      else if c == 0 then s
      else [s[0]] + With(o, s[1..], k, d)
  }

  function Without(o: Order, s: seq<Entry>, k: CStr): seq<Entry> {
    if s == [] then []
    else (if Compare(o, k, s[0].key) == 0 then [] else [s[0]]) + Without(o, s[1..], k)
  }

  function Lookup(o: Order, s: seq<Entry>, k: CStr): Option<Pointer> {
    if s == [] then None
    else if Compare(o, k, s[0].key) == 0 then Some(s[0].data)
    else Lookup(o, s[1..], k)
  }

  // The first entry strictly after `k`.
  function Above(o: Order, s: seq<Entry>, k: CStr): Option<Entry> {
    if s == [] then None
    else if Compare(o, k, s[0].key) < 0 then Some(s[0])
    else Above(o, s[1..], k)
  }

  // ------------------------------------------------ what they mean

  lemma SortedTail(o: Order, s: seq<Entry>)
    requires Sorted(o, s) && s != []
    ensures Sorted(o, s[1..]) && AllAbove(o, s[1..], s[0].key)
  {
    forall e | e in s[1..] ensures Compare(o, s[0].key, e.key) < 0 {
      var i :| 0 <= i < |s| - 1 && s[1..][i] == e;
      assert s[i + 1] == e;
    }
  }

  lemma SortedCons(o: Order, x: Entry, s: seq<Entry>)
    requires Sorted(o, s) && AllAbove(o, s, x.key)
    ensures Sorted(o, [x] + s)
  {
    var u := [x] + s;
    forall i, j | 0 <= i < j < |u| ensures Compare(o, u[i].key, u[j].key) < 0 {
      assert u[j] == s[j - 1] && u[j] in s;
      if i > 0 { assert u[i] == s[i - 1]; }
    }
  }

  lemma AboveAll(o: Order, s: seq<Entry>, k: CStr, k': CStr)
    requires AllAbove(o, s, k) && Compare(o, k', k) <= 0
    ensures AllAbove(o, s, k')
  {
    forall e | e in s ensures Compare(o, k', e.key) < 0 {
      CompareIsPreorder(o, k', k, e.key);
    }
  }

  lemma HasKeyTail(o: Order, s: seq<Entry>, k: CStr)
    requires s != []
    ensures HasKey(o, s, k) <==> Compare(o, k, s[0].key) == 0 || HasKey(o, s[1..], k)
  {
    assert s == [s[0]] + s[1..];
    if Compare(o, k, s[0].key) == 0 {
      assert s[0] in s;
    }
    if HasKey(o, s[1..], k) {
      var e :| e in s[1..] && Compare(o, k, e.key) == 0;
      assert e in s;
    }
  }

  // A key before the first entry is before them all.
  lemma BeforeFirst(o: Order, s: seq<Entry>, k: CStr)
    requires Sorted(o, s) && s != [] && Compare(o, k, s[0].key) < 0
    ensures AllAbove(o, s, k)
  {
    SortedTail(o, s);
    AboveAll(o, s[1..], s[0].key, k);
    assert s == [s[0]] + s[1..];
  }

  lemma {:induction false} WithAbove(o: Order, s: seq<Entry>, k: CStr, d: Pointer, low: CStr)
    requires AllAbove(o, s, low) && Compare(o, low, k) < 0
    ensures AllAbove(o, With(o, s, k, d), low)
  {
    if s != [] {
      assert s[0] in s;
      WithAbove(o, s[1..], k, d, low);
    }
  }

  lemma {:induction false} WithIsSorted(o: Order, s: seq<Entry>, k: CStr, d: Pointer)
    requires Sorted(o, s)
    ensures Sorted(o, With(o, s, k, d))
  {
    if s != [] {
      var c := Compare(o, k, s[0].key);
      if c < 0 {
        BeforeFirst(o, s, k);
        SortedCons(o, Entry(k, d), s);
      } else if c > 0 {
        SortedTail(o, s);
        WithIsSorted(o, s[1..], k, d);
        CompareIsPreorder(o, s[0].key, k, k);
        WithAbove(o, s[1..], k, d, s[0].key);
        SortedCons(o, s[0], With(o, s[1..], k, d));
      }
    }
  }

  lemma {:induction false} WithAdds(o: Order, s: seq<Entry>, k: CStr, d: Pointer)
    requires Sorted(o, s)
    ensures HasKey(o, s, k) ==> With(o, s, k, d) == s
    ensures !HasKey(o, s, k) ==> multiset(With(o, s, k, d)) == multiset(s) + multiset{Entry(k, d)}
  {
    if s != [] {
      assert s == [s[0]] + s[1..];
      var c := Compare(o, k, s[0].key);
      if c < 0 {
        BeforeFirst(o, s, k);
      } else if c > 0 {
        SortedTail(o, s);
        HasKeyTail(o, s, k);
        WithAdds(o, s[1..], k, d);
      }
    }
  }

  /** Inserting keeps the table sorted and adds the entry exactly when no equal key was there. */
  lemma WithMeaning(o: Order, s: seq<Entry>, k: CStr, d: Pointer)
    requires Sorted(o, s)
    ensures Sorted(o, With(o, s, k, d))
    ensures HasKey(o, s, k) ==> With(o, s, k, d) == s
    ensures !HasKey(o, s, k) ==> multiset(With(o, s, k, d)) == multiset(s) + multiset{Entry(k, d)}
  {
    WithIsSorted(o, s, k, d);
    WithAdds(o, s, k, d);
  }

  lemma {:induction false} WithoutKeeps(o: Order, s: seq<Entry>, k: CStr)
    ensures forall e :: e in Without(o, s, k) <==> e in s && Compare(o, k, e.key) != 0
  {
    if s != [] {
      assert s == [s[0]] + s[1..];
      WithoutKeeps(o, s[1..], k);
    }
  }

  lemma {:induction false} WithoutIsSorted(o: Order, s: seq<Entry>, k: CStr)
    requires Sorted(o, s)
    ensures Sorted(o, Without(o, s, k))
  {
    if s != [] {
      SortedTail(o, s);
      WithoutIsSorted(o, s[1..], k);
      if Compare(o, k, s[0].key) != 0 {
        WithoutKeeps(o, s[1..], k);
        SortedCons(o, s[0], Without(o, s[1..], k));
      }
    }
  }

  lemma {:induction false} WithoutCounts(o: Order, s: seq<Entry>, k: CStr)
    requires Sorted(o, s)
    ensures |Without(o, s, k)| == |s| - (if HasKey(o, s, k) then 1 else 0)
  {
    if s != [] {
      SortedTail(o, s);
      HasKeyTail(o, s, k);
      WithoutCounts(o, s[1..], k);
      if Compare(o, k, s[0].key) == 0 {
        AboveAll(o, s[1..], s[0].key, k);
      }
    }
  }

  /** Deleting keeps the table sorted and removes exactly the entry with an equal key. */
  lemma WithoutMeaning(o: Order, s: seq<Entry>, k: CStr)
    requires Sorted(o, s)
    ensures Sorted(o, Without(o, s, k))
    ensures forall e :: e in Without(o, s, k) <==> e in s && Compare(o, k, e.key) != 0
    ensures |Without(o, s, k)| == |s| - (if HasKey(o, s, k) then 1 else 0)
  {
    WithoutIsSorted(o, s, k);
    WithoutKeeps(o, s, k);
    WithoutCounts(o, s, k);
  }

  lemma {:induction false} LookupMeaning(o: Order, s: seq<Entry>, k: CStr)
    ensures Lookup(o, s, k).Some? <==> HasKey(o, s, k)
    ensures Lookup(o, s, k).Some? ==> exists e :: e in s && Compare(o, k, e.key) == 0 && e.data == Lookup(o, s, k).value
  {
    if s != [] {
      assert s == [s[0]] + s[1..];
      LookupMeaning(o, s[1..], k);
    }
  }

  // ------------------------------------------------ sequences split at a tree node

  lemma Pivot(o: Order, a: seq<Entry>, x: Entry, b: seq<Entry>)
    requires Sorted(o, a + [x] + b)
    ensures Sorted(o, a) && Sorted(o, b) && AllBelow(o, a, x.key) && AllAbove(o, b, x.key)
  {
    var s := a + [x] + b;
    forall i, j | 0 <= i < j < |a| ensures Compare(o, a[i].key, a[j].key) < 0 {
      assert s[i] == a[i] && s[j] == a[j];
    }
    forall i, j | 0 <= i < j < |b| ensures Compare(o, b[i].key, b[j].key) < 0 {
      assert s[|a| + 1 + i] == b[i] && s[|a| + 1 + j] == b[j];
    }
    forall e | e in a ensures Compare(o, x.key, e.key) > 0 {
      var i :| 0 <= i < |a| && a[i] == e;
      assert s[i] == e && s[|a|] == x;
      CompareIsPreorder(o, e.key, x.key, x.key);
    }
    forall e | e in b ensures Compare(o, x.key, e.key) < 0 {
      var i :| 0 <= i < |b| && b[i] == e;
      assert s[|a| + 1 + i] == e && s[|a|] == x;
    }
  }

  lemma BelowAll(o: Order, s: seq<Entry>, k: CStr, k': CStr)
    requires AllBelow(o, s, k) && Compare(o, k', k) >= 0
    ensures AllBelow(o, s, k')
  {
    forall e | e in s ensures Compare(o, k', e.key) > 0 {
      CompareIsPreorder(o, e.key, k, k');
      CompareIsPreorder(o, k, k', e.key);
    }
  }

  lemma {:induction false} WithSplit(o: Order, a: seq<Entry>, x: Entry, b: seq<Entry>, k: CStr, d: Pointer)
    ensures Compare(o, k, x.key) < 0 ==> With(o, a + [x] + b, k, d) == With(o, a, k, d) + [x] + b
    ensures AllBelow(o, a, k) && Compare(o, k, x.key) > 0 ==> With(o, a + [x] + b, k, d) == a + [x] + With(o, b, k, d)
    ensures AllBelow(o, a, k) && Compare(o, k, x.key) == 0 ==> With(o, a + [x] + b, k, d) == a + [x] + b
  {
    var s := a + [x] + b;
    if a == [] {
      assert s == [x] + b && s[1..] == b;
    } else {
      var a', r := a[1..], With(o, b, k, d);
      SplitTail(a, x, b);
      WithSplit(o, a', x, b, k, d);
      assert forall e | e in a' :: e in a;
      SplitTail(a, x, r);
    }
  }

  lemma SplitTail(a: seq<Entry>, x: Entry, b: seq<Entry>)
    requires a != []
    ensures var s := a + [x] + b; s[0] == a[0] && s[1..] == a[1..] + [x] + b && s == [a[0]] + (a[1..] + [x] + b)
  {
  }

  lemma {:induction false} WithoutConcat(o: Order, a: seq<Entry>, b: seq<Entry>, k: CStr)
    ensures Without(o, a + b, k) == Without(o, a, k) + Without(o, b, k)
  {
    if a == [] {
      assert a + b == b;
    } else {
      assert (a + b)[1..] == a[1..] + b;
      WithoutConcat(o, a[1..], b, k);
    }
  }

  lemma {:induction false} WithoutNone(o: Order, s: seq<Entry>, k: CStr)
    requires forall e | e in s :: Compare(o, k, e.key) != 0
    ensures Without(o, s, k) == s
  {
    if s != [] {
      assert forall e | e in s[1..] :: e in s;
      WithoutNone(o, s[1..], k);
    }
  }

  lemma WithoutOne(o: Order, x: Entry, k: CStr)
    ensures Without(o, [x], k) == if Compare(o, k, x.key) == 0 then [] else [x]
  {
    assert [x][1..] == [];
  }

  lemma WithoutSplit(o: Order, a: seq<Entry>, x: Entry, b: seq<Entry>, k: CStr)
    requires Sorted(o, a + [x] + b)
    ensures Compare(o, k, x.key) < 0 ==> Without(o, a + [x] + b, k) == Without(o, a, k) + [x] + b
    ensures Compare(o, k, x.key) > 0 ==> Without(o, a + [x] + b, k) == a + [x] + Without(o, b, k)
    ensures Compare(o, k, x.key) == 0 ==> Without(o, a + [x] + b, k) == a + b
  {
    Pivot(o, a, x, b);
    var c := Compare(o, k, x.key);
    assert c <= 0 ==> Without(o, b, k) == b by {
      if c <= 0 {
        AboveAll(o, b, x.key, k);
        WithoutNone(o, b, k);
      }
    }
    assert c >= 0 ==> Without(o, a, k) == a by {
      if c >= 0 {
        BelowAll(o, a, x.key, k);
        WithoutNone(o, a, k);
      }
    }
    WithoutConcat(o, a + [x], b, k);
    WithoutConcat(o, a, [x], k);
    WithoutOne(o, x, k);
    assert a + [] == a;
  }

  lemma {:induction false} LookupConcat(o: Order, a: seq<Entry>, b: seq<Entry>, k: CStr)
    ensures Lookup(o, a + b, k) == if Lookup(o, a, k).Some? then Lookup(o, a, k) else Lookup(o, b, k)
  {
    if a == [] {
      assert a + b == b;
    } else {
      assert (a + b)[1..] == a[1..] + b;
      LookupConcat(o, a[1..], b, k);
    }
  }

  lemma LookupSplit(o: Order, a: seq<Entry>, x: Entry, b: seq<Entry>, k: CStr)
    requires Sorted(o, a + [x] + b)
    ensures Lookup(o, a + [x] + b, k) ==
      var c := Compare(o, k, x.key);
      if c < 0 then Lookup(o, a, k) else if c > 0 then Lookup(o, b, k) else Some(x.data)
  {
    Pivot(o, a, x, b);
    LookupConcat(o, a + [x], b, k);
    LookupConcat(o, a, [x], k);
    if Compare(o, k, x.key) <= 0 {
      AboveAll(o, b, x.key, k);
      LookupMeaning(o, b, k);
    }
    if Compare(o, k, x.key) >= 0 {
      BelowAll(o, a, x.key, k);
      LookupMeaning(o, a, k);
    }
  }

  lemma {:induction false} AboveConcat(o: Order, a: seq<Entry>, b: seq<Entry>, k: CStr)
    ensures Above(o, a + b, k) == if Above(o, a, k).Some? then Above(o, a, k) else Above(o, b, k)
  {
    if a == [] {
      assert a + b == b;
    } else {
      assert (a + b)[1..] == a[1..] + b;
      AboveConcat(o, a[1..], b, k);
    }
  }

  lemma {:induction false} AboveNone(o: Order, s: seq<Entry>, k: CStr)
    requires forall e | e in s :: Compare(o, k, e.key) >= 0
    ensures Above(o, s, k) == None
  {
    if s != [] {
      assert forall e | e in s[1..] :: e in s;
      AboveNone(o, s[1..], k);
    }
  }

  lemma AboveSplit(o: Order, a: seq<Entry>, x: Entry, b: seq<Entry>, k: CStr)
    requires Sorted(o, a + [x] + b)
    ensures Compare(o, k, x.key) < 0 ==>
      Above(o, a + [x] + b, k) == if Above(o, a, k).Some? then Above(o, a, k) else Some(x)
    ensures Compare(o, k, x.key) > 0 ==> Above(o, a + [x] + b, k) == Above(o, b, k)
    ensures Compare(o, k, x.key) == 0 ==>
      Above(o, a + [x] + b, k) == if b == [] then None else Some(b[0])
  {
    Pivot(o, a, x, b);
    AboveConcat(o, a + [x], b, k);
    AboveConcat(o, a, [x], k);
    if Compare(o, k, x.key) >= 0 {
      BelowAll(o, a, x.key, k);
      AboveNone(o, a, k);
    }
    if Compare(o, k, x.key) == 0 && b != [] {
      AboveAll(o, b, x.key, k);
      assert b[0] in b;
    }
  }

  // ------------------------------------------------ the tree is the table

  /** Inserting into the tree is inserting into the sorted table: search order is kept, exactly
      that key is added, and a duplicate leaves keys and data untouched. */
  lemma {:induction false} InsertIsWith(o: Order, t: Tree, k: CStr, d: Pointer)
    requires Balanced(t) && Sorted(o, InOrder(t))
    ensures InOrder(Insert(o, t, k, d).0) == With(o, InOrder(t), k, d)
  {
    if t.Node? {
      var a, x, b := InOrder(t.left), Entry(t.key, t.data), InOrder(t.right);
      Pivot(o, a, x, b);
      if Compare(o, k, t.key) < 0 {
        InsertIsWith(o, t.left, k, d);
      } else {
        BelowAll(o, a, x.key, k);
        if Compare(o, k, t.key) > 0 {
          InsertIsWith(o, t.right, k, d);
        }
      }
      WithSplit(o, a, x, b, k, d);
    }
  }

  lemma {:induction false} LeastIsFirst(t: Tree, e: Entry)
    requires t.Node?
    ensures InOrder(t) != [] && Least(t) == InOrder(t)[0]
    ensures InOrder(WithLeast(t, e)) == [e] + InOrder(t)[1..]
  {
    if t.left.Node? {
      LeastIsFirst(t.left, e);
    }
  }

  // Moving the deleted entry into its successor's place leaves the right subtree sorted, with
  // the deleted entry first.
  lemma SwapIsSorted(o: Order, b: seq<Entry>, x: Entry, k: CStr)
    requires b != [] && Sorted(o, b) && AllAbove(o, b, x.key) && Compare(o, k, x.key) == 0
    ensures Sorted(o, [x] + b[1..]) && Without(o, [x] + b[1..], k) == b[1..]
  {
    SortedTail(o, b);
    var c := b[1..];
    assert forall e | e in c :: e in b;
    SortedCons(o, x, c);
    AboveAll(o, c, x.key, k);
    WithoutNone(o, c, k);
    WithoutConcat(o, [x], c, k);
    WithoutOne(o, x, k);
  }

  lemma OrderLeft(o: Order, t: Tree, k: CStr)
    requires t.Node? && Balanced(t) && Compare(o, k, t.key) < 0
    ensures InOrder(Delete(o, t, k).0) == InOrder(Delete(o, t.left, k).0) + [Entry(t.key, t.data)] + InOrder(t.right)
  {
  }

  lemma OrderRight(o: Order, t: Tree, k: CStr)
    requires t.Node? && Balanced(t) && Compare(o, k, t.key) > 0
    ensures InOrder(Delete(o, t, k).0) == InOrder(t.left) + [Entry(t.key, t.data)] + InOrder(Delete(o, t.right, k).0)
  {
  }

  lemma OrderInner(o: Order, t: Tree, k: CStr)
    requires t.Node? && Balanced(t) && Compare(o, k, t.key) == 0 && t.left.Node? && t.right.Node?
    ensures var u := WithLeast(t.right, Entry(t.key, t.data));
      InOrder(Delete(o, t, k).0) == InOrder(t.left) + [Least(t.right)] + InOrder(Delete(o, u, k).0)
  {
  }

  // The successor's entry takes the deleted one's place in front of what is left on the right.
  lemma InnerIsWithout(o: Order, t: Tree, k: CStr, r: seq<Entry>)
    requires t.Node? && Sorted(o, InOrder(t)) && Compare(o, k, t.key) == 0 && t.right.Node?
    requires r == Without(o, InOrder(WithLeast(t.right, Entry(t.key, t.data))), k)
    ensures InOrder(t.left) + [Least(t.right)] + r == InOrder(t.left) + InOrder(t.right)
  {
    var a, x, b := InOrder(t.left), Entry(t.key, t.data), InOrder(t.right);
    Pivot(o, a, x, b);
    LeastIsFirst(t.right, x);
    SwapIsSorted(o, b, x, k);
    FirstBack(a, b, Least(t.right), r);
  }

  lemma FirstBack(a: seq<Entry>, b: seq<Entry>, x: Entry, r: seq<Entry>)
    requires b != [] && x == b[0] && r == b[1..]
    ensures a + [x] + r == a + b
  {
    assert [x] + r == b;
  }

  /** Deleting from the tree is deleting from the sorted table, also when the two-children case
      swaps a node's contents with those of its successor. */
  lemma {:induction false} DeleteIsWithout(o: Order, t: Tree, k: CStr)
    requires Balanced(t) && Sorted(o, InOrder(t))
    ensures InOrder(Delete(o, t, k).0) == Without(o, InOrder(t), k)
    decreases Height(t)
  {
    if t.Node? {
      var a, x, b := InOrder(t.left), Entry(t.key, t.data), InOrder(t.right);
      Pivot(o, a, x, b);
      WithoutSplit(o, a, x, b, k);
      if Compare(o, k, t.key) < 0 {
        OrderLeft(o, t, k);
        DeleteIsWithout(o, t.left, k);
      } else if Compare(o, k, t.key) > 0 {
        OrderRight(o, t, k);
        DeleteIsWithout(o, t.right, k);
      } else if t.left.Node? && t.right.Node? {
        OrderInner(o, t, k);
        SwapIsFound(o, t, k);
        DeleteIsWithout(o, WithLeast(t.right, x), k);
        InnerIsWithout(o, t, k, Without(o, InOrder(WithLeast(t.right, x)), k));
      }
    }
  }

  lemma SortedChildren(o: Order, t: Tree)
    requires t.Node? && Sorted(o, InOrder(t))
    ensures Sorted(o, InOrder(t.left)) && Sorted(o, InOrder(t.right))
  {
    Pivot(o, InOrder(t.left), Entry(t.key, t.data), InOrder(t.right));
  }

  // After the swap the deleted entry is found again, below its old place.
  lemma SwapIsFound(o: Order, t: Tree, k: CStr)
    requires t.Node? && t.right.Node? && Sorted(o, InOrder(t)) && Compare(o, k, t.key) == 0
    ensures var u := WithLeast(t.right, Entry(t.key, t.data));
      Sorted(o, InOrder(u)) && Search(o, u, k).Some?
  {
    var a, x, b := InOrder(t.left), Entry(t.key, t.data), InOrder(t.right);
    Pivot(o, a, x, b);
    LeastIsFirst(t.right, x);
    SwapIsSorted(o, b, x, k);
    var u := WithLeast(t.right, x);
    SearchIsLookup(o, u, k);
    assert x in InOrder(u);
  }

  // The search path of the tree: what the find loop and the recursions follow.
  function Search(o: Order, t: Tree, k: CStr): Option<Pointer> {
    match t
    case Leaf => None
    case Node(l, _, key, data, r) =>
      var c := Compare(o, k, key);
      if c < 0 then Search(o, l, k) else if c > 0 then Search(o, r, k) else Some(data)
  }

  /** Following one root-to-leaf path finds the entry exactly when the table has it. */
  lemma {:induction false} SearchIsLookup(o: Order, t: Tree, k: CStr)
    requires Sorted(o, InOrder(t))
    ensures Search(o, t, k) == Lookup(o, InOrder(t), k)
    ensures Search(o, t, k).Some? <==> HasKey(o, InOrder(t), k)
  {
    LookupMeaning(o, InOrder(t), k);
    if t.Node? {
      var a, x, b := InOrder(t.left), Entry(t.key, t.data), InOrder(t.right);
      Pivot(o, a, x, b);
      LookupSplit(o, a, x, b, k);
      if Compare(o, k, t.key) < 0 {
        SearchIsLookup(o, t.left, k);
      } else if Compare(o, k, t.key) > 0 {
        SearchIsLookup(o, t.right, k);
      }
    }
  }

  // The successor search: remember the last node passed on the left, and from a match go to
  // the least entry of the right subtree.
  function SearchNext(o: Order, t: Tree, k: CStr, prev: Option<Entry>): Option<Entry> {
    match t
    case Leaf => prev
    case Node(l, _, key, data, r) =>
      var c := Compare(o, k, key);
      if c < 0 then SearchNext(o, l, k, Some(Entry(key, data)))
      else if c > 0 then SearchNext(o, r, k, prev)
      else if r.Node? then Some(Least(r)) else prev
  }

  /** It finds the first entry above the key, whether or not the key itself is still there. */
  lemma {:induction false} SearchNextIsAbove(o: Order, t: Tree, k: CStr, prev: Option<Entry>)
    requires Sorted(o, InOrder(t))
    ensures SearchNext(o, t, k, prev) == if Above(o, InOrder(t), k).Some? then Above(o, InOrder(t), k) else prev
  {
    if t.Node? {
      var a, x, b := InOrder(t.left), Entry(t.key, t.data), InOrder(t.right);
      Pivot(o, a, x, b);
      AboveSplit(o, a, x, b, k);
      if Compare(o, k, t.key) < 0 {
        SearchNextIsAbove(o, t.left, k, Some(x));
      } else if Compare(o, k, t.key) > 0 {
        SearchNextIsAbove(o, t.right, k, prev);
      } else if t.right.Node? {
        LeastIsFirst(t.right, x);
      }
    }
  }

  /** "changed" is true exactly when the subtree became one taller, all balance fields stay
      exact, and the size changes only when the key is new. */
  lemma InsertEffect(o: Order, t: Tree, k: CStr, d: Pointer)
    requires Balanced(t) && Sorted(o, InOrder(t))
    ensures var (u, ch) := Insert(o, t, k, d);
      && Balanced(u) && (ch <==> Height(u) != Height(t)) && (ch ==> Height(u) == Height(t) + 1)
      && InOrder(u) == With(o, InOrder(t), k, d) && Sorted(o, InOrder(u))
      && |InOrder(u)| == |InOrder(t)| + (if Search(o, t, k).Some? then 0 else 1)
    ensures Search(o, t, k).Some? <==> HasKey(o, InOrder(t), k)
  {
    SearchIsLookup(o, t, k);
    InsertIsWith(o, t, k, d);
    WithMeaning(o, InOrder(t), k, d);
    assert |multiset(With(o, InOrder(t), k, d))| == |With(o, InOrder(t), k, d)|;
    assert |multiset(InOrder(t))| == |InOrder(t)|;
  }

  /** The same for deletion, where "changed" means one shorter. */
  lemma DeleteEffect(o: Order, t: Tree, k: CStr)
    requires Balanced(t) && Sorted(o, InOrder(t))
    ensures var (u, ch) := Delete(o, t, k);
      && Balanced(u) && (ch <==> Height(u) != Height(t)) && (ch ==> Height(u) == Height(t) - 1)
      && InOrder(u) == Without(o, InOrder(t), k) && Sorted(o, InOrder(u))
      && |InOrder(u)| == |InOrder(t)| - (if Search(o, t, k).Some? then 1 else 0)
    ensures Search(o, t, k).Some? <==> HasKey(o, InOrder(t), k)
  {
    SearchIsLookup(o, t, k);
    DeleteIsWithout(o, t, k);
    WithoutMeaning(o, InOrder(t), k);
  }

  /** In a sorted table the entry above position i is the one at i + 1. */
  lemma {:induction false} AboveAt(o: Order, s: seq<Entry>, i: nat)
    requires Sorted(o, s) && i < |s|
    ensures Above(o, s, s[i].key) == if i + 1 < |s| then Some(s[i + 1]) else None
  {
    var x := s[i];
    assert s == s[..i] + [x] + s[i + 1..];
    CompareIsPreorder(o, x.key, x.key, x.key);
    AboveSplit(o, s[..i], x, s[i + 1..], x.key);
  }

  /** With the least entry deleted, stepping on from it reaches the new least entry. */
  lemma DeleteFirst(o: Order, s: seq<Entry>)
    requires Sorted(o, s) && s != []
    ensures Without(o, s, s[0].key) == s[1..]
    ensures Above(o, s[1..], s[0].key) == if |s| == 1 then None else Some(s[1])
  {
    CompareIsPreorder(o, s[0].key, s[0].key, s[0].key);
    SortedTail(o, s);
    WithoutNone(o, s[1..], s[0].key);
    assert |s| > 1 ==> s[1] in s[1..];
  }

  lemma ShiftHead(v: seq<Entry>, t: seq<Entry>)
    requires t != []
    ensures v + t == v + [t[0]] + t[1..]
  {
  }

  // What a duplicate of the tree holds: every key, no data.
  function Blank(t: Tree): (r: Tree)
    ensures Height(r) == Height(t) && (Balanced(t) ==> Balanced(r))
  {
    match t
    case Leaf => Leaf
    case Node(l, b, k, _, r) => Node(Blank(l), b, k, 0, Blank(r))
  }

  /** A duplicate has the same keys in the same order and NULL data everywhere, so it is equal
      to the original exactly when the original carries no data. */
  lemma {:induction false} BlankMeaning(t: Tree)
    ensures Blanked(InOrder(t), InOrder(Blank(t)))
    ensures Blank(t) == t <==> forall e | e in InOrder(t) :: e.data == 0
  {
    if t.Node? {
      BlankMeaning(t.left);
      BlankMeaning(t.right);
      var a, x, b := InOrder(t.left), Entry(t.key, t.data), InOrder(t.right);
      assert forall e :: e in InOrder(t) <==> e in a || e == x || e in b;
      BlankJoin(a, InOrder(Blank(t.left)), x, b, InOrder(Blank(t.right)));
    }
  }

  // The same keys, the data NULL.
  ghost predicate Blanked(s: seq<Entry>, r: seq<Entry>) {
    |r| == |s| && forall i | 0 <= i < |s| :: r[i] == Entry(s[i].key, 0)
  }

  lemma BlankJoin(a: seq<Entry>, a': seq<Entry>, x: Entry, b: seq<Entry>, b': seq<Entry>)
    requires Blanked(a, a') && Blanked(b, b')
    ensures Blanked(a + [x] + b, a' + [Entry(x.key, 0)] + b')
  {
  }

  /** A single entry with data is not copied. */
  lemma DataIsDropped()
    ensures var t := Node(Leaf, 0, [1], 7, Leaf); Blank(t) != t
  {
    BlankMeaning(Node(Leaf, 0, [1], 7, Leaf));
  }

  lemma {:induction false} WithoutAdded(o: Order, s: seq<Entry>, k: CStr, d: Pointer)
    requires Sorted(o, s) && !HasKey(o, s, k)
    ensures Without(o, With(o, s, k, d), k) == s
  {
    CompareIsPreorder(o, k, k, k);
    if s != [] {
      HasKeyTail(o, s, k);
      if Compare(o, k, s[0].key) < 0 {
        WithoutNone(o, s, k);
        assert ([Entry(k, d)] + s)[1..] == s;
      } else {
        SortedTail(o, s);
        WithoutAdded(o, s[1..], k, d);
        HeadStays(o, s[0], With(o, s[1..], k, d), k);
        assert [s[0]] + s[1..] == s;
      }
    }
  }

  lemma HeadStays(o: Order, x: Entry, s: seq<Entry>, k: CStr)
    requires Compare(o, k, x.key) != 0
    ensures Without(o, [x] + s, k) == [x] + Without(o, s, k)
  {
    assert ([x] + s)[1..] == s;
  }

  /** Deleting undoes inserting: with a new key put in and taken out again, whatever rotations that took, the
      tree holds the entries it held. */
  lemma InsertThenDelete(o: Order, t: Tree, k: CStr, d: Pointer)
    requires Balanced(t) && Sorted(o, InOrder(t)) && !HasKey(o, InOrder(t), k)
    ensures InOrder(Delete(o, Insert(o, t, k, d).0, k).0) == InOrder(t)
  {
    InsertIsWith(o, t, k, d);
    WithIsSorted(o, InOrder(t), k, d);
    DeleteIsWithout(o, Insert(o, t, k, d).0, k);
    WithoutAdded(o, InOrder(t), k, d);
  }

  // ------------------------------------------------ height

  function Fib(n: nat): nat {
    if n < 2 then n else Fib(n - 1) + Fib(n - 2)
  }

  /** A balanced tree of height h holds at least Fib(h + 2) - 1 keys. */
  lemma {:induction false} FibonacciSize(t: Tree)
    requires Balanced(t)
    ensures |InOrder(t)| + 1 >= Fib(Height(t) + 2)
  {
    if t.Node? {
      FibonacciSize(t.left);
      FibonacciSize(t.right);
      FibStep(|InOrder(t.left)|, |InOrder(t.right)|, Height(t.left), Height(t.right), Height(t));
    }
  }

  lemma FibStep(a: nat, b: nat, l: nat, r: nat, h: nat)
    requires a + 1 >= Fib(l + 2) && b + 1 >= Fib(r + 2) && l - 1 <= r <= l + 1 && h == 1 + if l < r then r else l
    ensures a + b + 2 >= Fib(h + 2)
  {
    FibMonotone(h, l + 2);
    FibMonotone(h, r + 2);
  }

  lemma {:induction false} FibMonotone(m: nat, n: nat)
    requires m <= n
    ensures Fib(m) <= Fib(n)
    decreases n
  {
    if m < n {
      FibMonotone(m, n - 1);
      if n == 1 { assert Fib(0) == 0; }
    }
  }

  function Pow2(n: nat): nat {
    if n == 0 then 1 else 2 * Pow2(n - 1)
  }

  lemma {:induction false} Pow2Monotone(m: nat, n: nat)
    requires m <= n
    ensures Pow2(m) <= Pow2(n)
    decreases n
  {
    if m < n { Pow2Monotone(m, n - 1); }
  }

  /** So the height is at most twice the binary logarithm of the number of keys plus one. */
  lemma {:induction false} HeightIsLogarithmic(t: Tree)
    requires Balanced(t)
    ensures Pow2(Height(t) / 2) <= |InOrder(t)| + 1
  {
    FibonacciSize(t);
    FibGrows(Height(t));
  }

  lemma {:induction false} FibGrows(h: nat)
    ensures Fib(h + 2) >= Pow2(h / 2)
  {
    if h >= 2 {
      FibGrows(h - 2);
      FibMonotone(h, h + 1);
    } else {
      assert Fib(2) == 1 && Fib(3) == 2;
    }
  }

  // The single path the height query walks, guided by the balance fields.
  function WalkHeight(t: Tree): nat {
    match t
    case Leaf => 0
    case Node(l, b, _, _, r) => 1 + if b < 0 then WalkHeight(l) else WalkHeight(r)
  }

  /** One root-to-leaf walk following the balance fields measures the true height. */
  lemma {:induction false} WalkIsHeight(t: Tree)
    requires Balanced(t)
    ensures WalkHeight(t) == Height(t)
  {
    if t.Node? {
      WalkIsHeight(t.left);
      WalkIsHeight(t.right);
    }
  }

  // The keys in ascending or descending order, in terms of their characters.
  ghost predicate KeysInOrder(o: Order, s: seq<Entry>) {
    forall i, j | 0 <= i < j < |s| :: KeyBelow(o, s[i].key, s[j].key)
  }

  /** A sorted table is sorted by the bytes of its keys, or by their letters, as the tree's options say. */
  lemma SortedByKeys(o: Order, s: seq<Entry>)
    ensures Sorted(o, s) <==> KeysInOrder(o, s)
  {
    forall i, j | 0 <= i < j < |s| ensures Compare(o, s[i].key, s[j].key) < 0 <==> KeyBelow(o, s[i].key, s[j].key) {
      CompareMeaning(o, s[i].key, s[j].key);
    }
  }

  // The entry that follows a key: the first whose key is above it.
  ghost predicate Follows(o: Order, s: seq<Entry>, k: CStr, e: Entry) {
    e in s && KeyBelow(o, k, e.key) && forall x | x in s && KeyBelow(o, k, x.key) :: x == e || KeyBelow(o, e.key, x.key)
  }

  /** Stepping on leads to the least key above the given one, or nowhere if there is none. */
  lemma {:induction false} AboveMeaning(o: Order, s: seq<Entry>, k: CStr)
    requires Sorted(o, s)
    ensures Above(o, s, k).Some? ==> Follows(o, s, k, Above(o, s, k).value)
    ensures Above(o, s, k) == None ==> forall e | e in s :: !KeyBelow(o, k, e.key)
  {
    if s != [] {
      CompareMeaning(o, k, s[0].key);
      var tail := s[1..];
      assert s == [s[0]] + tail;
      SortedByKeys(o, s);
      if Compare(o, k, s[0].key) >= 0 {
        AboveMeaning(o, tail, k);
      }
    }
  }
}
