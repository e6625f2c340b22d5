// The merge sort of the program's queues: doubly linked rings, sorted in place by rewiring the links.
module QueueSort {
  import opened Sequences
  import opened StableSort

  class Link<T> {
    const val: T
    var next: Link?<T>
    var prev: Link?<T>

    constructor (val: T)
      ensures this.val == val && next == this && prev == this
    {
      this.val := val;
      new;
      next, prev := this, this;
    }
  }

  function Values<T>(q: seq<Link<T>>): (r: seq<T>)
    ensures |r| == |q|
  {
    seq(|q|, i requires 0 <= i < |q| => q[i].val)
  }

  lemma ValuesJoin<T>(a: seq<Link<T>>, b: seq<Link<T>>)
    ensures Values(a + b) == Values(a) + Values(b)
  {
  }

  lemma ValuesCut<T>(q: seq<Link<T>>, n: nat)
    requires n <= |q|
    ensures Values(q[..n]) == Values(q)[..n] && Values(q[n..]) == Values(q)[n..]
  {
  }

  // ---------------------------------------------------------------- links

  predicate Distinct<T>(q: seq<Link<T>>) {
    forall i, j | 0 <= i < j < |q| :: q[i] != q[j]
  }

  function Bag<T>(q: seq<Link<T>>): multiset<Link<T>> {
    multiset(q)
  }

  function First<T>(q: seq<Link<T>>): Link?<T> {
    if q == [] then null else q[0]
  }

  function Last<T>(q: seq<Link<T>>): Link?<T> {
    if q == [] then null else q[|q| - 1]
  }

  // Linked in both directions, the ends left open.
  ghost predicate Chain<T>(q: seq<Link<T>>)
    reads q
  {
    forall i | 0 <= i < |q| - 1 :: q[i].next == q[i + 1] && q[i + 1].prev == q[i]
  }

  ghost predicate Ring<T>(q: seq<Link<T>>)
    reads q
  {
    q != [] && Distinct(q) && Chain(q) && q[|q| - 1].next == q[0] && q[0].prev == q[|q| - 1]
  }

  // Linked forward only, as far as the last one.
  ghost predicate Forward<T>(q: seq<Link<T>>)
    reads q
  {
    forall i | 0 <= i < |q| - 1 :: q[i].next == q[i + 1]
  }

  // Linked forward, and from the last one back to the head of the ring.
  ghost predicate Tail<T>(q: seq<Link<T>>, head: Link<T>)
    reads q
  {
    Forward(q) && (q != [] ==> q[|q| - 1].next == head)
  }

  // The merged list.
  ghost predicate Held<T>(m: seq<Link<T>>, list: Link?<T>, tail: Link?<T>)
    reads m
  {
    Chain(m) && list == First(m) && tail == Last(m)
  }

  // Merged, left in the first run, left behind it: all the nodes, each once, the head of the old ring not
  // where it could be taken for the end.
  ghost predicate Parted<T>(nodes: set<Link<T>>, whole: multiset<Link<T>>, head: Link<T>, m: seq<Link<T>>, a: seq<Link<T>>, b: seq<Link<T>>) {
    && Distinct(m + a + b) && Bag(m + a + b) == whole && (forall x: Link<T> | x in m + a + b :: x in nodes)
    && (a != [] ==> head !in a[1..]) && head !in b
  }

  // ---------------------------------------------------------------- one element

  lemma DistinctParts<T>(m: seq<Link<T>>, e: Link<T>, a: seq<Link<T>>, b: seq<Link<T>>)
    requires Distinct(m + [e] + a + b)
    ensures e !in m && e !in a && e !in b
    ensures m != [] ==> Last(m) !in m[..|m| - 1] && Last(m) !in a && Last(m) !in b
  {
    var q := m + [e] + a + b;
    var n := |m|;
    assert q[n] == e;
    assert forall i | 0 <= i < n :: q[i] == m[i];
    assert forall i | 0 <= i < |a| :: q[n + 1 + i] == a[i];
    assert forall i | 0 <= i < |b| :: q[n + 1 + |a| + i] == b[i];
  }

  // Hangs an element behind the merged ones.
  method Append<T>(list: Link?<T>, tail: Link?<T>, e: Link<T>, head: Link<T>, ghost m: seq<Link<T>>, ghost a: seq<Link<T>>, ghost b: seq<Link<T>>)
    returns (list': Link?<T>, tail': Link?<T>)
    requires Held(m, list, tail) && Forward(a) && Tail(b, head) && Distinct(m + [e] + a + b)
    modifies if tail == null then {e} else {tail, e}
    ensures Held(m + [e], list', tail') && Forward(a) && Tail(b, head)
  {
    DistinctParts(m, e, a, b);
    list' := list;
    if tail != null {
      tail.next := e;
    } else {
      list' := e;
    }
    e.prev := tail;
    tail' := e;
  }

  // Steps on from a node; `size` counts how many are left of its run.
  method Advance<T>(x: Link<T>, size: nat, oldhead: Link<T>) returns (x': Link?<T>, size': nat)
    requires size > 0
    ensures x' == (if x.next == oldhead then null else x.next) && size' == size - 1
  {
    x' := x.next;
    size' := size - 1;
    if x' == oldhead {
      x' := null;
    }
  }

  lemma AfterFirst<T>(q: seq<Link<T>>, head: Link<T>)
    requires Forward(q) && q != [] && head !in q[1..]
    ensures Forward(q[1..]) && (|q| > 1 ==> q[0].next == q[1] && q[1] != head)
    ensures Tail(q, head) ==> Tail(q[1..], head) && First(q[1..]) == if q[0].next == head then null else q[0].next
  {
    assert forall i | 0 <= i < |q| - 1 :: q[1..][i] == q[i + 1];
  }

  lemma TakenFromP<T>(nodes: set<Link<T>>, whole: multiset<Link<T>>, head: Link<T>, m: seq<Link<T>>, a: seq<Link<T>>, b: seq<Link<T>>)
    requires Parted(nodes, whole, head, m, a, b) && a != []
    ensures Parted(nodes, whole, head, m + [a[0]], a[1..], b) && Distinct(m + [a[0]] + a[1..] + b)
  {
    assert m + [a[0]] + a[1..] + b == m + a + b;
  }

  lemma TakenFromQ<T>(nodes: set<Link<T>>, whole: multiset<Link<T>>, head: Link<T>, m: seq<Link<T>>, a: seq<Link<T>>, b: seq<Link<T>>)
    requires Parted(nodes, whole, head, m, a, b) && b != []
    ensures Parted(nodes, whole, head, m + [b[0]], a, b[1..]) && Distinct(m + [b[0]] + a + b[1..])
  {
    var q, r := m + a + b, m + [b[0]] + a + b[1..];
    assert q == m + a + [b[0]] + b[1..];
    MovedForward(m, a, b[0], b[1..], q, r);
    assert forall x | x in r :: x in Bag(r);
  }

  lemma MovedForward<T>(m: seq<Link<T>>, a: seq<Link<T>>, e: Link<T>, b: seq<Link<T>>, q: seq<Link<T>>, r: seq<Link<T>>)
    requires q == m + a + [e] + b && r == m + [e] + a + b && Distinct(q)
    ensures Distinct(r) && Bag(r) == Bag(q)
  {
    var k, n := |m|, |a|;
    forall i, j | 0 <= i < j < |r| ensures r[i] != r[j] {
      var x, y := Origin(k, n, i), Origin(k, n, j);
      assert r[i] == q[x] && r[j] == q[y];
    }
  }

  // Where the element at i comes from when the one at k + n moves forward to k.
  function Origin(k: nat, n: nat, i: nat): nat {
    if i < k then i else if i == k then k + n else if i <= k + n then i - 1 else i
  }

  // ---------------------------------------------------------------- two runs

  // Still to come: the two runs, merged.
  ghost predicate Coming<T>(m: seq<Link<T>>, a: seq<Link<T>>, c: seq<Link<T>>, leq: (T, T) -> bool, target: seq<T>) {
    SortedBy(Values(a), leq) && SortedBy(Values(c), leq) && Values(m) + Merge(Values(a), Values(c), leq) == target
  }

  lemma NextFromP<T(!new)>(m: seq<Link<T>>, a: seq<Link<T>>, c: seq<Link<T>>, leq: (T, T) -> bool, target: seq<T>)
    requires Preorder(leq) && Coming(m, a, c, leq, target) && a != [] && (c != [] ==> leq(a[0].val, c[0].val))
    ensures Coming(m + [a[0]], a[1..], c, leq, target)
  {
    var x, y := Values(a), Values(c);
    if c != [] {
      MergeFirst(x, y, leq);
    }
    ValuesCut(a, 1);
    FirstMerged(m, a[0], x, Merge(x, y, leq), Merge(x[1..], y, leq), target);
  }

  lemma NextFromQ<T(!new)>(m: seq<Link<T>>, a: seq<Link<T>>, c: seq<Link<T>>, leq: (T, T) -> bool, target: seq<T>)
    requires Preorder(leq) && Coming(m, a, c, leq, target) && c != [] && (a != [] ==> !leq(a[0].val, c[0].val))
    ensures Coming(m + [c[0]], a, c[1..], leq, target)
  {
    var x, y := Values(a), Values(c);
    if a != [] {
      MergeFirst(x, y, leq);
    }
    ValuesCut(c, 1);
    FirstMerged(m, c[0], y, Merge(x, y, leq), Merge(x, y[1..], leq), target);
  }

  lemma FirstMerged<T>(m: seq<Link<T>>, e: Link<T>, x: seq<T>, r: seq<T>, r': seq<T>, target: seq<T>)
    requires Values(m) + r == target && r == [e.val] + r'
    ensures Values(m + [e]) + r' == target
  {
    ValuesJoin(m, [e]);
    assert Values([e]) == [e.val];
    Associate(Values(m), [e.val], r');
  }

  // The links of what is merged and of what is left of two runs.
  ghost predicate Linked<T>(list: Link?<T>, tail: Link?<T>, head: Link<T>, m: seq<Link<T>>, a: seq<Link<T>>, b: seq<Link<T>>)
    reads m, a, b
  {
    Held(m, list, tail) && Forward(a) && Tail(b, head)
  }

  // The pointers and counts of the two runs; the second may be cut short by the end.
  predicate Counted<T>(p: Link?<T>, psize: nat, q: Link?<T>, qsize: nat, a: seq<Link<T>>, c: seq<Link<T>>, d: seq<Link<T>>) {
    psize == |a| && (a != [] ==> p == a[0]) && q == First(c + d) && |c| <= qsize && (|c| < qsize ==> d == [])
  }

  // The next element comes from the first run,
  method StepP<T(!new)>(p: Link<T>, psize: nat, q: Link?<T>, qsize: nat, oldhead: Link<T>, list: Link?<T>, tail: Link?<T>,
                        ghost nodes: set<Link<T>>, ghost whole: multiset<Link<T>>,
                        ghost m: seq<Link<T>>, ghost a: seq<Link<T>>, ghost c: seq<Link<T>>, ghost d: seq<Link<T>>)
    returns (p': Link?<T>, psize': nat, list': Link?<T>, tail': Link?<T>, ghost m': seq<Link<T>>, ghost a': seq<Link<T>>)
    requires Linked(list, tail, oldhead, m, a, c + d) && Parted(nodes, whole, oldhead, m, a, c + d) && Counted(p, psize, q, qsize, a, c, d)
    requires a != []
    modifies nodes
    ensures m' == m + [a[0]] && a' == a[1..]
    ensures Linked(list', tail', oldhead, m', a', c + d) && Parted(nodes, whole, oldhead, m', a', c + d) && Counted(p', psize', q, qsize, a', c, d)
  {
    ghost var b := c + d;
    TakenFromP(nodes, whole, oldhead, m, a, b);
    AfterFirst(a, oldhead);
    m', a' := m + [a[0]], a[1..];
    p', psize' := Advance(p, psize, oldhead);
    Inside(nodes, whole, oldhead, m', a', b, |m|);
    TailInside(nodes, whole, oldhead, m', a', b, m, tail);
    list', tail' := Append(list, tail, p, oldhead, m, a', b);
  }

  lemma Inside<T>(nodes: set<Link<T>>, whole: multiset<Link<T>>, head: Link<T>, m: seq<Link<T>>, a: seq<Link<T>>, b: seq<Link<T>>, i: nat)
    requires Parted(nodes, whole, head, m, a, b) && i < |m|
    ensures m[i] in nodes
  {
    assert (m + a + b)[i] == m[i];
  }

  lemma TailInside<T>(nodes: set<Link<T>>, whole: multiset<Link<T>>, head: Link<T>, m': seq<Link<T>>, a: seq<Link<T>>, b: seq<Link<T>>, m: seq<Link<T>>, tail: Link?<T>)
    requires Parted(nodes, whole, head, m', a, b) && |m'| == |m| + 1 && m'[..|m|] == m && tail == Last(m)
    ensures tail != null ==> tail in nodes
  {
    if m != [] {
      Inside(nodes, whole, head, m', a, b, |m| - 1);
    }
  }

  // or from the second.
  method StepQ<T(!new)>(p: Link?<T>, psize: nat, q: Link<T>, qsize: nat, oldhead: Link<T>, list: Link?<T>, tail: Link?<T>,
                        ghost nodes: set<Link<T>>, ghost whole: multiset<Link<T>>,
                        ghost m: seq<Link<T>>, ghost a: seq<Link<T>>, ghost c: seq<Link<T>>, ghost d: seq<Link<T>>)
    returns (q': Link?<T>, qsize': nat, list': Link?<T>, tail': Link?<T>, ghost m': seq<Link<T>>, ghost c': seq<Link<T>>)
    requires Linked(list, tail, oldhead, m, a, c + d) && Parted(nodes, whole, oldhead, m, a, c + d) && Counted(p, psize, q, qsize, a, c, d)
    requires c != []
    modifies nodes
    ensures m' == m + [c[0]] && c' == c[1..]
    ensures Linked(list', tail', oldhead, m', a, c' + d) && Parted(nodes, whole, oldhead, m', a, c' + d) && Counted(p, psize, q', qsize', a, c', d)
  {
    m', c' := m + [c[0]], c[1..];
    ghost var b' := c' + d;
    q', qsize' := Advance(q, qsize, oldhead);
    LeftInQ(nodes, whole, oldhead, m, a, c, d, b');
    Inside(nodes, whole, oldhead, m', a, b', |m|);
    TailInside(nodes, whole, oldhead, m', a, b', m, tail);
    list', tail' := Append(list, tail, q, oldhead, m, a, b');
  }

  lemma LeftInQ<T>(nodes: set<Link<T>>, whole: multiset<Link<T>>, head: Link<T>, m: seq<Link<T>>, a: seq<Link<T>>, c: seq<Link<T>>, d: seq<Link<T>>, b': seq<Link<T>>)
    requires Parted(nodes, whole, head, m, a, c + d) && Tail(c + d, head) && c != [] && b' == c[1..] + d
    ensures Parted(nodes, whole, head, m + [c[0]], a, b') && Distinct(m + [c[0]] + a + b')
    ensures Tail(b', head) && First(b') == if c[0].next == head then null else c[0].next
  {
    var b := c + d;
    assert b[0] == c[0] && b[1..] == b';
    TakenFromQ(nodes, whole, head, m, a, b);
    AfterFirst(b, head);
  }

  /** Merges two runs that follow each other into the list. */
  method MergeRuns<T(!new)>(p0: Link<T>, psize0: nat, q0: Link?<T>, qsize0: nat, oldhead: Link<T>, list0: Link?<T>, tail0: Link?<T>, leq: (T, T) -> bool,
                            ghost nodes: set<Link<T>>, ghost whole: multiset<Link<T>>,
                            ghost m0: seq<Link<T>>, ghost a0: seq<Link<T>>, ghost c0: seq<Link<T>>, ghost d: seq<Link<T>>, ghost target: seq<T>)
    returns (q: Link?<T>, list: Link?<T>, tail: Link?<T>, ghost m: seq<Link<T>>)
    requires Linked(list0, tail0, oldhead, m0, a0, c0 + d) && Parted(nodes, whole, oldhead, m0, a0, c0 + d) && Counted(p0, psize0, q0, qsize0, a0, c0, d)
    requires Preorder(leq) && Coming(m0, a0, c0, leq, target)
    modifies nodes
    ensures Linked(list, tail, oldhead, m, [], d) && Parted(nodes, whole, oldhead, m, [], d) && q == First(d)
    ensures Values(m) == target
  {
    var p: Link?<T>, psize, qsize := p0, psize0, qsize0;
    ghost var a, c := a0, c0;
    q, list, tail, m := q0, list0, tail0, m0;
    while psize > 0 || (qsize > 0 && q != null)
      invariant Linked(list, tail, oldhead, m, a, c + d) && Parted(nodes, whole, oldhead, m, a, c + d) && Counted(p, psize, q, qsize, a, c, d)
      invariant Coming(m, a, c, leq, target)
      decreases |a| + |c|
    {
      if psize > 0 && (qsize == 0 || q == null || leq(p.val, q.val)) {
        ChosenP(p, psize, q, qsize, m, a, c, d, leq, target);
        p, psize, list, tail, m, a := StepP(p, psize, q, qsize, oldhead, list, tail, nodes, whole, m, a, c, d);
      } else {
        ChosenQ(p, psize, q, qsize, m, a, c, d, leq, target);
        q, qsize, list, tail, m, c := StepQ(p, psize, q, qsize, oldhead, list, tail, nodes, whole, m, a, c, d);
      }
    }
    AllMerged(p, psize, q, qsize, m, a, c, d, leq, target);
  }

  lemma ChosenP<T(!new)>(p: Link?<T>, psize: nat, q: Link?<T>, qsize: nat, m: seq<Link<T>>, a: seq<Link<T>>, c: seq<Link<T>>, d: seq<Link<T>>,
                         leq: (T, T) -> bool, target: seq<T>)
    requires Preorder(leq) && Counted(p, psize, q, qsize, a, c, d) && Coming(m, a, c, leq, target)
    requires psize > 0 && p != null && (qsize == 0 || q == null || leq(p.val, q.val))
    ensures a != [] && p == a[0] && Coming(m + [a[0]], a[1..], c, leq, target)
  {
    NextFromP(m, a, c, leq, target);
  }

  lemma ChosenQ<T(!new)>(p: Link?<T>, psize: nat, q: Link?<T>, qsize: nat, m: seq<Link<T>>, a: seq<Link<T>>, c: seq<Link<T>>, d: seq<Link<T>>,
                         leq: (T, T) -> bool, target: seq<T>)
    requires Preorder(leq) && Counted(p, psize, q, qsize, a, c, d) && Coming(m, a, c, leq, target)
    requires qsize > 0 && q != null && (psize == 0 || (p != null && !leq(p.val, q.val)))
    ensures c != [] && q == c[0] && Coming(m + [c[0]], a, c[1..], leq, target)
  {
    NextFromQ(m, a, c, leq, target);
  }

  lemma AllMerged<T>(p: Link?<T>, psize: nat, q: Link?<T>, qsize: nat, m: seq<Link<T>>, a: seq<Link<T>>, c: seq<Link<T>>, d: seq<Link<T>>,
                     leq: (T, T) -> bool, target: seq<T>)
    requires Counted(p, psize, q, qsize, a, c, d) && Coming(m, a, c, leq, target) && psize == 0 && (qsize == 0 || q == null)
    ensures a == [] && c + d == d && q == First(d) && Values(m) == target
  {
    assert c == [] && c + d == d;
    assert Values(m) + [] == Values(m);
  }

  // ---------------------------------------------------------------- pieces of a size

  function Min(a: nat, b: nat): nat {
    if a < b then a else b
  }

  // Sorting as a function of its own, so that a pass needs to know nothing else of it than its length.
  ghost predicate Sorts<T(!new)>(sort: seq<T> -> seq<T>, leq: (T, T) -> bool) {
    forall q {:trigger SortBy(q, leq)} :: sort(q) == SortBy(q, leq)
  }

  ghost predicate KeepsLength<T(!new)>(sort: seq<T> -> seq<T>) {
    forall q :: |sort(q)| == |q|
  }

  // The sequence with every piece of n elements sorted by itself.
  function Chunked<T>(q: seq<T>, n: nat, sort: seq<T> -> seq<T>): seq<T>
    requires n > 0
  {
    if |q| <= n then sort(q) else sort(q[..n]) + Chunked(q[n..], n, sort)
  }

  // The first piece, which may be the only one and short, then the others.
  lemma ChunkFirst<T(!new)>(q: seq<T>, n: nat, k: nat, sort: seq<T> -> seq<T>, front: seq<T>, back: seq<T>)
    requires n > 0 && k == Min(n, |q|) && front == q[..k] && back == q[k..] && KeepsLength(sort)
    ensures Chunked(q, n, sort) == sort(front) + Chunked(back, n, sort)
  {
    if k == |q| {
      assert front == q && back == [];
      assert |sort(back)| == 0;
    }
  }

  lemma {:induction false} ChunkedByOne<T(!new)>(q: seq<T>, leq: (T, T) -> bool, sort: seq<T> -> seq<T>)
    requires Sorts(sort, leq) && KeepsLength(sort)
    ensures Chunked(q, 1, sort) == q
  {
    if q == [] {
      assert |sort(q)| == 0;
    } else {
      SortOne(q[0], leq);
      ChunkedByOne(q[1..], leq, sort);
      ChunkFirst(q, 1, 1, sort, [q[0]], q[1..]);
    }
  }

  lemma {:induction false} ChunkedLength<T(!new)>(q: seq<T>, n: nat, sort: seq<T> -> seq<T>)
    requires n > 0 && KeepsLength(sort)
    ensures |Chunked(q, n, sort)| == |q|
  {
    if |q| > n {
      ChunkedLength(q[n..], n, sort);
    }
  }

  // ---------------------------------------------------------------- one pass

  // Merged and not yet looked at: all the nodes, each once.
  ghost predicate Pieces<T>(nodes: set<Link<T>>, whole: multiset<Link<T>>, head: Link<T>, m: seq<Link<T>>, b: seq<Link<T>>) {
    Distinct(m + b) && Bag(m + b) == whole && (forall x: Link<T> | x in m + b :: x in nodes) && (b != [] ==> head !in b[1..])
  }

  // Midway in a pass that merges runs of `size`: `rest` is what the elements ahead were before the first pass, and
  // what is merged is sorted in pieces of twice the size.
  ghost predicate Passing<T(!new)>(goal: seq<T>, size: nat, sort: seq<T> -> seq<T>, m: seq<T>, rest: seq<T>, b: seq<T>) {
    size > 0 && KeepsLength(sort) && b == Chunked(rest, size, sort) && m + Chunked(rest, 2 * size, sort) == goal
  }

  // Steps `insize` places along, or to the end.
  method StepAlong<T>(p: Link<T>, insize: nat, oldhead: Link<T>, ghost b: seq<Link<T>>) returns (q: Link?<T>, psize: nat)
    requires insize > 0 && b != [] && p == b[0] && Tail(b, oldhead) && oldhead !in b[1..]
    ensures psize == Min(insize, |b|) && q == First(b[psize..])
  {
    q, psize := p, 0;
    var i := 0;
    while i < insize
      invariant psize == i <= insize && psize < |b| && q == b[psize]
    {
      psize := psize + 1;
      assert psize < |b| ==> b[1..][psize - 1] == b[psize];
      q := if q.next == oldhead then null else q.next;
      if q == null {
        break;
      }
      i := i + 1;
    }
  }

  // The next two runs and what comes behind them, before the first pass.
  lemma TwoRuns<T(!new)>(rest: seq<T>, size: nat, sort: seq<T> -> seq<T>, a: seq<T>, c: seq<T>, d: seq<T>)
    returns (u: seq<T>, v: seq<T>, behind: seq<T>)
    requires size > 0 && KeepsLength(sort) && a + (c + d) == Chunked(rest, size, sort)
    requires |a| == Min(size, |a + (c + d)|) && |c| == Min(size, |c + d|)
    ensures a == sort(u) && c == sort(v) && d == Chunked(behind, size, sort)
    ensures Chunked(rest, 2 * size, sort) == sort(u + v) + Chunked(behind, 2 * size, sort)
  {
    var i, k := |a|, |c|;
    ChunkedLength(rest, size, sort);
    var rest' := rest[i..];
    u, v, behind := rest[..i], rest'[..k], rest'[k..];
    ChunkFirst(rest, size, i, sort, u, rest');
    SplitEqual(a, c + d, sort(u), Chunked(rest', size, sort));
    ChunkFirst(rest', size, k, sort, v, behind);
    SplitEqual(c, d, sort(v), Chunked(behind, size, sort));
    HeadOfTail(rest, i, k);
    ChunkFirst(rest, 2 * size, i + k, sort, u + v, behind);
  }

  lemma HeadOfTail<T>(q: seq<T>, i: nat, j: nat)
    requires i + j <= |q|
    ensures q[..i] + q[i..][..j] == q[..i + j] && q[i..][j..] == q[i + j..]
  {
  }

  lemma SplitEqual<T>(a: seq<T>, b: seq<T>, a': seq<T>, b': seq<T>)
    requires a + b == a' + b' && |a| == |a'|
    ensures a == a' && b == b'
  {
    assert (a + b)[..|a|] == a && (a + b)[|a|..] == b;
    assert (a' + b')[..|a'|] == a' && (a' + b')[|a'|..] == b';
  }

  // Merging the two runs gives what they were, sorted.
  lemma RunsCome<T(!new)>(m: seq<Link<T>>, a: seq<Link<T>>, c: seq<Link<T>>, u: seq<T>, v: seq<T>, leq: (T, T) -> bool, sort: seq<T> -> seq<T>, target: seq<T>)
    requires Preorder(leq) && Sorts(sort, leq) && Values(a) == sort(u) && Values(c) == sort(v) && target == Values(m) + sort(u + v)
    ensures Coming(m, a, c, leq, target)
  {
    MergeSorts(u, v, leq);
    SortSorts(u, leq);
    SortSorts(v, leq);
  }

  lemma PassGoesOn<T(!new)>(goal: seq<T>, size: nat, sort: seq<T> -> seq<T>, m: seq<T>, rest: seq<T>, b: seq<T>, both: seq<T>, behind: seq<T>, d: seq<T>)
    requires Passing(goal, size, sort, m, rest, b) && d == Chunked(behind, size, sort)
    requires Chunked(rest, 2 * size, sort) == sort(both) + Chunked(behind, 2 * size, sort)
    ensures Passing(goal, size, sort, m + sort(both), behind, d)
  {
    Associate(m, sort(both), Chunked(behind, 2 * size, sort));
  }

  lemma PieceSplit<T>(nodes: set<Link<T>>, whole: multiset<Link<T>>, head: Link<T>, m: seq<Link<T>>, b: seq<Link<T>>, a: seq<Link<T>>, r: seq<Link<T>>)
    requires Pieces(nodes, whole, head, m, b) && Tail(b, head) && b == a + r && a != []
    ensures Parted(nodes, whole, head, m, a, r) && Forward(a) && Tail(r, head)
  {
    assert m + a + r == m + b;
    assert b[1..] == a[1..] + r;
    assert forall i | 0 <= i < |a| :: b[i] == a[i];
    assert forall i | 0 <= i < |r| :: b[|a| + i] == r[i];
  }

  lemma PieceDone<T>(nodes: set<Link<T>>, whole: multiset<Link<T>>, head: Link<T>, m: seq<Link<T>>, d: seq<Link<T>>)
    requires Parted(nodes, whole, head, m, [], d)
    ensures Pieces(nodes, whole, head, m, d)
  {
    assert m + [] + d == m + d;
  }

  // One merge of a pass.
  method MergeNext<T(!new)>(p: Link<T>, insize: nat, oldhead: Link<T>, list0: Link?<T>, tail0: Link?<T>, leq: (T, T) -> bool,
                            ghost nodes: set<Link<T>>, ghost whole: multiset<Link<T>>, ghost goal: seq<T>, ghost sort: seq<T> -> seq<T>,
                            ghost m0: seq<Link<T>>, ghost rest0: seq<T>, ghost b0: seq<Link<T>>)
    returns (q: Link?<T>, list: Link?<T>, tail: Link?<T>, ghost m: seq<Link<T>>, ghost rest: seq<T>, ghost b: seq<Link<T>>)
    requires Preorder(leq) && Sorts(sort, leq) && Held(m0, list0, tail0) && Tail(b0, oldhead) && Pieces(nodes, whole, oldhead, m0, b0)
    requires Passing(goal, insize, sort, Values(m0), rest0, Values(b0)) && b0 != [] && p == b0[0]
    modifies nodes
    ensures Held(m, list, tail) && Tail(b, oldhead) && Pieces(nodes, whole, oldhead, m, b) && q == First(b)
    ensures Passing(goal, insize, sort, Values(m), rest, Values(b)) && |b| == |b0| - Min(2 * insize, |b0|)
  {
    var psize;
    q, psize := StepAlong(p, insize, oldhead, b0);
    ghost var a, r, c, d := CutRuns(b0, insize, psize, q);
    PieceSplit(nodes, whole, oldhead, m0, b0, a, r);
    ghost var target;
    target, rest := NextValues(goal, insize, leq, sort, m0, rest0, b0, a, c, d);
    q, list, tail, m := MergeRuns(p, psize, q, insize, oldhead, list0, tail0, leq, nodes, whole, m0, a, c, d, target);
    b := d;
    PieceDone(nodes, whole, oldhead, m, d);
  }

  // The values of the two runs of a merge.
  lemma NextValues<T(!new)>(goal: seq<T>, size: nat, leq: (T, T) -> bool, sort: seq<T> -> seq<T>,
                            m: seq<Link<T>>, rest: seq<T>, b: seq<Link<T>>, a: seq<Link<T>>, c: seq<Link<T>>, d: seq<Link<T>>)
    returns (target: seq<T>, behind: seq<T>)
    requires Preorder(leq) && Sorts(sort, leq) && Passing(goal, size, sort, Values(m), rest, Values(b))
    requires b == a + (c + d) && |a| == Min(size, |b|) && |c| == Min(size, |c + d|)
    ensures Coming(m, a, c, leq, target) && Passing(goal, size, sort, target, behind, Values(d))
  {
    ValuesJoin(a, c + d);
    ValuesJoin(c, d);
    var u, v;
    u, v, behind := TwoRuns(rest, size, sort, Values(a), Values(c), Values(d));
    target := Values(m) + sort(u + v);
    PassGoesOn(goal, size, sort, Values(m), rest, Values(b), u + v, behind, Values(d));
    RunsCome(m, a, c, u, v, leq, sort, target);
  }

  // Their nodes.
  lemma CutRuns<T>(b: seq<Link<T>>, size: nat, psize: nat, q: Link?<T>) returns (a: seq<Link<T>>, r: seq<Link<T>>, c: seq<Link<T>>, d: seq<Link<T>>)
    requires size > 0 && b != [] && psize == Min(size, |b|) && q == First(b[psize..])
    ensures a != [] && b == a + r && r == c + d && |a| == psize && |c| == Min(size, |r|) && |d| == |b| - Min(2 * size, |b|)
    ensures Counted(b[0], psize, q, size, a, c, d)
  {
    a, r := b[..psize], b[psize..];
    var k := Min(size, |r|);
    c, d := r[..k], r[k..];
    assert c + d == r;
  }

  // How many merges there were, as far as it matters.
  predicate Merges(nmerges: nat, size: nat, n: nat, left: nat) {
    && left <= n && (nmerges == 0 <==> left == n) && (nmerges == 1 ==> left == n - Min(2 * size, n)) && (nmerges > 1 ==> n > 2 * size)
  }

  /** One pass: every two runs of `insize` become one. */
  method Pass<T(!new)>(list0: Link<T>, insize: nat, leq: (T, T) -> bool, ghost nodes: set<Link<T>>, ghost s: seq<Link<T>>, ghost orig: seq<T>, ghost sort: seq<T> -> seq<T>)
    returns (list: Link<T>, nmerges: nat, ghost m: seq<Link<T>>)
    requires Preorder(leq) && Sorts(sort, leq) && KeepsLength(sort) && insize > 0
    requires Ring(s) && list0 == s[0] && (forall x | x in s :: x in nodes) && Values(s) == Chunked(orig, insize, sort)
    modifies nodes
    ensures Ring(m) && list == m[0] && Bag(m) == Bag(s) && Values(m) == Chunked(orig, 2 * insize, sort)
    ensures nmerges <= 1 <==> |s| <= 2 * insize
  {
    var p: Link?<T>, first, tail := list0, null, null;
    ghost var whole, b, rest, goal := Bag(s), s, orig, Chunked(orig, 2 * insize, sort);
    m, nmerges := [], 0;
    BeginPass(nodes, whole, list0, s, orig, insize, sort);
    while p != null
      invariant Held(m, first, tail) && Tail(b, list0) && Pieces(nodes, whole, list0, m, b) && p == First(b)
      invariant Passing(goal, insize, sort, Values(m), rest, Values(b)) && Merges(nmerges, insize, |s|, |b|)
      decreases |b|
    {
      nmerges := nmerges + 1;
      p, first, tail, m, rest, b := MergeNext(p, insize, list0, first, tail, leq, nodes, whole, goal, sort, m, rest, b);
    }
    EndPass(nodes, whole, list0, s, m, goal, rest, insize, sort);
    list := Close(first, tail, m);
  }

  // The merged list becomes a ring again.
  method Close<T>(first: Link<T>, tail: Link<T>, ghost m: seq<Link<T>>) returns (list: Link<T>)
    requires Held(m, first, tail) && m != [] && Distinct(m)
    modifies tail`next, first`prev
    ensures Ring(m) && list == m[0]
  {
    list := first;
    tail.next := list;
    list.prev := tail;
  }

  lemma BeginPass<T(!new)>(nodes: set<Link<T>>, whole: multiset<Link<T>>, head: Link<T>, s: seq<Link<T>>, orig: seq<T>, size: nat, sort: seq<T> -> seq<T>)
    requires Ring(s) && head == s[0] && whole == Bag(s) && (forall x | x in s :: x in nodes)
    requires size > 0 && KeepsLength(sort) && Values(s) == Chunked(orig, size, sort)
    ensures Tail(s, head) && Pieces(nodes, whole, head, [], s) && Passing(Chunked(orig, 2 * size, sort), size, sort, Values<T>([]), orig, Values(s))
  {
    assert [] + s == s && Values<T>([]) == [];
    Units(Chunked(orig, 2 * size, sort));
    forall i | 1 <= i < |s| ensures s[i] != head {
    }
  }

  lemma EndPass<T(!new)>(nodes: set<Link<T>>, whole: multiset<Link<T>>, head: Link<T>, s: seq<Link<T>>, m: seq<Link<T>>, goal: seq<T>, rest: seq<T>, size: nat, sort: seq<T> -> seq<T>)
    requires Pieces(nodes, whole, head, m, []) && Passing(goal, size, sort, Values(m), rest, Values<T>([])) && whole == Bag(s) && s != []
    ensures m != [] && Distinct(m) && Bag(m) == whole && (forall x | x in m :: x in nodes) && Values(m) == goal
  {
    ChunkedLength(rest, size, sort);
    ChunkedLength(rest, 2 * size, sort);
    assert m + [] == m;
    Units(Values(m));
    assert |Bag(s)| == |s| && |Bag(m)| == |m|;
  }

  // ---------------------------------------------------------------- the queue and its head

  // A queue is a ring of its head and its elements.
  ghost predicate Queue<T>(qh: Link<T>, q: seq<Link<T>>)
    reads qh, q
  {
    Ring([qh] + q)
  }

  // An element leaves its ring.
  method Dequeue<T>(x: Link<T>, ghost q: seq<Link<T>>)
    requires Queue(x, q) && q != []
    modifies x, q
    ensures Ring(q) && x.next == x && x.prev == x
  {
    HeadFirst(x, q);
    var prev, next := x.prev, x.next;
    next.prev := prev;
    prev.next := next;
    x.next, x.prev := x, x;
  }

  // An element joins a ring behind its last one, which makes it the head.
  method Enqueue<T>(x: Link<T>, last: Link<T>, ghost q: seq<Link<T>>)
    requires Ring(q) && last == q[|q| - 1] && x !in q
    modifies x, last, last.next
    ensures Queue(x, q)
  {
    x.next := last.next;
    x.prev := last;
    last.next.prev := x;
    last.next := x;
    JoinsRing(x, q);
  }

  lemma JoinsRing<T>(x: Link<T>, q: seq<Link<T>>)
    requires Distinct(q) && Chain(q) && q != [] && x !in q
    requires x.next == q[0] && q[0].prev == x && x.prev == q[|q| - 1] && q[|q| - 1].next == x
    ensures Queue(x, q)
  {
    var r := [x] + q;
    assert forall i | 0 <= i < |q| :: r[i + 1] == q[i];
    forall i | 0 <= i < |r| - 1 ensures r[i].next == r[i + 1] && r[i + 1].prev == r[i] {
      if i > 0 {
        assert q[i - 1].next == q[i];
      }
    }
  }

  /** sortqueue: the elements stay the same nodes, and their values are in the order of the stable sort. */
  method SortQueue<T(!new)>(qh: Link<T>, leq: (T, T) -> bool, ghost q: seq<Link<T>>) returns (ghost sorted: seq<Link<T>>)
    requires Preorder(leq) && Queue(qh, q)
    modifies qh, q
    ensures Queue(qh, sorted) && Bag(sorted) == Bag(q) && Values(sorted) == SortBy(Values(q), leq)
  {
    sorted := q;
    HeadFirst(qh, q);
    if qh.next == qh {
      return;
    }
    var list := qh.next;
    Dequeue(qh, q);
    list, sorted := SortRing(list, leq, q);
    SameNodes(q, sorted);
    assert sorted[0] in q && sorted[|sorted| - 1] in q;
    Enqueue(qh, list.prev, sorted);
  }

  lemma HeadFirst<T>(qh: Link<T>, q: seq<Link<T>>)
    requires Queue(qh, q)
    ensures qh !in q && (qh.next == qh <==> q == [])
    ensures q != [] ==> qh.next == q[0] && q[0].prev == qh && qh.prev == q[|q| - 1] && q[|q| - 1].next == qh && Chain(q) && Distinct(q)
  {
    var r := [qh] + q;
    assert r[0] == qh && forall i | 0 <= i < |q| :: r[i + 1] == q[i];
    forall i | 0 <= i < |q| - 1 ensures q[i].next == q[i + 1] && q[i + 1].prev == q[i] {
      assert r[i + 1].next == r[i + 2];
    }
    if q != [] {
      assert r[|r| - 1] == q[|q| - 1] && r[1] == q[0];
    }
  }

  lemma SameNodes<T>(q: seq<Link<T>>, r: seq<Link<T>>)
    requires Bag(r) == Bag(q)
    ensures forall x :: x in r <==> x in q
  {
    assert forall x :: x in r <==> x in Bag(r);
    assert forall x :: x in q <==> x in Bag(q);
  }

  // The passes, until one merge was enough.
  method SortRing<T(!new)>(first: Link<T>, leq: (T, T) -> bool, ghost q: seq<Link<T>>) returns (list: Link<T>, ghost sorted: seq<Link<T>>)
    requires Preorder(leq) && Ring(q) && first == q[0]
    modifies q
    ensures Ring(sorted) && list == sorted[0] && Bag(sorted) == Bag(q) && Values(sorted) == SortBy(Values(q), leq)
  {
    ghost var sort, orig, nodes := (x: seq<T>) => SortBy(x, leq), Values(q), set x | x in q;
    var insize, nmerges := 1, 0;
    ChunkedByOne(orig, leq, sort);
    list, sorted := first, q;
    while true
      invariant Ring(sorted) && list == sorted[0] && Bag(sorted) == Bag(q) && |sorted| == |q|
      invariant 0 < insize <= |q| && Values(sorted) == Chunked(orig, insize, sort)
      decreases |q| - insize
    {
      SameNodes(q, sorted);
      list, nmerges, sorted := Pass(list, insize, leq, nodes, sorted, orig, sort);
      assert |Bag(sorted)| == |sorted| && |Bag(q)| == |q|;
      if nmerges <= 1 {
        return;
      }
      insize := insize * 2;
    }
  }
}
