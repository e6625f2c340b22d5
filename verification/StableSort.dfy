// Stable sorting by its result: every element behind the earlier ones that it is not below. QueueSort proves
// the program's merge sort against it. The library's qsort is used on keys that all differ, where every sort
// has the same result.
module StableSort {
  import opened Sequences

  ghost predicate Preorder<T(!new)>(leq: (T, T) -> bool) {
    && (forall x, y :: leq(x, y) || leq(y, x))
    && (forall x, y, z :: leq(x, y) && leq(y, z) ==> leq(x, z))
  }

  function InsertBy<T>(q: seq<T>, x: T, leq: (T, T) -> bool): (r: seq<T>)
    ensures |r| == |q| + 1 && multiset(r) == multiset(q) + multiset{x}
  {
    if q == [] || leq(q[|q| - 1], x) then q + [x]
    else
      var front, last := q[..|q| - 1], q[|q| - 1];
      assert q == front + [last];
      InsertBy(front, x, leq) + [last]
  }

  function SortBy<T>(q: seq<T>, leq: (T, T) -> bool): (r: seq<T>)
    ensures |r| == |q| && multiset(r) == multiset(q)
  {
    if q == [] then []
    else
      var front, last := q[..|q| - 1], q[|q| - 1];
      assert q == front + [last];
      InsertBy(SortBy(front, leq), last, leq)
  }

  ghost predicate SortedBy<T>(q: seq<T>, leq: (T, T) -> bool) {
    forall i, j | 0 <= i < j < |q| :: leq(q[i], q[j])
  }

  lemma SortedSnoc<T>(q: seq<T>, last: T, leq: (T, T) -> bool)
    requires SortedBy(q, leq) && forall x | x in q :: leq(x, last)
    ensures SortedBy(q + [last], leq)
  {
  }

  lemma SameMembers<T>(q: seq<T>, r: seq<T>, x: T)
    requires multiset(r) == multiset(q) + multiset{x}
    ensures forall y | y in r :: y == x || y in q
  {
    forall y | y in r ensures y == x || y in q {
      assert y in multiset(r);
    }
  }

  lemma {:induction false} InsertSorts<T(!new)>(q: seq<T>, x: T, leq: (T, T) -> bool)
    requires Preorder(leq) && SortedBy(q, leq)
    ensures SortedBy(InsertBy(q, x, leq), leq)
  {
    if q != [] {
      var front, last := q[..|q| - 1], q[|q| - 1];
      forall y | y in front ensures leq(y, last) {
        var i :| 0 <= i < |front| && front[i] == y;
        assert q[i] == y;
      }
      if leq(last, x) {
        forall y | y in q ensures leq(y, x) {
          assert q == front + [last];
          assert y == last || y in front;
        }
        SortedSnoc(q, x, leq);
      } else {
        InsertSorts(front, x, leq);
        SameMembers(front, InsertBy(front, x, leq), x);
        assert leq(x, last) || leq(last, x);
        SortedSnoc(InsertBy(front, x, leq), last, leq);
      }
    }
  }

  /** The result is in order and a permutation. */
  lemma {:induction false} SortSorts<T(!new)>(q: seq<T>, leq: (T, T) -> bool)
    requires Preorder(leq)
    ensures SortedBy(SortBy(q, leq), leq) && multiset(SortBy(q, leq)) == multiset(q)
  {
    if q != [] {
      SortSorts(q[..|q| - 1], leq);
      InsertSorts(SortBy(q[..|q| - 1], leq), q[|q| - 1], leq);
    }
  }

  // ---------------------------------------------------------------- merging

  // Two sequences become one; of two equal elements the one from x comes first.
  function Merge<T>(x: seq<T>, y: seq<T>, leq: (T, T) -> bool): (r: seq<T>)
    ensures |r| == |x| + |y|
    decreases |x| + |y|
  {
    if x == [] then y
    else if y == [] then x
    else
      var m, n := |x| - 1, |y| - 1;
      if leq(x[m], y[n]) then Merge(x, y[..n], leq) + [y[n]] else Merge(x[..m], y, leq) + [x[m]]
  }

  lemma InsertSnoc<T>(q: seq<T>, last: T, x: T, leq: (T, T) -> bool)
    ensures InsertBy(q + [last], x, leq) == if leq(last, x) then q + [last] + [x] else InsertBy(q, x, leq) + [last]
  {
    assert (q + [last])[..|q|] == q;
  }

  lemma Between<T(!new)>(x: T, y: T, z: T, leq: (T, T) -> bool)
    requires Preorder(leq)
    ensures leq(x, y) && leq(y, z) ==> leq(x, z)
    ensures !leq(x, y) && !leq(y, z) ==> !leq(x, z)
  {
    assert leq(x, y) || leq(y, x);
    assert leq(y, z) || leq(z, y);
    assert leq(x, z) && leq(z, y) ==> leq(x, y);
  }

  // Inserting into the second sequence is inserting into the result.
  lemma {:induction false} MergeInserts<T(!new)>(x: seq<T>, y: seq<T>, e: T, leq: (T, T) -> bool)
    requires Preorder(leq)
    ensures Merge(x, InsertBy(y, e, leq), leq) == InsertBy(Merge(x, y, leq), e, leq)
    decreases |x| + |y|
  {
    if x == [] {
    } else if y == [] {
      assert y + [e] == [e];
      InsertIsMerge(x, e, leq);
    } else {
      var m, n := |x| - 1, |y| - 1;
      var x', y', r := x[..m], y[..n], InsertBy(y, e, leq);
      assert x == x' + [x[m]] && y == y' + [y[n]];
      Between(x[m], y[n], e, leq);
      InsertSnoc(y', y[n], e, leq);
      if leq(y[n], e) && leq(x[m], e) {
        MergeSnoc(x, y, e, leq);
        InsertLast(Merge(x, y, leq), e, leq);
      } else if !leq(x[m], y[n]) && !leq(x[m], e) {
        MergeInserts(x', y, e, leq);
        MergeSnoc(x', r, x[m], leq);
        MergeSnoc(x', y, x[m], leq);
        InsertSnoc(Merge(x', y, leq), x[m], e, leq);
      } else {
        var r' := InsertBy(y', e, leq);
        MergeInserts(x, y', e, leq);
        MergeSnoc(x, r', y[n], leq);
        MergeSnoc(x, y', y[n], leq);
        InsertSnoc(Merge(x, y', leq), y[n], e, leq);
      }
    }
  }

  lemma InsertLast<T>(q: seq<T>, x: T, leq: (T, T) -> bool)
    requires q == [] || leq(q[|q| - 1], x)
    ensures InsertBy(q, x, leq) == q + [x]
  {
  }

  lemma {:induction false} InsertIsMerge<T(!new)>(x: seq<T>, e: T, leq: (T, T) -> bool)
    ensures Merge(x, [e], leq) == InsertBy(x, e, leq)
  {
    assert [e][..0] == [];
    if x != [] && !leq(x[|x| - 1], e) {
      InsertIsMerge(x[..|x| - 1], e, leq);
    }
  }

  /** Sorting a sequence is merging its sorted halves, wherever it is cut. */
  lemma {:induction false} MergeSorts<T(!new)>(a: seq<T>, b: seq<T>, leq: (T, T) -> bool)
    requires Preorder(leq)
    ensures Merge(SortBy(a, leq), SortBy(b, leq), leq) == SortBy(a + b, leq)
    decreases |b|
  {
    if b == [] {
      assert a + b == a;
    } else {
      var n := |b| - 1;
      assert (a + b)[..|a + b| - 1] == a + b[..n];
      MergeSorts(a, b[..n], leq);
      MergeInserts(SortBy(a, leq), SortBy(b[..n], leq), b[n], leq);
    }
  }

  lemma MergeSnoc<T>(x: seq<T>, y: seq<T>, last: T, leq: (T, T) -> bool)
    ensures x == [] || leq(x[|x| - 1], last) ==> Merge(x, y + [last], leq) == Merge(x, y, leq) + [last]
    ensures y == [] || !leq(last, y[|y| - 1]) ==> Merge(x + [last], y, leq) == Merge(x, y, leq) + [last]
  {
    assert (y + [last])[..|y|] == y && (x + [last])[..|x|] == x;
  }

  // The lower first element, the one from x if they are equal, then the rest.
  function FirstOut<T>(x: seq<T>, y: seq<T>, leq: (T, T) -> bool): seq<T>
    requires x != [] && y != []
  {
    if leq(x[0], y[0]) then [x[0]] + Merge(x[1..], y, leq) else [y[0]] + Merge(x, y[1..], leq)
  }

  /** Merging sorted sequences takes them from the front as well. */
  lemma {:induction false} MergeFirst<T(!new)>(x: seq<T>, y: seq<T>, leq: (T, T) -> bool)
    requires Preorder(leq) && SortedBy(x, leq) && SortedBy(y, leq) && x != [] && y != []
    ensures Merge(x, y, leq) == FirstOut(x, y, leq)
    decreases |x| + |y|
  {
    var m, n := |x| - 1, |y| - 1;
    var x', y' := x[..m], y[..n];
    assert x == x' + [x[m]] && y == y' + [y[n]];
    if leq(x[m], y[n]) {
      if n == 0 {
        LastFromY(x, y[0], leq);
      } else {
        MergeFirst(x, y', leq);
        BehindY(x, y', y[n], leq);
      }
    } else if m == 0 {
      LastFromX(x[0], y, leq);
    } else {
      MergeFirst(x', y, leq);
      BehindX(x', y, x[m], leq);
    }
  }

  lemma LastFromY<T(!new)>(x: seq<T>, last: T, leq: (T, T) -> bool)
    requires Preorder(leq) && SortedBy(x, leq) && x != [] && leq(x[|x| - 1], last)
    ensures Merge(x, [last], leq) == FirstOut(x, [last], leq)
  {
    Between(x[0], x[|x| - 1], last, leq);
    MergeOne(x, last, leq);
    MergeOne(x[1..], last, leq);
    HeadOfSnoc(x, last);
  }

  lemma MergeOne<T>(x: seq<T>, last: T, leq: (T, T) -> bool)
    requires x == [] || leq(x[|x| - 1], last)
    ensures Merge(x, [last], leq) == x + [last]
  {
    assert [last][..0] == [];
  }

  lemma LastFromX<T(!new)>(last: T, y: seq<T>, leq: (T, T) -> bool)
    requires Preorder(leq) && SortedBy(y, leq) && y != [] && !leq(last, y[|y| - 1])
    ensures Merge([last], y, leq) == FirstOut([last], y, leq)
  {
    Between(last, y[0], y[|y| - 1], leq);
    assert [] + [last] == [last];
    MergeSnoc([], y, last, leq);
    MergeSnoc([], y[1..], last, leq);
    HeadOfSnoc(y, last);
  }

  lemma BehindY<T>(x: seq<T>, y: seq<T>, last: T, leq: (T, T) -> bool)
    requires x != [] && y != [] && leq(x[|x| - 1], last) && Merge(x, y, leq) == FirstOut(x, y, leq)
    ensures Merge(x, y + [last], leq) == FirstOut(x, y + [last], leq)
  {
    MergeSnoc(x, y, last, leq);
    if leq(x[0], y[0]) {
      MergeSnoc(x[1..], y, last, leq);
      Associate([x[0]], Merge(x[1..], y, leq), [last]);
    } else {
      MergeSnoc(x, y[1..], last, leq);
      Associate([y[0]], Merge(x, y[1..], leq), [last]);
      TailOfSnoc(y, last);
    }
  }

  lemma HeadOfSnoc<T>(q: seq<T>, last: T)
    requires q != []
    ensures q + [last] == [q[0]] + (q[1..] + [last])
  {
  }

  lemma TailOfSnoc<T>(q: seq<T>, last: T)
    requires q != []
    ensures (q + [last])[1..] == q[1..] + [last]
  {
  }

  lemma BehindX<T>(x: seq<T>, y: seq<T>, last: T, leq: (T, T) -> bool)
    requires x != [] && y != [] && !leq(last, y[|y| - 1]) && Merge(x, y, leq) == FirstOut(x, y, leq)
    ensures Merge(x + [last], y, leq) == FirstOut(x + [last], y, leq)
  {
    MergeSnoc(x, y, last, leq);
    if leq(x[0], y[0]) {
      MergeSnoc(x[1..], y, last, leq);
      Associate([x[0]], Merge(x[1..], y, leq), [last]);
      TailOfSnoc(x, last);
    } else {
      MergeSnoc(x, y[1..], last, leq);
      Associate([y[0]], Merge(x, y[1..], leq), [last]);
    }
  }

  lemma SortOne<T>(x: T, leq: (T, T) -> bool)
    ensures SortBy([x], leq) == [x]
  {
    assert [x][..0] == [];
  }

  // ---------------------------------------------------------------- stability

  // The elements that are neither below nor above x, in order.
  function Equals<T>(q: seq<T>, x: T, leq: (T, T) -> bool): seq<T> {
    if q == [] then []
    else
      var n := |q| - 1;
      Equals(q[..n], x, leq) + if leq(q[n], x) && leq(x, q[n]) then [q[n]] else []
  }

  lemma EqualsSnoc<T>(q: seq<T>, last: T, x: T, leq: (T, T) -> bool)
    ensures Equals(q + [last], x, leq) == Equals(q, x, leq) + if leq(last, x) && leq(x, last) then [last] else []
  {
    assert (q + [last])[..|q|] == q;
  }

  lemma {:induction false} InsertIsStable<T(!new)>(q: seq<T>, e: T, x: T, leq: (T, T) -> bool)
    requires Preorder(leq)
    ensures Equals(InsertBy(q, e, leq), x, leq) == Equals(q, x, leq) + if leq(e, x) && leq(x, e) then [e] else []
  {
    if q == [] || leq(q[|q| - 1], e) {
      EqualsSnoc(q, e, x, leq);
    } else {
      var front, last := q[..|q| - 1], q[|q| - 1];
      InsertIsStable(front, e, x, leq);
      EqualsSnoc(InsertBy(front, e, leq), last, x, leq);
      NotBoth(e, last, x, leq);
    }
  }

  // Of an element and a lower one, not both are equal to a third.
  lemma NotBoth<T(!new)>(e: T, last: T, x: T, leq: (T, T) -> bool)
    requires Preorder(leq) && !leq(last, e)
    ensures !(leq(e, x) && leq(x, e) && leq(last, x) && leq(x, last))
  {
    Between(last, x, e, leq);
  }

  /** Sorting is stable: elements that are equal in the order stay in the order in which they were. */
  lemma {:induction false} SortIsStable<T(!new)>(q: seq<T>, x: T, leq: (T, T) -> bool)
    requires Preorder(leq)
    ensures Equals(SortBy(q, leq), x, leq) == Equals(q, x, leq)
  {
    if q != [] {
      SortIsStable(q[..|q| - 1], x, leq);
      InsertIsStable(SortBy(q[..|q| - 1], leq), q[|q| - 1], x, leq);
    }
  }
}
