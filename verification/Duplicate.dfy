// The duplicate filter: waypoints are taken latest export first, and a search tree remembers the
// first of every key.
module Duplicate {
  import opened SearchTree
  import opened StableSort
  import opened Wrappers

  datatype Pos = Pos(lat: real, lon: real)

  // `key` stands for the checksum over name and formatted coordinates that two duplicates share.
  datatype Wpt = Wpt(exported: int, key: nat, pos: Pos)

  datatype Entry = Entry(wpt: Wpt, index: nat)

  datatype Options = Options(all: bool, correct: bool)

  // ---------------------------------------------------------------- the order

  function Compare(a: Entry, b: Entry): int {
    if a.wpt.exported < b.wpt.exported then 1
    else if a.wpt.exported > b.wpt.exported then -1
    else if a.index < b.index then -1
    else if a.index > b.index then 1
    else 0
  }

  function Entries(ws: seq<Wpt>): (r: seq<Entry>)
    ensures |r| == |ws| && forall i | 0 <= i < |r| :: r[i] == Entry(ws[i], i)
  {
    seq(|ws|, i requires 0 <= i < |ws| => Entry(ws[i], i))
  }

  predicate InOrder(a: Entry, b: Entry) { Compare(a, b) <= 0 }

  // What qsort makes of the table; the comparison leaves no ties.
  function Table(ws: seq<Wpt>): (r: seq<Entry>)
    ensures |r| == |ws|
  {
    SortBy(Entries(ws), InOrder)
  }

  predicate Ordered(t: seq<Entry>) {
    forall i, j | 0 <= i < j < |t| :: Compare(t[i], t[j]) < 0
  }

  // Distinct elements stay distinct under a permutation.
  lemma NoneTwice(q: seq<Entry>, r: seq<Entry>, i: nat, j: nat)
    requires multiset(r) == multiset(q) && i < j < |r| && r[i] == r[j]
    ensures exists k, m :: 0 <= k < m < |q| && q[k] == q[m]
  {
    assert r == r[..j] + r[j..] && r[..j][i] == r[i] && r[j..][0] == r[j];
    assert multiset(r)[r[i]] == multiset(r[..j])[r[i]] + multiset(r[j..])[r[i]] >= 2;
    Twice(q, r[i]);
  }

  lemma {:induction false} Twice(q: seq<Entry>, x: Entry)
    requires multiset(q)[x] >= 2
    ensures exists k, m :: 0 <= k < m < |q| && q[k] == q[m]
  {
    var n := |q| - 1;
    assert q == q[..n] + [q[n]];
    if multiset(q[..n])[x] >= 2 {
      Twice(q[..n], x);
      var k, m :| 0 <= k < m < n && q[..n][k] == q[..n][m];
      assert q[k] == q[m];
    } else {
      assert x in multiset(q[..n]);
      var k :| 0 <= k < n && q[..n][k] == x;
      assert q[k] == q[n];
    }
  }

  /** The table is in the order of the comparison: later exports first, ties in list order. */
  lemma TableIsOrdered(ws: seq<Wpt>)
    ensures Ordered(Table(ws)) && multiset(Table(ws)) == multiset(Entries(ws))
    ensures forall j | 0 <= j < |ws| :: Table(ws)[j].index < |ws| && Table(ws)[j].wpt == ws[Table(ws)[j].index]
  {
    var t := Table(ws);
    assert Preorder(InOrder);
    SortSorts(Entries(ws), InOrder);
    forall j | 0 <= j < |ws| ensures t[j].index < |ws| && t[j].wpt == ws[t[j].index] {
      assert t[j] in multiset(t);
      assert t[j] in Entries(ws);
    }
    forall i, j | 0 <= i < j < |t| ensures Compare(t[i], t[j]) < 0 {
      assert InOrder(t[i], t[j]);
      if Compare(t[i], t[j]) == 0 {
        assert t[i] == t[j];
        NoneTwice(Entries(ws), t, i, j);
      }
    }
  }

  /** Later exports come first, those of the same time in list order. */
  lemma TableByExport(ws: seq<Wpt>)
    ensures TableOf(Table(ws), ws) && |Table(ws)| == |ws|
    ensures forall i, j | 0 <= i < j < |ws| :: Before(ws, Table(ws)[i].index, Table(ws)[j].index)
  {
    TableIsOrdered(ws);
    TableHasAll(ws);
    var t := Table(ws);
    forall i, j | 0 <= i < j < |ws| ensures Before(ws, t[i].index, t[j].index) {
      assert Compare(t[i], t[j]) < 0;
    }
  }

  predicate DistinctIndexes(t: seq<Entry>) {
    forall i, j | 0 <= i < j < |t| :: t[i].index != t[j].index
  }

  // A table of all waypoints, each once.
  predicate TableOf(t: seq<Entry>, ws: seq<Wpt>) {
    DistinctIndexes(t) && forall j | 0 <= j < |t| :: t[j].index < |ws| && t[j].wpt == ws[t[j].index]
  }

  lemma TableHasAll(ws: seq<Wpt>)
    ensures TableOf(Table(ws), ws)
    ensures forall i | 0 <= i < |ws| :: Entry(ws[i], i) in Table(ws)
  {
    TableIsOrdered(ws);
    var t := Table(ws);
    forall i | 0 <= i < |ws| ensures Entry(ws[i], i) in t {
      assert Entries(ws)[i] in multiset(Entries(ws));
      assert Entry(ws[i], i) in multiset(t);
    }
    forall i, j | 0 <= i < j < |t| ensures t[i].index != t[j].index {
      assert Compare(t[i], t[j]) < 0;
    }
  }

  // ---------------------------------------------------------------- what should be left

  predicate SameKey(a: Entry, b: Entry) {
    a.wpt.key == b.wpt.key
  }

  predicate FirstOfKey(p: seq<Entry>, j: nat)
    requires j < |p|
  {
    forall i | 0 <= i < j :: !SameKey(p[i], p[j])
  }

  predicate OnlyOfKey(p: seq<Entry>, j: nat)
    requires j < |p|
  {
    forall i | 0 <= i < |p| && i != j :: !SameKey(p[i], p[j])
  }

  // The position of the last entry with that key.
  function LastPos(p: seq<Entry>, e: Entry): Pos {
    if p == [] then e.wpt.pos else if SameKey(p[|p| - 1], e) then p[|p| - 1].wpt.pos else LastPos(p[..|p| - 1], e)
  }

  predicate Survives(o: Options, p: seq<Entry>, j: nat)
    requires j < |p|
  {
    if o.all then OnlyOfKey(p, j) else FirstOfKey(p, j)
  }

  function FinalPos(o: Options, p: seq<Entry>, j: nat): Pos
    requires j < |p|
  {
    if o.correct && !o.all then LastPos(p, p[j]) else p[j].wpt.pos
  }

  // What a list looks like after the entries p have been dealt with.
  ghost predicate Filtered(o: Options, p: seq<Entry>, ws: seq<Wpt>, alive: seq<bool>, pos: seq<Pos>) {
    && |alive| == |ws| && |pos| == |ws| && TableOf(p, ws)
    && (forall j | 0 <= j < |p| :: alive[p[j].index] == Survives(o, p, j))
    && (forall j | 0 <= j < |p| :: alive[p[j].index] ==> pos[p[j].index] == FinalPos(o, p, j))
    && (forall i | 0 <= i < |ws| && (forall j | 0 <= j < |p| :: p[j].index != i) :: alive[i] && pos[i] == ws[i].pos)
  }

  // ---------------------------------------------------------------- one entry more

  ghost predicate NewKey(p: seq<Entry>, e: Entry) {
    forall j | 0 <= j < |p| :: !SameKey(p[j], e)
  }

  lemma LastPosOther(p: seq<Entry>, x: Entry, e: Entry)
    ensures LastPos(p + [x], e) == if SameKey(x, e) then x.wpt.pos else LastPos(p, e)
  {
    assert (p + [x])[..|p|] == p;
  }

  lemma {:induction false} LastPosAlone(p: seq<Entry>, e: Entry)
    requires NewKey(p, e)
    ensures LastPos(p, e) == e.wpt.pos
  {
    if p != [] {
      LastPosAlone(p[..|p| - 1], e);
    }
  }

  lemma FilteredNew(o: Options, p: seq<Entry>, e: Entry, ws: seq<Wpt>, alive: seq<bool>, pos: seq<Pos>)
    requires Filtered(o, p, ws, alive, pos) && NewKey(p, e) && TableOf(p + [e], ws)
    ensures Filtered(o, p + [e], ws, alive, pos)
  {
    var q := p + [e];
    forall j | 0 <= j < |q| ensures alive[q[j].index] == Survives(o, q, j) && (alive[q[j].index] ==> pos[q[j].index] == FinalPos(o, q, j)) {
      LastPosOther(p, e, q[j]);
      if j < |p| {
        assert q[j] == p[j] && !SameKey(p[j], e);
        assert alive[p[j].index] == Survives(o, p, j);
        SurvivesBefore(o, p, e, j);
      } else {
        assert q[j] == e;
        assert forall i | 0 <= i < |p| :: q[i] == p[i] && p[i].index != e.index;
      }
    }
    forall i | 0 <= i < |ws| && (forall j | 0 <= j < |q| :: q[j].index != i) ensures alive[i] && pos[i] == ws[i].pos {
      assert forall j | 0 <= j < |p| :: p[j] == q[j];
    }
  }

  // An entry of another key changes nothing for those before.
  lemma SurvivesBefore(o: Options, p: seq<Entry>, e: Entry, j: nat)
    requires j < |p|
    ensures FirstOfKey(p + [e], j) == FirstOfKey(p, j)
    ensures OnlyOfKey(p + [e], j) == (OnlyOfKey(p, j) && !SameKey(p[j], e))
  {
    var q := p + [e];
    assert forall i | 0 <= i < |p| :: q[i] == p[i];
    assert q[|p|] == e;
  }

  // The list after a duplicate e of the class that f is the first of.
  function AfterDuplicate(o: Options, alive: seq<bool>, e: nat, f: nat): seq<bool>
    requires e < |alive| && f < |alive|
  {
    if o.all then alive[e := false][f := false] else alive[e := false]
  }

  lemma FilteredDuplicate(o: Options, p: seq<Entry>, e: Entry, f: nat, ws: seq<Wpt>, alive: seq<bool>, pos: seq<Pos>, pos': seq<Pos>)
    requires Filtered(o, p, ws, alive, pos) && TableOf(p + [e], ws) && e.index < |ws|
    requires f < |p| && SameKey(p[f], e) && FirstOfKey(p, f)
    requires pos' == if o.correct && alive[p[f].index] then pos[p[f].index := e.wpt.pos] else pos
    ensures Filtered(o, p + [e], ws, AfterDuplicate(o, alive, e.index, p[f].index), pos')
  {
    var q, alive' := p + [e], AfterDuplicate(o, alive, e.index, p[f].index);
    assert q[|p|] == e && forall i | 0 <= i < |p| :: q[i] == p[i];
    forall j | 0 <= j < |q| ensures alive'[q[j].index] == Survives(o, q, j) && (alive'[q[j].index] ==> pos'[q[j].index] == FinalPos(o, q, j)) {
      LastPosOther(p, e, q[j]);
      if j < |p| {
        SurvivesBefore(o, p, e, j);
        EarlierEntry(o, p, e, f, j, ws, alive, pos, pos');
      } else {
        assert SameKey(q[f], q[j]);
      }
    }
    forall i | 0 <= i < |ws| && (forall j | 0 <= j < |q| :: q[j].index != i) ensures alive'[i] && pos'[i] == ws[i].pos {
      assert q[f].index != i && q[|p|].index != i;
      assert forall j | 0 <= j < |p| :: p[j].index == q[j].index;
    }
  }

  // Where an earlier entry's waypoint is once e has been dealt with.
  function PosAfter(o: Options, p: seq<Entry>, e: Entry, j: nat): Pos
    requires j < |p|
  {
    if o.correct && !o.all then (if SameKey(e, p[j]) then e.wpt.pos else LastPos(p, p[j])) else p[j].wpt.pos
  }

  lemma EarlierEntry(o: Options, p: seq<Entry>, e: Entry, f: nat, j: nat, ws: seq<Wpt>, alive: seq<bool>, pos: seq<Pos>, pos': seq<Pos>)
    requires Filtered(o, p, ws, alive, pos) && TableOf(p + [e], ws) && j < |p| && e.index < |ws|
    requires f < |p| && SameKey(p[f], e) && FirstOfKey(p, f)
    requires pos' == if o.correct && alive[p[f].index] then pos[p[f].index := e.wpt.pos] else pos
    ensures var alive' := AfterDuplicate(o, alive, e.index, p[f].index);
      && alive'[p[j].index] == (if o.all then OnlyOfKey(p, j) && !SameKey(p[j], e) else FirstOfKey(p, j))
      && (alive'[p[j].index] ==> pos'[p[j].index] == PosAfter(o, p, e, j))
  {
    var q := p + [e];
    assert q[|p|] == e && q[j] == p[j] && q[f] == p[f];
    assert p[j].index != e.index;
    assert alive[p[j].index] == Survives(o, p, j);
    if j != f {
      assert p[j].index != p[f].index;
      assert j < f ==> !SameKey(p[j], p[f]);
      assert SameKey(p[j], e) ==> SameKey(p[f], p[j]);
    }
  }

  // ---------------------------------------------------------------- the filter

  // The tree knows exactly the keys met so far; a node leads to the first waypoint of its key, until
  // that waypoint is deleted.
  ghost predicate Knows(o: Options, p: seq<Entry>, ns: seq<Node>, s: Shape) {
    && (forall n | n in Ids(s) :: n < |ns|)
    && (forall j | 0 <= j < |p| :: HasNode(ns, s, p[j].wpt.key))
    && (forall n | n in Ids(s) :: NodeKnows(o, p, ns[n]))
  }

  ghost predicate NodeKnows(o: Options, p: seq<Entry>, n: Node) {
    exists j :: 0 <= j < |p| && p[j].wpt.key == n.data && FirstOfKey(p, j)
      && n.wpt == if o.all && !OnlyOfKey(p, j) then None else Some(p[j].index)
  }

  ghost predicate HasNode(ns: seq<Node>, s: Shape, key: nat) {
    exists n :: n in Ids(s) && n < |ns| && ns[n].data == key
  }

  // An entry of another key leaves what a node knows.
  lemma NodeStillKnows(o: Options, p: seq<Entry>, e: Entry, n: Node)
    requires NodeKnows(o, p, n) && n.data != e.wpt.key
    ensures NodeKnows(o, p + [e], n)
  {
    var j :| 0 <= j < |p| && p[j].wpt.key == n.data && FirstOfKey(p, j)
      && n.wpt == if o.all && !OnlyOfKey(p, j) then None else Some(p[j].index);
    SurvivesBefore(o, p, e, j);
    assert (p + [e])[j] == p[j];
  }

  lemma KnowsNew(o: Options, p: seq<Entry>, e: Entry, ns: seq<Node>, s: Shape, ns': seq<Node>, s': Shape, k: nat)
    requires Knows(o, p, ns, s) && NewKey(p, e) && |ns'| >= |ns| && k < |ns'| && Ids(s') == Ids(s) + {k}
    requires forall n | n in Ids(s) :: ns'[n].data == ns[n].data && ns'[n].wpt == ns[n].wpt
    requires ns'[k].data == e.wpt.key && ns'[k].wpt == Some(e.index) && k !in Ids(s)
    ensures Knows(o, p + [e], ns', s')
  {
    var q := p + [e];
    forall j | 0 <= j < |q| ensures HasNode(ns', s', q[j].wpt.key) {
      if j < |p| {
        assert q[j] == p[j];
        StillHasNode(ns, s, ns', s', p[j].wpt.key);
      } else {
        assert k in Ids(s') && ns'[k].data == q[j].wpt.key;
      }
    }
    NodesKnowNew(o, p, e, ns, s, ns', s', k);
  }

  lemma NodesKnowNew(o: Options, p: seq<Entry>, e: Entry, ns: seq<Node>, s: Shape, ns': seq<Node>, s': Shape, k: nat)
    requires Knows(o, p, ns, s) && NewKey(p, e) && |ns'| >= |ns| && k < |ns'| && Ids(s') == Ids(s) + {k}
    requires forall n | n in Ids(s) :: ns'[n].data == ns[n].data && ns'[n].wpt == ns[n].wpt
    requires ns'[k].data == e.wpt.key && ns'[k].wpt == Some(e.index)
    ensures forall n | n in Ids(s') :: n < |ns'| && NodeKnows(o, p + [e], ns'[n])
  {
    forall n | n in Ids(s') ensures n < |ns'| && NodeKnows(o, p + [e], ns'[n]) {
      if n == k {
        NewNodeKnows(o, p, e, ns'[k]);
      } else {
        OtherKey(p, e, o, ns[n]);
        SameNodeKnows(o, p + [e], ns[n], ns'[n]);
      }
    }
  }

  lemma OtherKey(p: seq<Entry>, e: Entry, o: Options, n: Node)
    requires NodeKnows(o, p, n) && NewKey(p, e)
    ensures NodeKnows(o, p + [e], n)
  {
    NodeStillKnows(o, p, e, n);
  }

  lemma StillHasNode(ns: seq<Node>, s: Shape, ns': seq<Node>, s': Shape, key: nat)
    requires HasNode(ns, s, key) && Ids(s) <= Ids(s') && |ns'| >= |ns| && forall n | n in Ids(s) && n < |ns| :: ns'[n].data == ns[n].data
    ensures HasNode(ns', s', key)
  {
    var n :| n in Ids(s) && n < |ns| && ns[n].data == key;
    assert ns'[n].data == key;
  }

  lemma SameNodeKnows(o: Options, p: seq<Entry>, n: Node, m: Node)
    requires NodeKnows(o, p, n) && m.data == n.data && m.wpt == n.wpt
    ensures NodeKnows(o, p, m)
  {
  }

  lemma NewNodeKnows(o: Options, p: seq<Entry>, e: Entry, n: Node)
    requires NewKey(p, e) && n.data == e.wpt.key && n.wpt == Some(e.index)
    ensures NodeKnows(o, p + [e], n)
  {
    var q, j := p + [e], |p|;
    assert q[j] == e && forall i | 0 <= i < |p| :: q[i] == p[i];
    assert FirstOfKey(q, j) && OnlyOfKey(q, j);
  }

  // The class of a duplicate has a first entry; its node leads to it exactly as long as it is alive.
  lemma FirstBehind(o: Options, p: seq<Entry>, e: Entry, n: Node, ws: seq<Wpt>, alive: seq<bool>, pos: seq<Pos>) returns (f: nat)
    requires NodeKnows(o, p, n) && n.data == e.wpt.key && Filtered(o, p, ws, alive, pos)
    ensures f < |p| && SameKey(p[f], e) && FirstOfKey(p, f) && p[f].index < |ws|
    ensures n.wpt == if alive[p[f].index] then Some(p[f].index) else None
    ensures !o.all ==> alive[p[f].index]
  {
    f :| 0 <= f < |p| && p[f].wpt.key == n.data && FirstOfKey(p, f)
      && n.wpt == if o.all && !OnlyOfKey(p, f) then None else Some(p[f].index);
    assert alive[p[f].index] == Survives(o, p, f);
  }

  lemma OldNodeKnows(o: Options, p: seq<Entry>, e: Entry, f: nat, n: Node)
    requires f < |p| && SameKey(p[f], e) && FirstOfKey(p, f) && n.data == e.wpt.key
    requires n.wpt == if o.all then None else Some(p[f].index)
    ensures NodeKnows(o, p + [e], n)
  {
    var q := p + [e];
    SurvivesBefore(o, p, e, f);
    assert q[f] == p[f] && q[|p|] == e;
  }

  lemma KnowsDuplicate(o: Options, p: seq<Entry>, e: Entry, f: nat, ns: seq<Node>, root: int, s: Shape, ns': seq<Node>, old': nat)
    requires Knows(o, p, ns, s) && Linked(ns, root, s) && old' in Ids(s) && |ns'| >= |ns| && ns[old'].data == e.wpt.key
    requires f < |p| && SameKey(p[f], e) && FirstOfKey(p, f)
    requires forall n | n in Ids(s) :: ns'[n].data == ns[n].data && (n != old' ==> ns'[n].wpt == ns[n].wpt)
    requires ns'[old'].wpt == if o.all then None else Some(p[f].index)
    ensures Knows(o, p + [e], ns', s)
  {
    var q := p + [e];
    forall j | 0 <= j < |q| ensures HasNode(ns', s, q[j].wpt.key) {
      if j < |p| {
        assert HasNode(ns, s, p[j].wpt.key);
        var n :| n in Ids(s) && n < |ns| && ns[n].data == p[j].wpt.key;
        assert ns'[n].data == q[j].wpt.key;
      } else {
        assert ns'[old'].data == q[j].wpt.key;
      }
    }
    forall n | n in Ids(s) ensures NodeKnows(o, q, ns'[n]) {
      if n == old' {
        OldNodeKnows(o, p, e, f, ns'[n]);
      } else {
        assert NodeKnows(o, p, ns[n]);
        KeysDiffer(ns, root, s, n, old');
        SameNodeKnows(o, p, ns[n], ns'[n]);
        NodeStillKnows(o, p, e, ns'[n]);
      }
    }
  }

  // Where the loop stands: the list, the arena and the tree after the entries p.
  ghost predicate Standing(o: Options, p: seq<Entry>, ws: seq<Wpt>, alive: seq<bool>, pos: seq<Pos>, ns: seq<Node>, root: int, s: Shape) {
    Filtered(o, p, ws, alive, pos) && Linked(ns, root, s) && Knows(o, p, ns, s)
  }

  // A fresh node at the end of the arena touches nothing.
  lemma Appended(o: Options, p: seq<Entry>, ns: seq<Node>, root: int, s: Shape, n: Node)
    requires Linked(ns, root, s) && Knows(o, p, ns, s)
    ensures Linked(ns + [n], root, s) && Knows(o, p, ns + [n], s) && |ns| !in Ids(s)
  {
    var more := ns + [n];
    assert forall j | j in Ids(s) :: more[j] == ns[j];
    Untouched(ns, more, root, s);
    forall j | 0 <= j < |p| ensures HasNode(more, s, p[j].wpt.key) {
      assert HasNode(ns, s, p[j].wpt.key);
      var m :| m in Ids(s) && m < |ns| && ns[m].data == p[j].wpt.key;
      assert more[m].data == p[j].wpt.key;
    }
  }

  lemma NewKeyIfMissing(o: Options, p: seq<Entry>, e: Entry, ns: seq<Node>, s: Shape)
    requires Knows(o, p, ns, s) && forall j | j in Ids(s) :: ns[j].data != e.wpt.key
    ensures NewKey(p, e)
  {
    forall j | 0 <= j < |p| ensures !SameKey(p[j], e) {
      assert HasNode(ns, s, p[j].wpt.key);
    }
  }

  // A key the tree did not have: its waypoint stays.
  lemma StandsNew(o: Options, p: seq<Entry>, e: Entry, ws: seq<Wpt>, alive: seq<bool>, pos: seq<Pos>, ns: seq<Node>, root: int, s: Shape, ns': seq<Node>, root': int, s': Shape, k: nat)
    requires Standing(o, p, ws, alive, pos, ns, root, s) && TableOf(p + [e], ws) && e.index < |ws|
    requires k < |ns| == |ns'| && k !in Ids(s) && ns[k].data == e.wpt.key && ns[k].wpt == Some(e.index)
    requires forall j | j in Ids(s) :: ns[j].data != ns[k].data
    requires Linked(ns', root', s') && Ids(s') == Ids(s) + {k}
    requires forall j | 0 <= j < |ns| :: ns'[j].data == ns[j].data && ns'[j].wpt == ns[j].wpt
    ensures Standing(o, p + [e], ws, alive, pos, ns', root', s')
  {
    NewKeyIfMissing(o, p, e, ns, s);
    FilteredNew(o, p, e, ws, alive, pos);
    KnowsNew(o, p, e, ns, s, ns', s', k);
  }

  class Filter {
    // The waypoint list: what is still in it, and where its waypoints are.
    var alive: seq<bool>
    var pos: seq<Pos>

    constructor (ws: seq<Wpt>)
      ensures |alive| == |pos| == |ws| && forall i | 0 <= i < |ws| :: alive[i] && pos[i] == ws[i].pos
    {
      alive := seq(|ws|, i => true);
      pos := seq(|ws|, i requires 0 <= i < |ws| => ws[i].pos);
    }

    // Deals with a duplicate: the first waypoint of its class, if its node still leads to it, may take the
    // duplicate's coordinates, and may be deleted too.
    method Collide(o: Options, e: Entry, ns: seq<Node>, old': nat, ghost f: nat, ghost p: seq<Entry>) returns (ns': seq<Node>)
      requires old' < |ns| && |alive| == |pos| && e.index < |alive| && f < |p| && p[f].index < |alive|
      requires ns[old'].wpt == if alive[p[f].index] then Some(p[f].index) else None
      requires !o.all ==> alive[p[f].index]
      modifies this
      ensures alive == AfterDuplicate(o, old(alive), e.index, p[f].index)
      ensures pos == if o.correct && old(alive)[p[f].index] then old(pos)[p[f].index := e.wpt.pos] else old(pos)
      ensures ns' == ns[old' := ns[old'].(wpt := if o.all then None else Some(p[f].index))]
    {
      var first := ns[old'].wpt;
      if o.correct && first.Some? {
        pos := pos[first.value := e.wpt.pos];
      }
      alive := alive[e.index := false];
      ns' := ns;
      if o.all && first.Some? {
        alive := alive[first.value := false];
        ns' := ns[old' := ns[old'].(wpt := None)];
      }
    }

    method ProcessOne(o: Options, e: Entry, ns: seq<Node>, root: int, ghost s: Shape, ghost p: seq<Entry>, ghost ws: seq<Wpt>)
      returns (ns': seq<Node>, root': int, ghost s': Shape)
      requires Standing(o, p, ws, alive, pos, ns, root, s) && TableOf(p + [e], ws) && e.index < |ws|
      modifies this
      ensures Standing(o, p + [e], ws, alive, pos, ns', root', s')
    {
      var k := |ns|;
      var node := Node(-1, -1, e.wpt.key, Some(e.index));
      Appended(o, p, ns, root, s, node);
      var more := ns + [node];
      var collision;
      ns', root', collision, s' := AddNode(more, root, k, s);
      if collision == -1 {
        StandsNew(o, p, e, ws, alive, pos, more, root, s, ns', root', s', k);
      } else {
        ns' := ProcessDuplicate(o, e, more, root, s, collision, p, ws);
      }
    }

    method ProcessDuplicate(o: Options, e: Entry, ns: seq<Node>, ghost root: int, ghost s: Shape, old': nat, ghost p: seq<Entry>, ghost ws: seq<Wpt>)
      returns (ns': seq<Node>)
      requires Standing(o, p, ws, alive, pos, ns, root, s) && TableOf(p + [e], ws) && e.index < |ws|
      requires old' in Ids(s) && old' < |ns| && ns[old'].data == e.wpt.key
      modifies this
      ensures Standing(o, p + [e], ws, alive, pos, ns', root, s)
    {
      ghost var f := FirstBehind(o, p, e, ns[old'], ws, alive, pos);
      ghost var alive0 := alive;
      ghost var pos0 := pos;
      ns' := Collide(o, e, ns, old', f, p);
      FilteredDuplicate(o, p, e, f, ws, alive0, pos0, pos);
      KnowsDuplicate(o, p, e, f, ns, root, s, ns', old');
      Relinked(ns, ns', root, s, old');
    }

    /** The filter, over the whole list. */
    method Process(o: Options, ws: seq<Wpt>)
      requires |alive| == |pos| == |ws| && forall i | 0 <= i < |ws| :: alive[i] && pos[i] == ws[i].pos
      modifies this
      ensures Filtered(o, Table(ws), ws, alive, pos)
    {
      var table := Table(ws);
      TableHasAll(ws);
      var ns: seq<Node>, root := [], -1;
      ghost var s, p := Nil, [];
      var i := 0;
      while i < |table|
        invariant 0 <= i <= |table| && p == table[..i]
        invariant Standing(o, p, ws, alive, pos, ns, root, s)
      {
        NextEntry(table, ws, i, p);
        ns, root, s := ProcessOne(o, table[i], ns, root, s, p, ws);
        p := p + [table[i]];
        i := i + 1;
      }
      AllEntries(table, p);
    }
  }

  lemma Relinked(ns: seq<Node>, ns': seq<Node>, root: int, s: Shape, i: nat)
    requires Linked(ns, root, s) && i < |ns| && |ns'| == |ns| && ns' == ns[i := ns[i].(wpt := ns'[i].wpt)]
    ensures Linked(ns', root, s)
  {
    LinkedInArena(ns, root, s);
    Untouched(ns, ns', root, s);
  }

  lemma LinkedInArena(ns: seq<Node>, root: int, s: Shape)
    requires Linked(ns, root, s)
    ensures forall j | j in Ids(s) :: j < |ns|
  {
  }

  lemma NextEntry(t: seq<Entry>, ws: seq<Wpt>, i: nat, p: seq<Entry>)
    requires i < |t| && p == t[..i] && TableOf(t, ws)
    ensures TableOf(p + [t[i]], ws) && t[i].index < |ws| && p + [t[i]] == t[..i + 1]
  {
    assert p + [t[i]] == t[..i + 1];
  }

  lemma AllEntries(t: seq<Entry>, p: seq<Entry>)
    requires p == t[..|t|]
    ensures p == t
  {
  }

  // ---------------------------------------------------------------- what the filter leaves

  // Waypoint i was exported later than waypoint j, or at the same time and stands before it in the list.
  predicate Before(ws: seq<Wpt>, i: nat, j: nat)
    requires i < |ws| && j < |ws|
  {
    ws[i].exported > ws[j].exported || (ws[i].exported == ws[j].exported && i < j)
  }

  lemma PlaceInTable(ws: seq<Wpt>, i: nat) returns (j: nat)
    requires i < |ws|
    ensures j < |Table(ws)| && Table(ws)[j] == Entry(ws[i], i)
  {
    TableHasAll(ws);
    j :| 0 <= j < |Table(ws)| && Table(ws)[j] == Entry(ws[i], i);
  }

  // Places in the table are the order of the filter.
  lemma PlacesCompare(ws: seq<Wpt>, i: nat, j: nat, k: nat, m: nat)
    requires i < |ws| && k < |ws| && i != k && j < |Table(ws)| && m < |Table(ws)|
    requires Table(ws)[j] == Entry(ws[i], i) && Table(ws)[m] == Entry(ws[k], k)
    ensures m != j && (j < m <==> Before(ws, i, k))
  {
    TableIsOrdered(ws);
    if m < j {
      assert Compare(Table(ws)[m], Table(ws)[j]) < 0;
    } else if j < m {
      assert Compare(Table(ws)[j], Table(ws)[m]) < 0;
    }
  }

  lemma FirstIsBefore(ws: seq<Wpt>, i: nat, j: nat)
    requires i < |ws| && j < |Table(ws)| && Table(ws)[j] == Entry(ws[i], i)
    ensures FirstOfKey(Table(ws), j) <==> forall k | 0 <= k < |ws| && ws[k].key == ws[i].key && k != i :: Before(ws, i, k)
  {
    var t := Table(ws);
    TableHasAll(ws);
    if FirstOfKey(t, j) {
      forall k | 0 <= k < |ws| && ws[k].key == ws[i].key && k != i ensures Before(ws, i, k) {
        var m := PlaceInTable(ws, k);
        PlacesCompare(ws, i, j, k, m);
        assert SameKey(t[m], t[j]);
      }
    } else {
      var m :| 0 <= m < j && SameKey(t[m], t[j]);
      assert t[m].index != t[j].index;
      PlacesCompare(ws, i, j, t[m].index, m);
    }
  }

  lemma OnlyIsAlone(ws: seq<Wpt>, i: nat, j: nat)
    requires i < |ws| && j < |Table(ws)| && Table(ws)[j] == Entry(ws[i], i)
    ensures OnlyOfKey(Table(ws), j) <==> forall k | 0 <= k < |ws| && k != i :: ws[k].key != ws[i].key
  {
    var t := Table(ws);
    TableHasAll(ws);
    if OnlyOfKey(t, j) {
      forall k | 0 <= k < |ws| && k != i ensures ws[k].key != ws[i].key {
        var m := PlaceInTable(ws, k);
        assert m != j ==> !SameKey(t[m], t[j]);
      }
    } else {
      var m :| 0 <= m < |t| && m != j && SameKey(t[m], t[j]);
      assert t[m].index != t[j].index;
    }
  }

  /** Without "all", of every key exactly the first waypoint survives: the latest export, the earliest in
      the list among equals. With "all", exactly the waypoints without a duplicate survive. */
  lemma SurvivorsAre(o: Options, ws: seq<Wpt>, alive: seq<bool>, pos: seq<Pos>, i: nat)
    requires Filtered(o, Table(ws), ws, alive, pos) && i < |ws|
    ensures !o.all ==> (alive[i] <==> forall k | 0 <= k < |ws| && ws[k].key == ws[i].key && k != i :: Before(ws, i, k))
    ensures o.all ==> (alive[i] <==> forall k | 0 <= k < |ws| && k != i :: ws[k].key != ws[i].key)
  {
    var j := PlaceInTable(ws, i);
    assert alive[Table(ws)[j].index] == Survives(o, Table(ws), j);
    FirstIsBefore(ws, i, j);
    OnlyIsAlone(ws, i, j);
  }

  lemma {:induction false} LastPosIs(p: seq<Entry>, e: Entry, m: nat)
    requires m < |p| && SameKey(p[m], e) && forall k | m < k < |p| :: !SameKey(p[k], e)
    ensures LastPos(p, e) == p[m].wpt.pos
  {
    if m < |p| - 1 {
      LastPosIs(p[..|p| - 1], e, m);
    }
  }

  /** With "correct" and without "all", a survivor has the coordinates of the last waypoint of its key in
      that order, its own if there is no duplicate; otherwise a survivor keeps its own. */
  lemma SurvivorsAreAt(o: Options, ws: seq<Wpt>, alive: seq<bool>, pos: seq<Pos>, i: nat, l: nat)
    requires Filtered(o, Table(ws), ws, alive, pos) && i < |ws| && l < |ws| && alive[i]
    requires ws[l].key == ws[i].key && forall k | 0 <= k < |ws| && ws[k].key == ws[i].key && k != l :: Before(ws, k, l)
    ensures pos[i] == if o.correct && !o.all then ws[l].pos else ws[i].pos
  {
    var t := Table(ws);
    TableIsOrdered(ws);
    TableHasAll(ws);
    var j := PlaceInTable(ws, i);
    var m := PlaceInTable(ws, l);
    NoneBehind(ws, t, l, m);
    LastPosIs(t, t[j], m);
    assert pos[t[j].index] == FinalPos(o, t, j);
  }

  // Behind the last of a key class in the order no entry of that key follows.
  lemma NoneBehind(ws: seq<Wpt>, t: seq<Entry>, l: nat, m: nat)
    requires t == Table(ws) && m < |t| && l < |ws| && t[m] == Entry(ws[l], l)
    requires forall k | 0 <= k < |ws| && ws[k].key == ws[l].key && k != l :: Before(ws, k, l)
    ensures forall k | m < k < |t| :: !SameKey(t[k], t[m])
  {
    TableIsOrdered(ws);
    forall k | m < k < |t| ensures !SameKey(t[k], t[m]) {
      assert Compare(t[m], t[k]) < 0;
      var i := t[k].index;
      assert t[k] == Entry(ws[i], i);
    }
  }
}
