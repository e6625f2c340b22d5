// The block tree of the GPI writer as linked objects: waypoints move between queues, counters and
// bounds are kept up to date, and the tree grows by splitting crowded blocks in place.
module GpiBlocks {
  import opened GpiModel
  import opened GpiSplit
  import opened Sequences

  class WriterData {
    var q: seq<Waypt>
    var ct: int
    var sz: int
    var alert: int
    var bds: Bounds
    var topLeft: WriterData?
    var topRight: WriterData?
    var bottomLeft: WriterData?
    var bottomRight: WriterData?

    constructor ()
      ensures Fresh(this, [])
    {
      q, ct, sz, alert, bds := [], 0, 0, 0, EMPTY_BOUNDS;
      topLeft, topRight, bottomLeft, bottomRight := null, null, null, null;
    }

    /** Appends a waypoint to the queue. */
    method AddWpt(w: Waypt)
      requires Fresh(this, q)
      modifies this
      ensures Fresh(this, old(q) + [w])
    {
      ct := ct + 1;
      q := q + [w];
      assert q[..|q| - 1] == old(q);
      bds := AddToBounds(bds, w);
    }
  }

  // A block without quadrants that holds exactly these waypoints.
  ghost predicate Fresh(d: WriterData, q: seq<Waypt>)
    reads d
  {
    && d.q == q && d.ct == |q| && d.bds == BoundsOf(q) && d.sz == 0 && d.alert == 0
    && d.topLeft == null && d.topRight == null && d.bottomLeft == null && d.bottomRight == null
  }

  ghost predicate Bucket(d: WriterData?, q: seq<Waypt>)
    reads d
  {
    if d == null then q == [] else q != [] && Fresh(d, q)
  }

  // Which object sits where, and what its fields hold.
  datatype Shape =
    | Nil
    | Cell(self: WriterData, q: seq<Waypt>, ct: int, sz: int, alert: int, bds: Bounds,
           topLeft: Shape, topRight: Shape, bottomLeft: Shape, bottomRight: Shape)

  ghost function Nodes(s: Shape): set<WriterData> {
    match s
    case Nil => {}
    case Cell(d, _, _, _, _, _, a, b, c, e) => {d} + Nodes(a) + Nodes(b) + Nodes(c) + Nodes(e)
  }

  ghost function Root(s: Shape): WriterData? {
    if s.Nil? then null else s.self
  }

  ghost function Value(s: Shape): (t: QTree)
    ensures t.Block? <==> s.Cell?
  {
    match s
    case Nil => NoBlock
    case Cell(_, q, ct, sz, alert, bds, a, b, c, e) => Block(q, ct, sz, alert, bds, Value(a), Value(b), Value(c), Value(e))
  }

  ghost predicate Valid(s: Shape)
    reads Nodes(s)
  {
    match s
    case Nil => true
    case Cell(d, q, ct, sz, alert, bds, a, b, c, e) =>
      && d.q == q && d.ct == ct && d.sz == sz && d.alert == alert && d.bds == bds
      && d.topLeft == Root(a) && d.topRight == Root(b) && d.bottomLeft == Root(c) && d.bottomRight == Root(e)
      && d !in Nodes(a) && d !in Nodes(b) && d !in Nodes(c) && d !in Nodes(e)
      && Nodes(a) !! Nodes(b) !! Nodes(c) !! Nodes(e)
      && Valid(a) && Valid(b) && Valid(c) && Valid(e)
  }

  // ---------------------------------------------------------------- splitting

  method MeanOf(q: seq<Waypt>, ct: int) returns (cLat: real, cLon: real)
    requires q != [] && ct == |q|
    ensures cLat == Mean(q, true) && cLon == Mean(q, false)
  {
    cLat, cLon := 0.0, 0.0;
    var i := 0;
    while i < |q|
      invariant 0 <= i <= |q|
      invariant cLat == Sum(q[..i], true) && cLon == Sum(q[..i], false)
    {
      assert q[..i + 1][..i] == q[..i];
      cLat := cLat + q[i].lat;
      cLon := cLon + q[i].lon;
      i := i + 1;
    }
    assert q[..i] == q;
    cLat := cLat / ct as real;
    cLon := cLon / ct as real;
  }

  // Puts a waypoint into a quadrant's block, which its first waypoint creates.
  method Place(d: WriterData?, w: Waypt, ghost q: seq<Waypt>) returns (r: WriterData)
    requires Bucket(d, q)
    modifies d
    ensures Bucket(r, q + [w]) && (r == d || (d == null && fresh(r)))
  {
    if d == null {
      r := new WriterData();
    } else {
      r := d;
    }
    r.AddWpt(w);
  }

  // The four blocks of a divided queue: distinct objects with these waypoints.
  ghost predicate Four(d: WriterData, tl: WriterData?, tr: WriterData?, bl: WriterData?, br: WriterData?,
      a: seq<Waypt>, b: seq<Waypt>, c: seq<Waypt>, e: seq<Waypt>, kids: set<WriterData>)
    reads tl, tr, bl, br
  {
    && Bucket(tl, a) && Bucket(tr, b) && Bucket(bl, c) && Bucket(br, e)
    && Apart(d, tl, tr, bl, br) && Among(d, tl, tr, bl, br, kids)
  }

  ghost predicate Among(d: WriterData, tl: WriterData?, tr: WriterData?, bl: WriterData?, br: WriterData?, kids: set<WriterData>) {
    && d !in kids && (tl != null ==> tl in kids) && (tr != null ==> tr in kids)
    && (bl != null ==> bl in kids) && (br != null ==> br in kids)
  }

  ghost predicate Apart(d: WriterData, a: WriterData?, b: WriterData?, c: WriterData?, e: WriterData?) {
    && d != a && d != b && d != c && d != e
    && (a != null ==> a != b && a != c && a != e)
    && (b != null ==> b != c && b != e)
    && (c != null ==> c != e)
  }

  method PlaceTopLeft(d: WriterData, w: Waypt, ghost kids: set<WriterData>,
      ghost a: seq<Waypt>, ghost b: seq<Waypt>, ghost c: seq<Waypt>, ghost e: seq<Waypt>)
    returns (ghost kids': set<WriterData>)
    requires Four(d, d.topLeft, d.topRight, d.bottomLeft, d.bottomRight, a, b, c, e, kids)
    modifies d`topLeft, d.topLeft
    ensures Four(d, d.topLeft, d.topRight, d.bottomLeft, d.bottomRight, a + [w], b, c, e, kids')
    ensures kids <= kids' && fresh(kids' - kids)
  {
    d.topLeft := Place(d.topLeft, w, a);
    kids' := kids + {d.topLeft};
  }

  method PlaceTopRight(d: WriterData, w: Waypt, ghost kids: set<WriterData>,
      ghost a: seq<Waypt>, ghost b: seq<Waypt>, ghost c: seq<Waypt>, ghost e: seq<Waypt>)
    returns (ghost kids': set<WriterData>)
    requires Four(d, d.topLeft, d.topRight, d.bottomLeft, d.bottomRight, a, b, c, e, kids)
    modifies d`topRight, d.topRight
    ensures Four(d, d.topLeft, d.topRight, d.bottomLeft, d.bottomRight, a, b + [w], c, e, kids')
    ensures kids <= kids' && fresh(kids' - kids)
  {
    d.topRight := Place(d.topRight, w, b);
    kids' := kids + {d.topRight};
  }

  method PlaceBottomLeft(d: WriterData, w: Waypt, ghost kids: set<WriterData>,
      ghost a: seq<Waypt>, ghost b: seq<Waypt>, ghost c: seq<Waypt>, ghost e: seq<Waypt>)
    returns (ghost kids': set<WriterData>)
    requires Four(d, d.topLeft, d.topRight, d.bottomLeft, d.bottomRight, a, b, c, e, kids)
    modifies d`bottomLeft, d.bottomLeft
    ensures Four(d, d.topLeft, d.topRight, d.bottomLeft, d.bottomRight, a, b, c + [w], e, kids')
    ensures kids <= kids' && fresh(kids' - kids)
  {
    d.bottomLeft := Place(d.bottomLeft, w, c);
    kids' := kids + {d.bottomLeft};
  }

  method PlaceBottomRight(d: WriterData, w: Waypt, ghost kids: set<WriterData>,
      ghost a: seq<Waypt>, ghost b: seq<Waypt>, ghost c: seq<Waypt>, ghost e: seq<Waypt>)
    returns (ghost kids': set<WriterData>)
    requires Four(d, d.topLeft, d.topRight, d.bottomLeft, d.bottomRight, a, b, c, e, kids)
    modifies d`bottomRight, d.bottomRight
    ensures Four(d, d.topLeft, d.topRight, d.bottomLeft, d.bottomRight, a, b, c, e + [w], kids')
    ensures kids <= kids' && fresh(kids' - kids)
  {
    d.bottomRight := Place(d.bottomRight, w, e);
    kids' := kids + {d.bottomRight};
  }

  // The quadrants of the first n waypoints.
  ghost predicate Quartered(q: seq<Waypt>, cLat: real, cLon: real, a: seq<Waypt>, b: seq<Waypt>, c: seq<Waypt>, e: seq<Waypt>) {
    && a == Quadrant(q, cLat, cLon, false, true) && b == Quadrant(q, cLat, cLon, false, false)
    && c == Quadrant(q, cLat, cLon, true, true) && e == Quadrant(q, cLat, cLon, true, false)
  }

  // One more waypoint goes to one of the four.
  ghost predicate OneMore(w: Waypt, cLat: real, cLon: real, a: seq<Waypt>, b: seq<Waypt>, c: seq<Waypt>, e: seq<Waypt>,
      a': seq<Waypt>, b': seq<Waypt>, c': seq<Waypt>, e': seq<Waypt>)
  {
    var s, t := w.lat < cLat, w.lon < cLon;
    && a' == (if !s && t then a + [w] else a) && b' == (if !s && !t then b + [w] else b)
    && c' == (if s && t then c + [w] else c) && e' == (if s && !t then e + [w] else e)
  }

  lemma QuarterOne(q: seq<Waypt>, w: Waypt, cLat: real, cLon: real, a: seq<Waypt>, b: seq<Waypt>, c: seq<Waypt>, e: seq<Waypt>,
      a': seq<Waypt>, b': seq<Waypt>, c': seq<Waypt>, e': seq<Waypt>)
    requires Quartered(q, cLat, cLon, a, b, c, e) && OneMore(w, cLat, cLon, a, b, c, e, a', b', c', e')
    ensures Quartered(q + [w], cLat, cLon, a', b', c', e')
  {
    assert (q + [w])[..|q|] == q;
  }

  method PlaceInQuadrant(d: WriterData, w: Waypt, cLat: real, cLon: real, ghost kids: set<WriterData>,
      ghost a: seq<Waypt>, ghost b: seq<Waypt>, ghost c: seq<Waypt>, ghost e: seq<Waypt>)
    returns (ghost kids': set<WriterData>, ghost a': seq<Waypt>, ghost b': seq<Waypt>, ghost c': seq<Waypt>, ghost e': seq<Waypt>)
    requires Four(d, d.topLeft, d.topRight, d.bottomLeft, d.bottomRight, a, b, c, e, kids)
    modifies d`topLeft, d`topRight, d`bottomLeft, d`bottomRight, kids
    ensures Four(d, d.topLeft, d.topRight, d.bottomLeft, d.bottomRight, a', b', c', e', kids')
    ensures OneMore(w, cLat, cLon, a, b, c, e, a', b', c', e')
    ensures kids <= kids' && fresh(kids' - kids)
  {
    a', b', c', e' := a, b, c, e;
    if w.lat < cLat {
      if w.lon < cLon {
        kids' := PlaceBottomLeft(d, w, kids, a, b, c, e);
        c' := c + [w];
      } else {
        kids' := PlaceBottomRight(d, w, kids, a, b, c, e);
        e' := e + [w];
      }
    } else {
      if w.lon < cLon {
        kids' := PlaceTopLeft(d, w, kids, a, b, c, e);
        a' := a + [w];
      } else {
        kids' := PlaceTopRight(d, w, kids, a, b, c, e);
        b' := b + [w];
      }
    }
  }

  // What is left of a queue that is being moved away.
  ghost predicate Emptying(d: WriterData, q: seq<Waypt>, bds: Bounds)
    reads d`q, d`ct, d`bds, d`sz, d`alert
  {
    d.q == q && d.ct == |q| && d.bds == bds && d.sz == 0 && d.alert == 0
  }

  method Dequeue(d: WriterData, ghost q: seq<Waypt>, ghost bds: Bounds) returns (w: Waypt, ghost rest: seq<Waypt>)
    requires q != [] && Emptying(d, q, bds)
    modifies d`q, d`ct
    ensures q == [w] + rest && Emptying(d, rest, bds)
  {
    w := d.q[0];
    d.ct := d.ct - 1;
    d.q := d.q[1..];
    rest := d.q;
  }

  // The waypoints moved so far are in the four blocks of their quadrants.
  ghost predicate Moved(d: WriterData, done: seq<Waypt>, cLat: real, cLon: real, kids: set<WriterData>)
    reads d`topLeft, d`topRight, d`bottomLeft, d`bottomRight, d.topLeft, d.topRight, d.bottomLeft, d.bottomRight
  {
    Four(d, d.topLeft, d.topRight, d.bottomLeft, d.bottomRight,
         Quadrant(done, cLat, cLon, false, true), Quadrant(done, cLat, cLon, false, false),
         Quadrant(done, cLat, cLon, true, true), Quadrant(done, cLat, cLon, true, false), kids)
  }

  method MoveOne(d: WriterData, w: Waypt, cLat: real, cLon: real, ghost done: seq<Waypt>, ghost kids: set<WriterData>)
    returns (ghost done': seq<Waypt>, ghost kids': set<WriterData>)
    requires Moved(d, done, cLat, cLon, kids)
    modifies d`topLeft, d`topRight, d`bottomLeft, d`bottomRight, kids
    ensures done' == done + [w] && Moved(d, done', cLat, cLon, kids')
    ensures kids <= kids' && fresh(kids' - kids)
  {
    ghost var a, b := Quadrant(done, cLat, cLon, false, true), Quadrant(done, cLat, cLon, false, false);
    ghost var c, e := Quadrant(done, cLat, cLon, true, true), Quadrant(done, cLat, cLon, true, false);
    ghost var a', b', c', e';
    kids', a', b', c', e' := PlaceInQuadrant(d, w, cLat, cLon, kids, a, b, c, e);
    QuarterOne(done, w, cLat, cLon, a, b, c, e, a', b', c', e');
    done' := done + [w];
  }

  lemma NothingMoved(d: WriterData, all: seq<Waypt>, cLat: real, cLon: real)
    requires Fresh(d, all)
    ensures Emptying(d, all, BoundsOf(all)) && Moved(d, [], cLat, cLon, {})
  {
  }

  // Takes the first waypoint off the queue and moves it.
  method MoveFirst(d: WriterData, cLat: real, cLon: real, ghost rest: seq<Waypt>, ghost bds: Bounds, ghost done: seq<Waypt>, ghost kids: set<WriterData>)
    returns (ghost rest': seq<Waypt>, ghost done': seq<Waypt>, ghost kids': set<WriterData>)
    requires rest != [] && Emptying(d, rest, bds) && Moved(d, done, cLat, cLon, kids)
    modifies d, kids
    ensures Emptying(d, rest', bds) && Moved(d, done', cLat, cLon, kids')
    ensures |rest'| < |rest| && done' + rest' == done + rest
    ensures kids <= kids' && fresh(kids' - kids)
  {
    var w;
    w, rest' := Dequeue(d, rest, bds);
    Associate(done, [w], rest');
    done', kids' := MoveOne(d, w, cLat, cLon, done, kids);
  }

  // Moves every waypoint of the queue to the block of its quadrant.
  method Distribute(d: WriterData, cLat: real, cLon: real, ghost all: seq<Waypt>, ghost bds: Bounds) returns (ghost kids: set<WriterData>)
    requires Emptying(d, all, bds) && Moved(d, [], cLat, cLon, {})
    modifies d
    ensures Emptying(d, [], bds) && Moved(d, all, cLat, cLon, kids) && fresh(kids)
  {
    ghost var done, rest: seq<Waypt> := [], all;
    kids := {};
    while d.q != []
      invariant Emptying(d, rest, bds) && done + rest == all
      invariant Moved(d, done, cLat, cLon, kids)
      invariant fresh(kids)
      decreases |d.q|
    {
      rest, done, kids := MoveFirst(d, cLat, cLon, rest, bds, done, kids);
    }
    assert done == all;
  }

  // ---------------------------------------------------------------- checking a block

  // The tree a queue's block becomes, if there is one.
  function SplitIfAny(q: seq<Waypt>): QTree
    requires AllSane(q)
  {
    if q == [] then NoBlock else Split(q)
  }

  lemma SortOfFew(q: seq<Waypt>)
    requires |q| <= 1
    ensures SortByName(q) == q
  {
  }

  /** Checks a freshly filled block: a crowded one is divided among its quadrants, which are
      checked in turn. The result is the tree that Split describes. */
  method Check(d: WriterData, ghost q: seq<Waypt>) returns (ghost s: Shape, ghost born: set<WriterData>)
    requires Fresh(d, q) && AllSane(q)
    modifies d
    ensures Root(s) == d && Valid(s) && Value(s) == Split(q) && Nodes(s) <= {d} + born
    ensures fresh(born)
    decreases |q|, 3
  {
    if d.ct <= WAYPOINTS_PER_BLOCK || (d.bds.minLat >= d.bds.maxLat && d.bds.minLon >= d.bds.maxLon) {
      if d.ct > 1 {
        d.q := SortByName(d.q);
      } else {
        SortOfFew(q);
      }
      s, born := Cell(d, d.q, d.ct, 0, 0, d.bds, Nil, Nil, Nil, Nil), {};
      return;
    }
    var cLat, cLon := MeanOf(d.q, d.ct);
    NothingMoved(d, q, cLat, cLon);
    ghost var bds := d.bds;
    ghost var kids := Distribute(d, cLat, cLon, q, bds);
    ghost var more;
    s, more := CheckQuadrants(d, q, bds, kids);
    born := kids + more;
  }

  // What checking leaves of the block of one quadrant.
  ghost predicate Checked(k: WriterData?, q: seq<Waypt>, s: Shape, born: set<WriterData>)
    requires AllSane(q)
    reads Nodes(s)
  {
    Root(s) == k && Valid(s) && Value(s) == SplitIfAny(q) && Within(s, k, born)
  }

  ghost predicate Within(s: Shape, k: WriterData?, born: set<WriterData>) {
    forall n | n in Nodes(s) :: n == k || n in born
  }

  ghost predicate Separate(k: WriterData?, bs: set<WriterData>, l: WriterData?, bt: set<WriterData>) {
    bs !! bt && (k != null ==> k != l && k !in bt) && (l != null ==> l !in bs)
  }

  lemma StayApart(s: Shape, k: WriterData?, bs: set<WriterData>, t: Shape, l: WriterData?, bt: set<WriterData>)
    requires Within(s, k, bs) && Within(t, l, bt) && Separate(k, bs, l, bt)
    ensures Nodes(s) !! Nodes(t)
  {
  }

  datatype Quarters = Quarters(tl: seq<Waypt>, tr: seq<Waypt>, bl: seq<Waypt>, br: seq<Waypt>)

  ghost function QuartersOf(q: seq<Waypt>): (p: Quarters)
    requires AllSane(q) && !IsLeaf(q)
    ensures AllSane(p.tl) && AllSane(p.tr) && AllSane(p.bl) && AllSane(p.br)
    ensures |p.tl| < |q| && |p.tr| < |q| && |p.bl| < |q| && |p.br| < |q|
  {
    SplitShrinks(q, false, true);
    SplitShrinks(q, false, false);
    SplitShrinks(q, true, true);
    SplitShrinks(q, true, false);
    var cLat, cLon := Mean(q, true), Mean(q, false);
    Quarters(Quadrant(q, cLat, cLon, false, true), Quadrant(q, cLat, cLon, false, false),
             Quadrant(q, cLat, cLon, true, true), Quadrant(q, cLat, cLon, true, false))
  }

  ghost predicate BothChecked(k: WriterData?, p: seq<Waypt>, s: Shape, bs: set<WriterData>, l: WriterData?, q: seq<Waypt>, t: Shape, bt: set<WriterData>)
    requires AllSane(p) && AllSane(q)
    reads Nodes(s), Nodes(t)
  {
    Checked(k, p, s, bs) && Checked(l, q, t, bt)
  }

  // All four quadrants of d checked, no block shared between them.
  ghost predicate FourChecked(d: WriterData, p: Quarters, kids: set<WriterData>, a: Shape, b: Shape, c: Shape, e: Shape,
      ba: set<WriterData>, bb: set<WriterData>, bc: set<WriterData>, be: set<WriterData>)
    requires AllSane(p.tl) && AllSane(p.tr) && AllSane(p.bl) && AllSane(p.br)
    reads d`topLeft, d`topRight, d`bottomLeft, d`bottomRight, Nodes(a), Nodes(b), Nodes(c), Nodes(e)
  {
    && BothChecked(d.topLeft, p.tl, a, ba, d.topRight, p.tr, b, bb)
    && BothChecked(d.bottomLeft, p.bl, c, bc, d.bottomRight, p.br, e, be)
    && NewTo({d} + kids, ba, bb, bc, be)
  }

  ghost predicate NewTo(known: set<WriterData>, ba: set<WriterData>, bb: set<WriterData>, bc: set<WriterData>, be: set<WriterData>) {
    && known !! ba && known !! bb && known !! bc && known !! be
    && ba !! bb && ba !! bc && ba !! be && bb !! bc && bb !! be && bc !! be
  }

  lemma Assembled(d: WriterData, q: seq<Waypt>, kids: set<WriterData>, a: Shape, b: Shape, c: Shape, e: Shape,
      ba: set<WriterData>, bb: set<WriterData>, bc: set<WriterData>, be: set<WriterData>)
    requires AllSane(q) && !IsLeaf(q) && Emptying(d, [], BoundsOf(q))
    requires FourChecked(d, QuartersOf(q), kids, a, b, c, e, ba, bb, bc, be)
    requires Apart(d, d.topLeft, d.topRight, d.bottomLeft, d.bottomRight) && Among(d, d.topLeft, d.topRight, d.bottomLeft, d.bottomRight, kids)
    ensures var s := Cell(d, d.q, d.ct, d.sz, d.alert, d.bds, a, b, c, e);
      Valid(s) && Value(s) == Split(q)
  {
    QuartersStayApart(d, QuartersOf(q), kids, a, b, c, e, ba, bb, bc, be);
    Joined(d, a, b, c, e);
    JoinedIsSplit(d, q, a, b, c, e);
  }

  lemma Joined(d: WriterData, a: Shape, b: Shape, c: Shape, e: Shape)
    requires Disjoint(d, a, b, c, e) && Valid(a) && Valid(b) && Valid(c) && Valid(e)
    requires d.topLeft == Root(a) && d.topRight == Root(b) && d.bottomLeft == Root(c) && d.bottomRight == Root(e)
    ensures Valid(Cell(d, d.q, d.ct, d.sz, d.alert, d.bds, a, b, c, e))
  {
  }

  lemma JoinedIsSplit(d: WriterData, q: seq<Waypt>, a: Shape, b: Shape, c: Shape, e: Shape)
    requires AllSane(q) && !IsLeaf(q) && Emptying(d, [], BoundsOf(q))
    requires var p := QuartersOf(q);
      Value(a) == SplitIfAny(p.tl) && Value(b) == SplitIfAny(p.tr) && Value(c) == SplitIfAny(p.bl) && Value(e) == SplitIfAny(p.br)
    ensures Value(Cell(d, d.q, d.ct, d.sz, d.alert, d.bds, a, b, c, e)) == Split(q)
  {
  }

  // No node is in two of the four subtrees, and none is the block itself.
  ghost predicate Disjoint(d: WriterData, a: Shape, b: Shape, c: Shape, e: Shape) {
    && d !in Nodes(a) && d !in Nodes(b) && d !in Nodes(c) && d !in Nodes(e)
    && Nodes(a) !! Nodes(b) && Nodes(a) !! Nodes(c) && Nodes(a) !! Nodes(e)
    && Nodes(b) !! Nodes(c) && Nodes(b) !! Nodes(e) && Nodes(c) !! Nodes(e)
  }

  lemma QuartersStayApart(d: WriterData, p: Quarters, kids: set<WriterData>, a: Shape, b: Shape, c: Shape, e: Shape,
      ba: set<WriterData>, bb: set<WriterData>, bc: set<WriterData>, be: set<WriterData>)
    requires AllSane(p.tl) && AllSane(p.tr) && AllSane(p.bl) && AllSane(p.br) && FourChecked(d, p, kids, a, b, c, e, ba, bb, bc, be)
    requires Apart(d, d.topLeft, d.topRight, d.bottomLeft, d.bottomRight) && Among(d, d.topLeft, d.topRight, d.bottomLeft, d.bottomRight, kids)
    ensures Disjoint(d, a, b, c, e)
  {
    StayApart(a, d.topLeft, ba, b, d.topRight, bb);
    StayApart(a, d.topLeft, ba, c, d.bottomLeft, bc);
    StayApart(a, d.topLeft, ba, e, d.bottomRight, be);
    StayApart(b, d.topRight, bb, c, d.bottomLeft, bc);
    StayApart(b, d.topRight, bb, e, d.bottomRight, be);
    StayApart(c, d.bottomLeft, bc, e, d.bottomRight, be);
  }

  lemma NodesAssembled(d: WriterData, q: seq<Waypt>, kids: set<WriterData>, a: Shape, b: Shape, c: Shape, e: Shape,
      ba: set<WriterData>, bb: set<WriterData>, bc: set<WriterData>, be: set<WriterData>)
    requires AllSane(q) && !IsLeaf(q) && FourChecked(d, QuartersOf(q), kids, a, b, c, e, ba, bb, bc, be)
    requires Apart(d, d.topLeft, d.topRight, d.bottomLeft, d.bottomRight) && Among(d, d.topLeft, d.topRight, d.bottomLeft, d.bottomRight, kids)
    ensures Nodes(Cell(d, d.q, d.ct, d.sz, d.alert, d.bds, a, b, c, e)) <= {d} + kids + ((ba + bb) + (bc + be))
  {
    forall n | n in Nodes(a) + Nodes(b) + Nodes(c) + Nodes(e) ensures n in kids + ((ba + bb) + (bc + be)) {
    }
  }

  lemma AssembledTree(d: WriterData, q: seq<Waypt>, kids: set<WriterData>, a: Shape, b: Shape, c: Shape, e: Shape,
      ba: set<WriterData>, bb: set<WriterData>, bc: set<WriterData>, be: set<WriterData>, born: set<WriterData>, s: Shape)
    requires AllSane(q) && !IsLeaf(q) && Emptying(d, [], BoundsOf(q)) && born == (ba + bb) + (bc + be)
    requires FourChecked(d, QuartersOf(q), kids, a, b, c, e, ba, bb, bc, be)
    requires Apart(d, d.topLeft, d.topRight, d.bottomLeft, d.bottomRight) && Among(d, d.topLeft, d.topRight, d.bottomLeft, d.bottomRight, kids)
    requires s == Cell(d, [], 0, 0, 0, BoundsOf(q), a, b, c, e)
    ensures Valid(s) && Value(s) == Split(q) && Nodes(s) <= {d} + kids + born
  {
    NodesAssembled(d, q, kids, a, b, c, e, ba, bb, bc, be);
    Assembled(d, q, kids, a, b, c, e, ba, bb, bc, be);
  }

  method CheckQuadrants(d: WriterData, ghost q: seq<Waypt>, ghost bds: Bounds, ghost kids: set<WriterData>) returns (ghost s: Shape, ghost born: set<WriterData>)
    requires AllSane(q) && !IsLeaf(q) && bds == BoundsOf(q)
    requires Emptying(d, [], bds) && Moved(d, q, Mean(q, true), Mean(q, false), kids)
    modifies kids
    ensures Root(s) == d && Valid(s) && Value(s) == Split(q) && Nodes(s) <= {d} + kids + born
    ensures fresh(born)
    decreases |q|, 2
  {
    ghost var p := QuartersOf(q);
    ghost var sa, ba, sb, bb, sc, bc, se, be;
    sa, ba, sb, bb, sc, bc, se, be, born := CheckFour(d, p, |q|, kids);
    s := Cell(d, [], 0, 0, 0, bds, sa, sb, sc, se);
    AssembledTree(d, q, kids, sa, sb, sc, se, ba, bb, bc, be, born, s);
  }

  method CheckFour(d: WriterData, ghost p: Quarters, ghost size: nat, ghost kids: set<WriterData>)
    returns (ghost sa: Shape, ghost ba: set<WriterData>, ghost sb: Shape, ghost bb: set<WriterData>,
             ghost sc: Shape, ghost bc: set<WriterData>, ghost se: Shape, ghost be: set<WriterData>, ghost born: set<WriterData>)
    requires AllSane(p.tl) && AllSane(p.tr) && AllSane(p.bl) && AllSane(p.br)
    requires |p.tl| < size && |p.tr| < size && |p.bl| < size && |p.br| < size
    requires Four(d, d.topLeft, d.topRight, d.bottomLeft, d.bottomRight, p.tl, p.tr, p.bl, p.br, kids)
    modifies kids
    ensures FourChecked(d, p, kids, sa, sb, sc, se, ba, bb, bc, be)
    ensures born == (ba + bb) + (bc + be) && fresh(born)
    decreases size, 1
  {
    ghost var north, south;
    sa, ba, sb, bb, north := CheckNorth(d.topLeft, d.topRight, p, d.bottomLeft, d.bottomRight);
    sc, bc, se, be, south := CheckSouth(d.bottomLeft, d.bottomRight, p, d.topLeft, sa, ba, d.topRight, sb, bb);
    born := north + south;
    AllNew({d} + kids, ba, bb, bc, be, north, south);
    AllChecked(d, p, kids, sa, sb, sc, se, ba, bb, bc, be);
  }

  lemma AllChecked(d: WriterData, p: Quarters, kids: set<WriterData>, a: Shape, b: Shape, c: Shape, e: Shape,
      ba: set<WriterData>, bb: set<WriterData>, bc: set<WriterData>, be: set<WriterData>)
    requires AllSane(p.tl) && AllSane(p.tr) && AllSane(p.bl) && AllSane(p.br)
    requires BothChecked(d.topLeft, p.tl, a, ba, d.topRight, p.tr, b, bb)
    requires BothChecked(d.bottomLeft, p.bl, c, bc, d.bottomRight, p.br, e, be) && NewTo({d} + kids, ba, bb, bc, be)
    ensures FourChecked(d, p, kids, a, b, c, e, ba, bb, bc, be)
  {
  }

  lemma OutOfReach(s: Shape, k: WriterData?, bs: set<WriterData>, x: WriterData?, y: WriterData?)
    requires Within(s, k, bs) && (x != null ==> x != k && x !in bs) && (y != null ==> y != k && y !in bs)
    ensures Beyond(s, x, y)
  {
  }

  ghost predicate Beyond(s: Shape, x: WriterData?, y: WriterData?) {
    (x != null ==> x !in Nodes(s)) && (y != null ==> y !in Nodes(s))
  }

  lemma AllNew(known: set<WriterData>, ba: set<WriterData>, bb: set<WriterData>, bc: set<WriterData>, be: set<WriterData>, north: set<WriterData>, south: set<WriterData>)
    requires north == ba + bb && south == bc + be && ba !! bb && bc !! be && known !! north && known !! south && north !! south
    ensures NewTo(known, ba, bb, bc, be)
  {
  }

  // The northern quadrants, and what that leaves of the southern ones.
  method CheckNorth(tl: WriterData?, tr: WriterData?, ghost p: Quarters, ghost bl: WriterData?, ghost br: WriterData?)
    returns (ghost sa: Shape, ghost ba: set<WriterData>, ghost sb: Shape, ghost bb: set<WriterData>, ghost north: set<WriterData>)
    requires AllSane(p.tl) && AllSane(p.tr) && Bucket(tl, p.tl) && Bucket(tr, p.tr) && (tl != null ==> tl != tr)
    requires Bucket(bl, p.bl) && Bucket(br, p.br)
    requires (bl != null ==> bl != tl && bl != tr) && (br != null ==> br != tl && br != tr)
    modifies tl, tr
    ensures BothChecked(tl, p.tl, sa, ba, tr, p.tr, sb, bb) && ba !! bb
    ensures Bucket(bl, p.bl) && Bucket(br, p.br) && Beyond(sa, bl, br) && Beyond(sb, bl, br)
    ensures north == ba + bb && fresh(north)
    decreases if |p.tl| < |p.tr| then |p.tr| else |p.tl|, 6
  {
    sa, ba, sb, bb, north := CheckPair(tl, tr, p.tl, p.tr);
    OutOfReach(sa, tl, ba, bl, br);
    OutOfReach(sb, tr, bb, bl, br);
  }

  // The southern ones, with the northern ones checked.
  method CheckSouth(bl: WriterData?, br: WriterData?, ghost p: Quarters,
      ghost tl: WriterData?, ghost sa: Shape, ghost ba: set<WriterData>, ghost tr: WriterData?, ghost sb: Shape, ghost bb: set<WriterData>)
    returns (ghost sc: Shape, ghost bc: set<WriterData>, ghost se: Shape, ghost be: set<WriterData>, ghost south: set<WriterData>)
    requires AllSane(p.tl) && AllSane(p.tr) && AllSane(p.bl) && AllSane(p.br)
    requires Bucket(bl, p.bl) && Bucket(br, p.br) && (bl != null ==> bl != br) && Beyond(sa, bl, br) && Beyond(sb, bl, br)
    requires BothChecked(tl, p.tl, sa, ba, tr, p.tr, sb, bb)
    modifies bl, br
    ensures BothChecked(tl, p.tl, sa, ba, tr, p.tr, sb, bb)
    ensures BothChecked(bl, p.bl, sc, bc, br, p.br, se, be) && bc !! be
    ensures south == bc + be && fresh(south)
    decreases if |p.bl| < |p.br| then |p.br| else |p.bl|, 6
  {
    sc, bc, se, be, south := CheckPair(bl, br, p.bl, p.br);
  }

  method CheckPair(k: WriterData?, l: WriterData?, ghost p: seq<Waypt>, ghost q: seq<Waypt>)
    returns (ghost s: Shape, ghost bs: set<WriterData>, ghost t: Shape, ghost bt: set<WriterData>, ghost born: set<WriterData>)
    requires Bucket(k, p) && AllSane(p) && Bucket(l, q) && AllSane(q) && (k != null ==> k != l)
    modifies k, l
    ensures BothChecked(k, p, s, bs, l, q, t, bt) && bs !! bt
    ensures born == bs + bt && fresh(born)
    decreases if |p| < |q| then |q| else |p|, 5
  {
    s, bs := CheckIfAny(k, p);
    t, bt := CheckIfAny(l, q);
    born := bs + bt;
  }

  method CheckIfAny(k: WriterData?, ghost q: seq<Waypt>) returns (ghost s: Shape, ghost born: set<WriterData>)
    requires Bucket(k, q) && AllSane(q)
    modifies k
    ensures Checked(k, q, s, born)
    ensures fresh(born)
    decreases |q|, 4
  {
    if k == null {
      s, born := Nil, {};
    } else {
      s, born := Check(k, q);
    }
  }
}
