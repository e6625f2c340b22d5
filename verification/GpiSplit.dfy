// The recursive quadrant split of the GPI writer: blocks of more than 128 waypoints are divided
// around the mean of their positions. Coordinates are reals here.
module GpiSplit {
  import opened CString
  import opened GpiModel
  import opened StableSort

  const WAYPOINTS_PER_BLOCK := 128

  // ---------------------------------------------------------------- bounds

  function Coord(w: Waypt, lat: bool): real {
    if lat then w.lat else w.lon
  }

  function MaxR(a: real, b: real): real { if a < b then b else a }
  function MinR(a: real, b: real): real { if b < a then b else a }

  function AddToBounds(b: Bounds, w: Waypt): Bounds {
    Bounds(MaxR(b.maxLat, w.lat), MaxR(b.maxLon, w.lon), MinR(b.minLat, w.lat), MinR(b.minLon, w.lon))
  }

  function BoundsOf(q: seq<Waypt>): Bounds {
    if q == [] then EMPTY_BOUNDS else AddToBounds(BoundsOf(q[..|q| - 1]), q[|q| - 1])
  }

  predicate Encloses(b: Bounds, w: Waypt) {
    b.minLat <= w.lat <= b.maxLat && b.minLon <= w.lon <= b.maxLon
  }

  // The initial bounds are only beaten by coordinates within +-9999.
  predicate Sane(w: Waypt) {
    -9999.0 <= w.lat <= 9999.0 && -9999.0 <= w.lon <= 9999.0
  }

  predicate AllSane(q: seq<Waypt>) {
    forall w | w in q :: Sane(w)
  }

  lemma {:induction false} BoundsEnclose(q: seq<Waypt>)
    ensures forall w | w in q :: Encloses(BoundsOf(q), w)
  {
    if q != [] {
      var front := q[..|q| - 1];
      BoundsEnclose(front);
      assert q == front + [q[|q| - 1]];
    }
  }

  // Bounds of a non-empty queue are attained.
  lemma {:induction false} BoundsAttained(q: seq<Waypt>)
    requires q != [] && AllSane(q)
    ensures var b := BoundsOf(q);
      && (exists w :: w in q && w.lat == b.maxLat) && (exists w :: w in q && w.lat == b.minLat)
      && (exists w :: w in q && w.lon == b.maxLon) && (exists w :: w in q && w.lon == b.minLon)
  {
    var front, last := q[..|q| - 1], q[|q| - 1];
    assert q == front + [last] && last in q && Sane(last);
    if front != [] {
      assert forall w | w in front :: w in q;
      BoundsAttained(front);
    }
  }

  // All points in one place, or none at all.
  predicate Degenerate(b: Bounds) {
    b.minLat >= b.maxLat && b.minLon >= b.maxLon
  }

  predicate Coincident(q: seq<Waypt>) {
    forall v, w | v in q && w in q :: v.lat == w.lat && v.lon == w.lon
  }

  lemma DegenerateIsCoincident(q: seq<Waypt>)
    requires q != [] && AllSane(q)
    ensures Degenerate(BoundsOf(q)) <==> Coincident(q)
  {
    BoundsEnclose(q);
    BoundsAttained(q);
  }

  // ---------------------------------------------------------------- the mean divides

  function Sum(q: seq<Waypt>, lat: bool): real {
    if q == [] then 0.0 else Sum(q[..|q| - 1], lat) + Coord(q[|q| - 1], lat)
  }

  function Mean(q: seq<Waypt>, lat: bool): real
    requires q != []
  {
    Sum(q, lat) / |q| as real
  }

  // Sum of the deviations from m.
  function Deviation(q: seq<Waypt>, lat: bool, m: real): real {
    if q == [] then 0.0 else Deviation(q[..|q| - 1], lat, m) + (Coord(q[|q| - 1], lat) - m)
  }

  lemma {:induction false} DeviationIsSum(q: seq<Waypt>, lat: bool, m: real)
    ensures Deviation(q, lat, m) == Sum(q, lat) - m * |q| as real
  {
    if q != [] {
      DeviationIsSum(q[..|q| - 1], lat, m);
      var n := (|q| - 1) as real;
      assert |q| as real == n + 1.0;
      assert m * (n + 1.0) == m * n + m;
    }
  }

  lemma {:induction false} AllBelowDeviates(q: seq<Waypt>, lat: bool, m: real)
    requires q != [] && forall w | w in q :: Coord(w, lat) < m
    ensures Deviation(q, lat, m) < 0.0
  {
    var front := q[..|q| - 1];
    assert q[|q| - 1] in q && forall w | w in front :: w in q;
    if front != [] {
      AllBelowDeviates(front, lat, m);
    }
  }

  lemma {:induction false} AllAboveDeviates(q: seq<Waypt>, lat: bool, m: real)
    requires forall w | w in q :: Coord(w, lat) >= m
    ensures Deviation(q, lat, m) >= 0.0
    ensures Deviation(q, lat, m) == 0.0 ==> forall w | w in q :: Coord(w, lat) == m
  {
    if q != [] {
      var front := q[..|q| - 1];
      assert q == front + [q[|q| - 1]] && q[|q| - 1] in q;
      AllAboveDeviates(front, lat, m);
    }
  }

  /** The deviations from the mean cancel out; unless all points agree in a coordinate, some lie strictly below its
      mean and some do not. */
  lemma MeanDivides(q: seq<Waypt>, lat: bool)
    requires q != [] && exists v, w :: v in q && w in q && Coord(v, lat) != Coord(w, lat)
    ensures Deviation(q, lat, Mean(q, lat)) == 0.0
    ensures exists w :: w in q && Coord(w, lat) < Mean(q, lat)
    ensures exists w :: w in q && Coord(w, lat) >= Mean(q, lat)
  {
    var m := Mean(q, lat);
    DeviationIsSum(q, lat, m);
    assert m * |q| as real == Sum(q, lat);
    if forall w | w in q :: Coord(w, lat) < m {
      AllBelowDeviates(q, lat, m);
    } else if forall w | w in q :: Coord(w, lat) >= m {
      AllAboveDeviates(q, lat, m);
    }
  }

  // ---------------------------------------------------------------- quadrants

  predicate InQuadrant(w: Waypt, cLat: real, cLon: real, south: bool, west: bool) {
    (w.lat < cLat <==> south) && (w.lon < cLon <==> west)
  }

  function Quadrant(q: seq<Waypt>, cLat: real, cLon: real, south: bool, west: bool): (r: seq<Waypt>)
    ensures |r| <= |q|
    ensures forall w :: w in r <==> w in q && InQuadrant(w, cLat, cLon, south, west)
  {
    if q == [] then []
    else
      var front, last := q[..|q| - 1], q[|q| - 1];
      assert q == front + [last];
      Quadrant(front, cLat, cLon, south, west) + if InQuadrant(last, cLat, cLon, south, west) then [last] else []
  }

  lemma {:induction false} QuadrantShrinks(q: seq<Waypt>, cLat: real, cLon: real, south: bool, west: bool, w: Waypt)
    requires w in q && !InQuadrant(w, cLat, cLon, south, west)
    ensures |Quadrant(q, cLat, cLon, south, west)| < |q|
  {
    var front, last := q[..|q| - 1], q[|q| - 1];
    assert q == front + [last];
    if w != last {
      QuadrantShrinks(front, cLat, cLon, south, west, w);
    }
  }

  /** Every quadrant of a queue that is not all in one place has strictly fewer points. */
  lemma SplitShrinks(q: seq<Waypt>, south: bool, west: bool)
    requires q != [] && AllSane(q) && !Degenerate(BoundsOf(q))
    ensures |Quadrant(q, Mean(q, true), Mean(q, false), south, west)| < |q|
  {
    BoundsAttained(q);
    var b, cLat, cLon := BoundsOf(q), Mean(q, true), Mean(q, false);
    if b.minLat < b.maxLat {
      var v :| v in q && v.lat == b.minLat;
      var w :| w in q && w.lat == b.maxLat;
      assert Coord(v, true) != Coord(w, true);
      MeanDivides(q, true);
      var x :| x in q && Coord(x, true) < cLat;
      var y :| y in q && Coord(y, true) >= cLat;
      QuadrantShrinks(q, cLat, cLon, south, west, if south then y else x);
    } else {
      var v :| v in q && v.lon == b.minLon;
      var w :| w in q && w.lon == b.maxLon;
      assert Coord(v, false) != Coord(w, false);
      MeanDivides(q, false);
      var x :| x in q && Coord(x, false) < cLon;
      var y :| y in q && Coord(y, false) >= cLon;
      QuadrantShrinks(q, cLat, cLon, south, west, if west then y else x);
    }
  }

  lemma {:induction false} QuadrantsPartition(q: seq<Waypt>, cLat: real, cLon: real)
    ensures multiset(Quadrant(q, cLat, cLon, false, true)) + multiset(Quadrant(q, cLat, cLon, false, false))
      + multiset(Quadrant(q, cLat, cLon, true, true)) + multiset(Quadrant(q, cLat, cLon, true, false)) == multiset(q)
  {
    if q != [] {
      assert q == q[..|q| - 1] + [q[|q| - 1]];
      QuadrantsPartition(q[..|q| - 1], cLat, cLon);
    }
  }

  // ---------------------------------------------------------------- sorting by name

  predicate NameLeq(v: Waypt, w: Waypt) {
    Lex(false, v.name, w.name) <= 0
  }

  lemma NamesAreOrdered()
    ensures Preorder(NameLeq)
  {
    forall v: Waypt, w: Waypt ensures NameLeq(v, w) || NameLeq(w, v) {
      LexFlip(false, v.name, w.name);
    }
    forall v: Waypt, w: Waypt, x: Waypt | NameLeq(v, w) && NameLeq(w, x) ensures NameLeq(v, x) {
      LexTransitive(false, v.name, w.name, x.name);
    }
  }

  // No name is below an earlier one, byte by byte.
  ghost predicate SortedByName(q: seq<Waypt>) {
    forall i, j | 0 <= i < j < |q| :: !ByteBelow(q[j].name, q[i].name)
  }

  function SortByName(q: seq<Waypt>): seq<Waypt> {
    SortBy(q, NameLeq)
  }

  lemma NamesSorted(q: seq<Waypt>)
    ensures SortedByName(SortByName(q)) && multiset(SortByName(q)) == multiset(q)
  {
    NamesAreOrdered();
    SortSorts(q, NameLeq);
    var r := SortByName(q);
    forall i, j | 0 <= i < j < |r| ensures !ByteBelow(r[j].name, r[i].name) {
      assert NameLeq(r[i], r[j]);
      LexFlip(false, r[i].name, r[j].name);
      LexOfBytes(r[j].name, r[i].name);
    }
  }

  // ---------------------------------------------------------------- the split

  predicate IsLeaf(q: seq<Waypt>) {
    |q| <= WAYPOINTS_PER_BLOCK || Degenerate(BoundsOf(q))
  }

  // The block for a queue and everything below it.
  function Split(q: seq<Waypt>): QTree
    requires AllSane(q)
    decreases |q|
  {
    if IsLeaf(q) then
      Block(SortByName(q), |q|, 0, 0, BoundsOf(q), NoBlock, NoBlock, NoBlock, NoBlock)
    else
      var cLat, cLon := Mean(q, true), Mean(q, false);
      Block([], 0, 0, 0, BoundsOf(q),
            SplitQuadrant(q, false, true), SplitQuadrant(q, false, false),
            SplitQuadrant(q, true, true), SplitQuadrant(q, true, false))
  }

  // A quadrant gets a block when a first point falls into it.
  function SplitQuadrant(q: seq<Waypt>, south: bool, west: bool): QTree
    requires AllSane(q) && !IsLeaf(q)
    decreases |q|, 0
  {
    SplitShrinks(q, south, west);
    var p := Quadrant(q, Mean(q, true), Mean(q, false), south, west);
    if p == [] then NoBlock else Split(p)
  }

  // ---------------------------------------------------------------- what the split guarantees

  ghost predicate Organised(t: QTree) {
    match t
    case NoBlock => true
    case Block(q, ct, _, _, bds, a, b, c, d) =>
      && ct == |q| && (|q| <= 128 || Coincident(q)) && SortedByName(q) && Bounded(bds, Points(t))
      && ((a.NoBlock? && b.NoBlock? && c.NoBlock? && d.NoBlock?) || (q == [] && |Points(t)| > 128 && !Coincident(Points(t))))
      && Quartered(a, b, c, d) && Filled(a) && Filled(b) && Filled(c) && Filled(d)
      && Organised(a) && Organised(b) && Organised(c) && Organised(d)
  }

  // The bounds touch the points on all four sides.
  ghost predicate Bounded(b: Bounds, p: seq<Waypt>) {
    && (forall w | w in p :: Encloses(b, w))
    && (p != [] ==>
      && (exists w :: w in p && w.lat == b.maxLat) && (exists w :: w in p && w.lat == b.minLat)
      && (exists w :: w in p && w.lon == b.maxLon) && (exists w :: w in p && w.lon == b.minLon))
  }

  // Some point in the middle has the four quadrants around it.
  ghost predicate Quartered(a: QTree, b: QTree, c: QTree, d: QTree) {
    exists lat, lon :: QuarteredAt(a, b, c, d, lat, lon)
  }

  ghost predicate QuarteredAt(a: QTree, b: QTree, c: QTree, d: QTree, lat: real, lon: real) {
    && (forall w | w in Points(a) :: w.lat >= lat && w.lon < lon) && (forall w | w in Points(b) :: w.lat >= lat && w.lon >= lon)
    && (forall w | w in Points(c) :: w.lat < lat && w.lon < lon) && (forall w | w in Points(d) :: w.lat < lat && w.lon >= lon)
  }

  predicate Filled(t: QTree) {
    t.Block? ==> Points(t) != []
  }

  /** The split loses and duplicates nothing. A block is split exactly if it would hold more than 128 waypoints that
      are not all in one place; otherwise they are sorted by name. The quadrants lie around one point, those to the
      north first, and every block's bounds are the narrowest around everything below it. */
  lemma {:induction false} SplitIsOrganised(q: seq<Waypt>)
    requires AllSane(q)
    ensures Organised(Split(q)) && multiset(Points(Split(q))) == multiset(q)
    decreases |q|
  {
    if IsLeaf(q) {
      LeafIsOrganised(q);
    } else {
      QuadrantIsOrganised(q, false, true);
      QuadrantIsOrganised(q, false, false);
      QuadrantIsOrganised(q, true, true);
      QuadrantIsOrganised(q, true, false);
      QuadrantsPartition(q, Mean(q, true), Mean(q, false));
      PointsOfInner(Split(q));
      InnerIsOrganised(q, Split(q));
    }
  }

  // The four quadrants, each known to hold its points, make an organised block.
  lemma InnerIsOrganised(q: seq<Waypt>, t: QTree)
    requires AllSane(q) && !IsLeaf(q) && t.Block? && t.q == [] && t.ct == 0 && t.bds == BoundsOf(q) && multiset(Points(t)) == multiset(q)
    requires Organised(t.topLeft) && Filled(t.topLeft) && Within(t.topLeft, q, false, true)
    requires Organised(t.topRight) && Filled(t.topRight) && Within(t.topRight, q, false, false)
    requires Organised(t.bottomLeft) && Filled(t.bottomLeft) && Within(t.bottomLeft, q, true, true)
    requires Organised(t.bottomRight) && Filled(t.bottomRight) && Within(t.bottomRight, q, true, false)
    ensures Organised(t)
  {
    SamePoints(q, Points(t));
    DegenerateIsCoincident(q);
    assert QuarteredAt(t.topLeft, t.topRight, t.bottomLeft, t.bottomRight, Mean(q, true), Mean(q, false));
  }

  // All points of t lie in one quadrant around the mean of q.
  ghost predicate Within(t: QTree, q: seq<Waypt>, south: bool, west: bool)
    requires q != []
  {
    forall w | w in Points(t) :: InQuadrant(w, Mean(q, true), Mean(q, false), south, west)
  }

  // What holds of the points does not depend on their order.
  lemma SamePoints(q: seq<Waypt>, p: seq<Waypt>)
    requires multiset(p) == multiset(q) && AllSane(q)
    ensures |p| == |q| && (forall w :: w in p <==> w in q) && Bounded(BoundsOf(q), p) && (Coincident(p) <==> Coincident(q))
  {
    assert |multiset(p)| == |p| && |multiset(q)| == |q|;
    assert forall w :: w in p <==> w in multiset(p);
    assert forall w :: w in q <==> w in multiset(q);
    BoundsEnclose(q);
    if q != [] {
      BoundsAttained(q);
    }
  }

  lemma LeafIsOrganised(q: seq<Waypt>)
    requires AllSane(q) && IsLeaf(q)
    ensures Organised(Split(q)) && multiset(Points(Split(q))) == multiset(q)
  {
    NamesSorted(q);
    var s := SortByName(q);
    SamePoints(q, s);
    if |q| > WAYPOINTS_PER_BLOCK {
      DegenerateIsCoincident(q);
    }
    assert Points(Split(q)) == s;
    assert QuarteredAt(NoBlock, NoBlock, NoBlock, NoBlock, 0.0, 0.0);
  }

  lemma PointsOfInner(t: QTree)
    requires t.Block? && t.q == []
    ensures multiset(Points(t)) == multiset(Points(t.topLeft)) + multiset(Points(t.topRight))
      + multiset(Points(t.bottomLeft)) + multiset(Points(t.bottomRight))
  {
  }

  lemma {:induction false} QuadrantIsOrganised(q: seq<Waypt>, south: bool, west: bool)
    requires AllSane(q) && !IsLeaf(q)
    ensures var t := SplitQuadrant(q, south, west);
      && Organised(t) && Filled(t) && Within(t, q, south, west)
      && multiset(Points(t)) == multiset(Quadrant(q, Mean(q, true), Mean(q, false), south, west))
    decreases |q|, 0
  {
    SplitShrinks(q, south, west);
    var p := Quadrant(q, Mean(q, true), Mean(q, false), south, west);
    if p != [] {
      SplitIsOrganised(p);
      SamePoints(p, Points(Split(p)));
    }
  }
}
