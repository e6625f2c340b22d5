// The size pass and the write pass over the linked blocks.
module GpiPasses {
  import opened Bytes
  import opened CString
  import opened GpiModel
  import opened GpiFormat
  import opened GpiBlocks
  import opened OutStream
  import opened Sequences
  import opened Wrappers

  // ---------------------------------------------------------------- the size pass

  // One waypoint: it is annotated in place, and the bytes it will take are added up on the way.
  method ComputeWaypoint(w: Waypt, o: Options) returns (r: Waypt, size: int)
    ensures r == Annotated(o, w) && size == PoiSize(o, r)
  {
    size := 12 + 19 + |w.name|;
    if !o.hideBitmap {
      size := size + 10;
    }
    var e := NO_EXTRA;
    if o.alerts {
      r, e := ComputeAlert(w, o);
      if e.alerts != 0 {
        size := size + 20;
      }
    } else {
      r := w;
    }
    e := ComputeAddress(r, o, e);
    r := r.(extra := e);
    assert r == Annotated(o, w);
    if e.phoneNr.Some? {
      size := size + 12 + 4 + |e.phoneNr.value|;
    }
    if e.sz != 0 {
      size := size + e.sz + 12;
    }
    var str := w.description;
    if str.None? {
      str := w.notes;
    }
    if str.Some? {
      size := size + 12 + 4 + |str.value|;
    }
  }

  method ComputeAlert(w: Waypt, o: Options) returns (r: Waypt, e: Extra)
    requires o.alerts
    ensures r == w.(speed := AlertSpeed(o, w), proximity := AlertProximity(o, w))
    ensures e == NO_EXTRA.(alerts := if HasAlert(o, w) then 1 else 0)
  {
    r, e := w, NO_EXTRA;
    if HasAt(w.name) {
      if w.nameSpeed > 0.0 {
        r := r.(speed := Some(w.nameSpeed));
      }
    } else if o.defSpeed.Some? && r.speed.None? {
      r := r.(speed := o.defSpeed);
    }
    if o.defProximity.Some? && r.proximity.None? {
      r := r.(proximity := o.defProximity);
    }
    if Positive(r.speed) || Positive(r.proximity) {
      e := e.(alerts := e.alerts + 1);
    }
  }

  // The address part: mask and size grow field by field.
  method ComputeAddress(w: Waypt, o: Options, start: Extra) returns (e: Extra)
    requires start == NO_EXTRA.(alerts := start.alerts)
    ensures e == ExtraOf(o, w).(alerts := start.alerts)
  {
    e := start;
    var str := OptionAddress(o, w);
    if str.Some? {
      e := e.(addr := str, mask := e.mask + ADDR_ADDR, sz := e.sz + 8 + |str.value|);
    }
    if w.gmsd.Some? {
      var f := w.gmsd.value;
      if e.mask == 0 && f.addr.Some? {
        e := e.(addr := f.addr, mask := e.mask + ADDR_ADDR, sz := e.sz + 8 + |f.addr.value|);
      }
      e := e.(city := f.city, country := f.country, state := f.state, postalCode := f.postalCode, phoneNr := f.phoneNr);
      e := AddStrings(f, e);
    }
    if e.mask != 0 {
      e := e.(sz := e.sz + 2);
    }
  }

  method AddStrings(f: Gmsd, start: Extra) returns (e: Extra)
    ensures e == start.(
      mask := start.mask + Flag(f.city, ADDR_CITY) + Flag(f.country, ADDR_COUNTRY) + Flag(f.state, ADDR_STATE) + Flag(f.postalCode, ADDR_POSTAL_CODE),
      sz := start.sz + LongSize(f.city) + LongSize(f.country) + LongSize(f.state) + ShortSize(f.postalCode))
  {
    e := start;
    if f.city.Some? {
      e := e.(mask := e.mask + ADDR_CITY, sz := e.sz + 8 + |f.city.value|);
    }
    if f.country.Some? {
      e := e.(mask := e.mask + ADDR_COUNTRY, sz := e.sz + 8 + |f.country.value|);
    }
    if f.state.Some? {
      e := e.(mask := e.mask + ADDR_STATE, sz := e.sz + 8 + |f.state.value|);
    }
    if f.postalCode.Some? {
      e := e.(mask := e.mask + ADDR_POSTAL_CODE, sz := e.sz + 2 + |f.postalCode.value|);
    }
  }

  // The queue of one block.
  method ComputeQueue(d: WriterData, o: Options) returns (res: int)
    modifies d`q, d`alert
    ensures d.q == AnnotatedAll(o, old(d.q)) && res == 23 + PoiSizes(o, d.q)
    ensures d.alert == if AnyAlert(d.q) then 1 else old(d.alert)
  {
    res := 23;
    var q := d.q;
    var done: seq<Waypt>, i := [], 0;
    while i < |q|
      invariant 0 <= i <= |q| && done == AnnotatedAll(o, q[..i])
      invariant res == 23 + PoiSizes(o, done)
      invariant d.alert == if AnyAlert(done) then 1 else old(d.alert)
    {
      var w, size := ComputeWaypoint(q[i], o);
      assert q[..i + 1][..i] == q[..i];
      assert (done + [w])[..|done|] == done;
      if w.extra.alerts != 0 {
        d.alert := 1;
      }
      res := res + size;
      done := done + [w];
      i := i + 1;
    }
    assert q[..i] == q;
    d.q := done;
  }

  ghost predicate Holds(k: WriterData?, s: Shape, nodes: set<WriterData>)
    reads Nodes(s)
  {
    Root(s) == k && Valid(s) && nodes == Nodes(s)
  }

  // The same blocks, now holding another tree.
  ghost predicate Becomes(k: WriterData?, r: Shape, nodes: set<WriterData>, t: QTree)
    reads Nodes(r)
  {
    Root(r) == k && Valid(r) && Nodes(r) == nodes && Value(r) == t
  }

  // The nodes of a block and of its four quadrants.
  datatype Split = Split(tl: set<WriterData>, tr: set<WriterData>, bl: set<WriterData>, br: set<WriterData>)

  ghost predicate Partition(d: WriterData, nodes: set<WriterData>, p: Split) {
    && nodes == {d} + p.tl + p.tr + p.bl + p.br && d !in p.tl && d !in p.tr && d !in p.bl && d !in p.br
    && p.tl !! p.tr && p.tl !! p.bl && p.tl !! p.br && p.tr !! p.bl && p.tr !! p.br && p.bl !! p.br
  }

  ghost predicate FourHold(d: WriterData, s: Shape, p: Split)
    requires s.Cell?
    reads d`topLeft, d`topRight, d`bottomLeft, d`bottomRight
    reads Nodes(s.topLeft), Nodes(s.topRight), Nodes(s.bottomLeft), Nodes(s.bottomRight)
  {
    && Holds(d.topLeft, s.topLeft, p.tl) && Holds(d.topRight, s.topRight, p.tr)
    && Holds(d.bottomLeft, s.bottomLeft, p.bl) && Holds(d.bottomRight, s.bottomRight, p.br)
  }

  ghost function Parts(d: WriterData, s: Shape, nodes: set<WriterData>): (p: Split)
    requires s.Cell? && Holds(d, s, nodes)
    reads Nodes(s)
    ensures p == Split(Nodes(s.topLeft), Nodes(s.topRight), Nodes(s.bottomLeft), Nodes(s.bottomRight))
    ensures Partition(d, nodes, p) && FourHold(d, s, p)
  {
    Split(nodes * Nodes(s.topLeft), nodes * Nodes(s.topRight), nodes * Nodes(s.bottomLeft), nodes * Nodes(s.bottomRight))
  }

  ghost predicate FourBecome(d: WriterData, p: Split, a: Shape, b: Shape, c: Shape, e: Shape, t: QTree)
    requires t.Block?
    reads d`topLeft, d`topRight, d`bottomLeft, d`bottomRight, Nodes(a), Nodes(b), Nodes(c), Nodes(e)
  {
    && Becomes(d.topLeft, a, p.tl, t.topLeft) && Becomes(d.topRight, b, p.tr, t.topRight)
    && Becomes(d.bottomLeft, c, p.bl, t.bottomLeft) && Becomes(d.bottomRight, e, p.br, t.bottomRight)
  }

  // The block's own fields are those of the tree's root, its size aside.
  ghost predicate OwnFields(d: WriterData, t: QTree)
    requires t.Block?
    reads d`q, d`ct, d`alert, d`bds
  {
    d.q == t.q && d.ct == t.ct && d.alert == t.alert && d.bds == t.bds
  }

  lemma Reassembled(d: WriterData, nodes: set<WriterData>, p: Split, a: Shape, b: Shape, c: Shape, e: Shape, t: QTree)
    requires t.Block? && Partition(d, nodes, p) && FourBecome(d, p, a, b, c, e, t) && OwnFields(d, t) && d.sz == t.sz
    ensures Becomes(d, Cell(d, d.q, d.ct, d.sz, d.alert, d.bds, a, b, c, e), nodes, t)
  {
  }

  ghost function Depth(s: Shape): nat {
    match s
    case Nil => 0
    case Cell(_, _, _, _, _, _, a, b, c, e) => 1 + Max(Max(Depth(a), Depth(b)), Max(Depth(c), Depth(e)))
  }

  function Max(a: nat, b: nat): nat {
    if a < b then b else a
  }

  /** The size pass: annotates every waypoint and stores in every block the size the format asks for. */
  method ComputeSize(d: WriterData, o: Options, ghost s: Shape, ghost nodes: set<WriterData>) returns (res: int, ghost r: Shape)
    requires Holds(d, s, nodes)
    modifies nodes
    ensures Becomes(d, r, nodes, Sized(o, Value(s))) && res == Extent(Sized(o, Value(s)))
    decreases Depth(s), 4
  {
    ghost var p, t := Parts(d, s, nodes), Sized(o, Value(s));
    ghost var a, b, c, e;
    res, a, b, c, e := ComputeInside(d, o, s, nodes, p, t);
    d.sz := res;
    Reassembled(d, nodes, p, a, b, c, e, t);
    r := Cell(d, d.q, d.ct, d.sz, d.alert, d.bds, a, b, c, e);
    res := res + 12;
  }

  method ComputeInside(d: WriterData, o: Options, ghost s: Shape, ghost nodes: set<WriterData>, ghost p: Split, ghost t: QTree)
    returns (res: int, ghost a: Shape, ghost b: Shape, ghost c: Shape, ghost e: Shape)
    requires s.Cell? && t == Sized(o, Value(s)) && Partition(d, nodes, p) && FourHold(d, s, p)
    requires d.q == s.q && d.ct == s.ct && d.alert == s.alert && d.bds == s.bds
    modifies d`q, d`alert, p.tl, p.tr, p.bl, p.br
    ensures FourBecome(d, p, a, b, c, e, t) && OwnFields(d, t) && res == t.sz
    decreases Depth(s), 3
  {
    res := ComputeQueue(d, o);
    RootOfSized(o, Value(s), t);
    var more;
    more, a, b, c, e := ComputeQuadrants(d, o, s, nodes, p, t);
    res := res + more;
  }

  lemma RootOfSized(o: Options, v: QTree, t: QTree)
    requires v.Block? && t == Sized(o, v)
    ensures t.Block? && t.q == AnnotatedAll(o, v.q) && t.ct == v.ct && t.bds == v.bds && t.alert == if AnyAlert(t.q) then 1 else v.alert
    ensures t.sz == 23 + PoiSizes(o, t.q) + (Extent(t.topLeft) + Extent(t.topRight) + Extent(t.bottomLeft) + Extent(t.bottomRight))
  {
  }

  method ComputeQuadrants(d: WriterData, o: Options, ghost s: Shape, ghost nodes: set<WriterData>, ghost p: Split, ghost t: QTree)
    returns (res: int, ghost a: Shape, ghost b: Shape, ghost c: Shape, ghost e: Shape)
    requires s.Cell? && t == Sized(o, Value(s)) && Partition(d, nodes, p) && FourHold(d, s, p)
    modifies p.tl, p.tr, p.bl, p.br
    ensures FourBecome(d, p, a, b, c, e, t)
    ensures res == Extent(t.topLeft) + Extent(t.topRight) + Extent(t.bottomLeft) + Extent(t.bottomRight)
    decreases Depth(s), 2
  {
    var north, south;
    north, a, b := ComputePair(d.topLeft, d.topRight, o, s.topLeft, s.topRight, p.tl, p.tr);
    south, c, e := ComputePair(d.bottomLeft, d.bottomRight, o, s.bottomLeft, s.bottomRight, p.bl, p.br);
    res := north + south;
  }

  method ComputePair(k: WriterData?, l: WriterData?, o: Options, ghost s: Shape, ghost t: Shape, ghost m: set<WriterData>, ghost n: set<WriterData>)
    returns (res: int, ghost a: Shape, ghost b: Shape)
    requires Holds(k, s, m) && Holds(l, t, n) && m !! n
    modifies m, n
    ensures Becomes(k, a, m, Sized(o, Value(s))) && Becomes(l, b, n, Sized(o, Value(t)))
    ensures res == Extent(Sized(o, Value(s))) + Extent(Sized(o, Value(t)))
    decreases Max(Depth(s), Depth(t)), 6
  {
    var x, y;
    x, a := ComputeIfAny(k, o, s, m);
    y, b := ComputeIfAny(l, o, t, n);
    res := x + y;
  }

  method ComputeIfAny(k: WriterData?, o: Options, ghost s: Shape, ghost nodes: set<WriterData>) returns (res: int, ghost r: Shape)
    requires Holds(k, s, nodes)
    modifies nodes
    ensures Becomes(k, r, nodes, Sized(o, Value(s))) && res == Extent(Sized(o, Value(s)))
    decreases Depth(s), 5
  {
    if k == null {
      res, r := 0, Nil;
    } else {
      res, r := ComputeSize(k, o, s, nodes);
    }
  }

  // ---------------------------------------------------------------- the write pass

  method PutLong(out: Sink, s: CStr)
    modifies out
    ensures out.data == old(out.data) + LongString(s)
  {
    out.Put(Le32(|s| + 4) + ['E' as int, 'N' as int]);
    PutShort(out, s);
    assert LongString(s) == Le32(|s| + 4) + ['E' as int, 'N' as int] + ShortString(s);
  }

  method PutShort(out: Sink, s: CStr)
    modifies out
    ensures out.data == old(out.data) + ShortString(s)
  {
    out.Put(Le16(|s|));
    out.Put(Text(s));
  }

  method WriteBasics(w: Waypt, o: Options, out: Sink)
    modifies out
    ensures out.data == old(out.data) + Basics(o, w)
  {
    ghost var start := out.data;
    out.Put(Le32(DegToSemi(w.lat)));
    out.Put(Le32(DegToSemi(w.lon)));
    out.Put(Le16(1));
    out.Put([if o.alerts then 1 else 0]);
    PutLong(out, w.name);
    AssociateFive(start, Le32(DegToSemi(w.lat)), Le32(DegToSemi(w.lon)), Le16(1), [if o.alerts then 1 else 0], LongString(w.name));
  }

  lemma Header(s: seq<Byte>, a: seq<Byte>, b: seq<Byte>, c: seq<Byte>, d: seq<Byte>, e: seq<Byte>)
    ensures s + a + b + c + d + e == s + (a + b + c + (d + e))
  {
    AssociateFive(s, a, b, c, d, e);
    assert a + b + c + d + e == a + b + c + (d + e);
  }

  method WriteAlert(w: Waypt, out: Sink)
    modifies out
    ensures out.data == old(out.data) + AlertTag(w)
  {
    var flag := 0;
    ghost var start := out.data;
    out.Put(Le32(3));
    out.Put(Le32(12));
    var p, v := 0, 0;
    if Positive(w.proximity) {
      p, flag := Truncate(w.proximity.value), 4;
    }
    if Positive(w.speed) {
      v, flag := Truncate(w.speed.value * 100.0), 5;
    }
    out.Put(Le16(p) + Le16(v) + Le32(0x100100) + [1, 1, flag, 0x10]);
    assert AlertTag(w) == Le32(3) + Le32(12) + (Le16(p) + Le16(v) + Le32(0x100100) + [1, 1, flag, 0x10]);
  }

  method WriteAddress(e: Extra, out: Sink)
    requires HasBit(e.mask, ADDR_CITY) ==> e.city.Some?
    requires HasBit(e.mask, ADDR_COUNTRY) ==> e.country.Some?
    requires HasBit(e.mask, ADDR_STATE) ==> e.state.Some?
    requires HasBit(e.mask, ADDR_POSTAL_CODE) ==> e.postalCode.Some?
    requires HasBit(e.mask, ADDR_ADDR) ==> e.addr.Some?
    modifies out
    ensures out.data == old(out.data) + AddressTag(e)
  {
    ghost var start := out.data;
    out.Put(Le32(0x8000b));
    out.Put(Le32(e.sz));
    out.Put(Le32(2));
    out.Put(Le16(e.mask));
    WriteAddressFields(e, out);
    Header(start, Le32(0x8000b), Le32(e.sz), Le32(2), Le16(e.mask), AddressFields(e));
  }

  method WriteAddressFields(e: Extra, out: Sink)
    requires HasBit(e.mask, ADDR_CITY) ==> e.city.Some?
    requires HasBit(e.mask, ADDR_COUNTRY) ==> e.country.Some?
    requires HasBit(e.mask, ADDR_STATE) ==> e.state.Some?
    requires HasBit(e.mask, ADDR_POSTAL_CODE) ==> e.postalCode.Some?
    requires HasBit(e.mask, ADDR_ADDR) ==> e.addr.Some?
    modifies out
    ensures out.data == old(out.data) + AddressFields(e)
  {
    ghost var start := out.data;
    if HasBit(e.mask, ADDR_CITY) {
      PutLong(out, e.city.value);
    }
    assert out.data == start + LongIf(e.mask, ADDR_CITY, e.city);
    if HasBit(e.mask, ADDR_COUNTRY) {
      PutLong(out, e.country.value);
    }
    assert out.data == start + LongIf(e.mask, ADDR_CITY, e.city) + LongIf(e.mask, ADDR_COUNTRY, e.country);
    WriteLateFields(e, out);
    AssociateFive(start, LongIf(e.mask, ADDR_CITY, e.city), LongIf(e.mask, ADDR_COUNTRY, e.country), LongIf(e.mask, ADDR_STATE, e.state),
          ShortIf(e.mask, ADDR_POSTAL_CODE, e.postalCode), LongIf(e.mask, ADDR_ADDR, e.addr));
  }

  method WriteLateFields(e: Extra, out: Sink)
    requires HasBit(e.mask, ADDR_STATE) ==> e.state.Some?
    requires HasBit(e.mask, ADDR_POSTAL_CODE) ==> e.postalCode.Some?
    requires HasBit(e.mask, ADDR_ADDR) ==> e.addr.Some?
    modifies out
    ensures out.data == old(out.data) + LongIf(e.mask, ADDR_STATE, e.state)
      + ShortIf(e.mask, ADDR_POSTAL_CODE, e.postalCode) + LongIf(e.mask, ADDR_ADDR, e.addr)
  {
    ghost var start := out.data;
    if HasBit(e.mask, ADDR_STATE) {
      PutLong(out, e.state.value);
    }
    assert out.data == start + LongIf(e.mask, ADDR_STATE, e.state);
    if HasBit(e.mask, ADDR_POSTAL_CODE) {
      PutShort(out, e.postalCode.value);
    }
    assert out.data == start + LongIf(e.mask, ADDR_STATE, e.state) + ShortIf(e.mask, ADDR_POSTAL_CODE, e.postalCode);
    if HasBit(e.mask, ADDR_ADDR) {
      PutLong(out, e.addr.value);
    }
  }

  method WritePhone(s: CStr, out: Sink)
    modifies out
    ensures out.data == old(out.data) + PhoneTag(s)
  {
    ghost var start := out.data;
    out.Put(Le32(0x8000c));
    out.Put(Le32(|s| + 2 + 2));
    out.Put(Le32(2));
    out.Put(Le16(1));
    PutShort(out, s);
    Header(start, Le32(0x8000c), Le32(|s| + 2 + 2), Le32(2), Le16(1), ShortString(s));
  }

  method WriteOptionals(w: Waypt, o: Options, out: Sink)
    requires w.extra == ExtraOf(o, w)
    modifies out
    ensures out.data == old(out.data) + Optionals(o, w)
  {
    ghost var start := out.data;
    if w.extra.alerts != 0 {
      WriteAlert(w, out);
    }
    assert out.data == start + AlertIf(w);
    if !o.hideBitmap {
      out.Put(Le32(4) + Le32(2) + Le16(0));
    }
    assert out.data == start + AlertIf(w) + BitmapIf(o);
    WriteLate(w, o, out);
    AssociateFive(start, AlertIf(w), BitmapIf(o), CommentIf(w), AddressIf(w), PhoneIf(w));
  }

  method WriteLate(w: Waypt, o: Options, out: Sink)
    requires w.extra == ExtraOf(o, w)
    modifies out
    ensures out.data == old(out.data) + CommentIf(w) + AddressIf(w) + PhoneIf(w)
  {
    ghost var start := out.data;
    var str := w.description;
    if str.None? {
      str := w.notes;
    }
    if str.Some? {
      out.Put(Le32(0xa) + Le32(|str.value| + 8));
      PutLong(out, str.value);
    }
    assert out.data == start + CommentIf(w);
    if w.extra.sz != 0 {
      MaskBits(Address(o, w), Fields(w));
      WriteAddress(w.extra, out);
    }
    assert out.data == start + CommentIf(w) + AddressIf(w);
    if w.extra.phoneNr.Some? {
      WritePhone(w.extra.phoneNr.value, out);
    }
  }

  // One waypoint's record, its sizes worked out once more.
  method WriteWaypoint(w: Waypt, o: Options, out: Sink)
    requires w.extra == ExtraOf(o, w)
    modifies out
    ensures out.data == old(out.data) + WritePoi(o, w)
  {
    ghost var start := out.data;
    var s1 := 19 + |w.name|;
    var s0 := ComputeFull(w, o, s1);
    out.Put(Le32(0x80002));
    out.Put(Le32(s0));
    out.Put(Le32(s1));
    WriteBasics(w, o, out);
    WriteOptionals(w, o, out);
    Header(start, Le32(0x80002), Le32(s0), Le32(s1), Basics(o, w), Optionals(o, w));
  }

  method ComputeFull(w: Waypt, o: Options, s1: int) returns (s0: int)
    requires s1 == BasicSize(w)
    ensures s0 == FullSize(o, w)
  {
    s0 := s1;
    if !o.hideBitmap {
      s0 := s0 + 10;
    }
    var str := w.description;
    if str.None? {
      str := w.notes;
    }
    if str.Some? {
      s0 := s0 + 12 + 4 + |str.value|;
    }
    if w.extra.sz != 0 {
      s0 := s0 + 12 + w.extra.sz;
    }
    if w.extra.phoneNr.Some? {
      s0 := s0 + 12 + 4 + |w.extra.phoneNr.value|;
    }
    if w.extra.alerts != 0 {
      s0 := s0 + 20;
    }
  }

  lemma OneMorePoi(o: Options, done: seq<Waypt>, w: Waypt)
    ensures WritePois(o, done + [w]) == WritePois(o, done) + WritePoi(o, w)
  {
    assert (done + [w])[..|done|] == done;
  }

  // Writes one more waypoint behind those written since `start`.
  method WriteNext(w: Waypt, o: Options, out: Sink, ghost start: seq<Byte>, ghost done: seq<Waypt>)
    requires w.extra == ExtraOf(o, w) && out.data == start + WritePois(o, done)
    modifies out
    ensures out.data == start + WritePois(o, done + [w])
  {
    WriteWaypoint(w, o, out);
    Associate(start, WritePois(o, done), WritePoi(o, w));
    OneMorePoi(o, done, w);
  }

  lemma AnnotatedAt(o: Options, q: seq<Waypt>, i: nat)
    requires i < |q| && AllAnnotated(o, q)
    ensures q[i].extra == ExtraOf(o, q[i]) && q[..i + 1] == q[..i] + [q[i]]
  {
    assert q[i] in q;
  }

  lemma Whole(q: seq<Waypt>, done: seq<Waypt>)
    requires done == q[..|q|]
    ensures done == q
  {
  }

  method WriteQueue(q: seq<Waypt>, o: Options, out: Sink)
    requires AllAnnotated(o, q)
    modifies out
    ensures out.data == old(out.data) + WritePois(o, q)
  {
    ghost var start, done := out.data, [];
    var i := 0;
    while i < |q|
      invariant 0 <= i <= |q| && done == q[..i]
      invariant out.data == start + WritePois(o, done)
    {
      AnnotatedAt(o, q, i);
      WriteNext(q[i], o, out, start, done);
      done := done + [q[i]];
      i := i + 1;
    }
    Whole(q, done);
  }

  ghost predicate TreeAnnotated(o: Options, t: QTree) {
    t.Block? ==>
      && AllAnnotated(o, t.q) && TreeAnnotated(o, t.topLeft) && TreeAnnotated(o, t.topRight)
      && TreeAnnotated(o, t.bottomLeft) && TreeAnnotated(o, t.bottomRight)
  }

  lemma {:induction false} SizedIsAnnotated(o: Options, t: QTree)
    ensures TreeAnnotated(o, Sized(o, t))
  {
    if t.Block? {
      AllAreAnnotated(o, t.q);
      SizedIsAnnotated(o, t.topLeft);
      SizedIsAnnotated(o, t.topRight);
      SizedIsAnnotated(o, t.bottomLeft);
      SizedIsAnnotated(o, t.bottomRight);
    }
  }

  /** The write pass: a block's header, its waypoints, then the quadrants, from the fields the size pass left. */
  method Write(d: WriterData, o: Options, out: Sink, ghost s: Shape, ghost nodes: set<WriterData>)
    requires Holds(d, s, nodes) && TreeAnnotated(o, Value(s))
    modifies out
    ensures out.data == old(out.data) + WriteBlock(o, Value(s))
    decreases Depth(s), 1
  {
    ghost var start, t, p := out.data, Value(s), Parts(d, s, nodes);
    out.Put(Le32(0x80008));
    out.Put(Le32(d.sz));
    out.Put(Le32(23));
    WriteHead(d.bds, d.alert, out);
    WriteContent(d, o, out, s, t, p);
    Header(start, Le32(0x80008), Le32(t.sz), Le32(23), BlockHead(t.bds, t.alert), WriteInside(o, t));
  }

  method WriteHead(bds: Bounds, alert: int, out: Sink)
    modifies out
    ensures out.data == old(out.data) + BlockHead(bds, alert)
  {
    ghost var start := out.data;
    out.Put(Le32(DegToSemi(bds.maxLat)));
    out.Put(Le32(DegToSemi(bds.maxLon)));
    out.Put(Le32(DegToSemi(bds.minLat)));
    out.Put(Le32(DegToSemi(bds.minLon)));
    out.Put(Le32(0) + Le16(1) + [alert % 256]);
    AssociateFive(start, Le32(DegToSemi(bds.maxLat)), Le32(DegToSemi(bds.maxLon)), Le32(DegToSemi(bds.minLat)), Le32(DegToSemi(bds.minLon)),
          Le32(0) + Le16(1) + [alert % 256]);
    assert BlockHead(bds, alert) == Le32(DegToSemi(bds.maxLat)) + Le32(DegToSemi(bds.maxLon)) + Le32(DegToSemi(bds.minLat))
                                    + Le32(DegToSemi(bds.minLon)) + (Le32(0) + Le16(1) + [alert % 256]);
  }

  method WriteContent(d: WriterData, o: Options, out: Sink, ghost s: Shape, ghost t: QTree, ghost p: Split)
    requires s.Cell? && t == Value(s) && FourHold(d, s, p) && d.q == t.q && TreeAnnotated(o, t)
    modifies out
    ensures out.data == old(out.data) + WriteInside(o, t)
    decreases Depth(s), 0
  {
    ghost var start, pois := out.data, WritePois(o, t.q);
    ghost var a, b, c, e := WriteBlock(o, t.topLeft), WriteBlock(o, t.topRight), WriteBlock(o, t.bottomLeft), WriteBlock(o, t.bottomRight);
    WriteQueue(d.q, o, out);
    WritePair(d.topLeft, d.topRight, o, out, s.topLeft, s.topRight, p.tl, p.tr, a, b);
    WritePair(d.bottomLeft, d.bottomRight, o, out, s.bottomLeft, s.bottomRight, p.bl, p.br, c, e);
    AssociateFive(start, pois, a, b, c, e);
  }

  method WritePair(k: WriterData?, l: WriterData?, o: Options, out: Sink, ghost s: Shape, ghost t: Shape,
      ghost m: set<WriterData>, ghost n: set<WriterData>, ghost a: seq<Byte>, ghost b: seq<Byte>)
    requires Holds(k, s, m) && TreeAnnotated(o, Value(s)) && a == WriteBlock(o, Value(s))
    requires Holds(l, t, n) && TreeAnnotated(o, Value(t)) && b == WriteBlock(o, Value(t))
    modifies out
    ensures out.data == old(out.data) + a + b
    decreases Max(Depth(s), Depth(t)), 3
  {
    WriteIfAny(k, o, out, s, m, a);
    WriteIfAny(l, o, out, t, n, b);
  }

  method WriteIfAny(k: WriterData?, o: Options, out: Sink, ghost s: Shape, ghost nodes: set<WriterData>, ghost bytes: seq<Byte>)
    requires Holds(k, s, nodes) && TreeAnnotated(o, Value(s)) && bytes == WriteBlock(o, Value(s))
    modifies out
    ensures out.data == old(out.data) + bytes
    decreases Depth(s), 2
  {
    if k != null {
      Write(k, o, out, s, nodes);
    }
  }

  /** The whole category: both passes over the blocks, the group header between them. */
  method WriteGroup(d: WriterData, o: Options, image: seq<Byte>, out: Sink, ghost s: Shape, ghost nodes: set<WriterData>) returns (ghost r: Shape)
    requires Holds(d, s, nodes)
    modifies out, nodes
    ensures Becomes(d, r, nodes, Sized(o, Value(s)))
    ensures out.data == old(out.data) + WriteCategory(o, Sized(o, Value(s)), image)
  {
    var sz;
    sz, r := ComputeSize(d, o, s, nodes);
    ghost var t := Sized(o, Value(s));
    SizedIsAnnotated(o, Value(s));
    sz := sz + 8;
    sz := sz + |o.category|;
    WriteSizes(sz, d, o, image, out, r, nodes, t);
  }

  method WriteSizes(sz: int, d: WriterData, o: Options, image: seq<Byte>, out: Sink, ghost s: Shape, ghost nodes: set<WriterData>, ghost t: QTree)
    requires Holds(d, s, nodes) && t == Value(s) && TreeAnnotated(o, t) && sz == CategorySize(o, t)
    modifies out
    ensures out.data == old(out.data) + WriteCategory(o, t, image)
  {
    ghost var start := out.data;
    out.Put(Le32(0x80009));
    var outer := sz;
    if !o.hideBitmap && |image| != 0 {
      outer := sz + |image| + 8;
    }
    out.Put(Le32(outer));
    out.Put(Le32(sz));
    WriteBody(d, o, image, out, s, nodes, t);
    Header(start, Le32(0x80009), Le32(outer), Le32(sz), CategoryBody(o, t), ImageTag(o, image));
  }

  method WriteBody(d: WriterData, o: Options, image: seq<Byte>, out: Sink, ghost s: Shape, ghost nodes: set<WriterData>, ghost t: QTree)
    requires Holds(d, s, nodes) && t == Value(s) && TreeAnnotated(o, t)
    modifies out
    ensures out.data == old(out.data) + CategoryBody(o, t) + ImageTag(o, image)
  {
    ghost var start := out.data;
    PutLong(out, o.category);
    Write(d, o, out, s, nodes);
    Associate(start, LongString(o.category), WriteBlock(o, t));
    if !o.hideBitmap && |image| != 0 {
      out.Put(Le32(5) + Le32(|image|));
      out.Put(image);
    }
  }
}
