// The two passes of the GPI writer, as functions: the size pass annotates waypoints and blocks, the
// write pass turns annotated blocks into bytes. Every size field equals what is written under it.
module GpiFormat {
  import opened Bytes
  import opened CString
  import opened GpiModel
  import opened Wrappers

  // ---------------------------------------------------------------- the size pass on one waypoint

  const AT: CChar := '@' as int

  predicate HasAt(s: CStr) {
    AT in s
  }

  // The speed and proximity a waypoint has once alerts are dealt with.
  function AlertSpeed(o: Options, w: Waypt): Option<real> {
    if !o.alerts then w.speed
    else if HasAt(w.name) then (if w.nameSpeed > 0.0 then Some(w.nameSpeed) else w.speed)
    else if w.speed.None? then o.defSpeed else w.speed
  }

  function AlertProximity(o: Options, w: Waypt): Option<real> {
    if o.alerts && w.proximity.None? then o.defProximity else w.proximity
  }

  predicate Positive(x: Option<real>) {
    x.Some? && x.value > 0.0
  }

  predicate HasAlert(o: Options, w: Waypt) {
    o.alerts && (Positive(AlertSpeed(o, w)) || Positive(AlertProximity(o, w)))
  }

  function NonEmpty(s: Option<CStr>): Option<CStr> {
    if s.Some? && s.value == [] then None else s
  }

  // The address line an option asks for.
  function OptionAddress(o: Options, w: Waypt): Option<CStr> {
    if o.descr then NonEmpty(w.description)
    else if o.notes then NonEmpty(w.notes)
    else if o.pos then Some(w.posText)
    else None
  }

  const NO_GMSD := Gmsd(None, None, None, None, None, None)

  function Fields(w: Waypt): Gmsd {
    if w.gmsd.Some? then w.gmsd.value else NO_GMSD
  }

  function Address(o: Options, w: Waypt): Option<CStr> {
    if OptionAddress(o, w).Some? then OptionAddress(o, w) else Fields(w).addr
  }

  function OwnAddress(w: Waypt): Option<CStr> {
    if w.gmsd == None then None else w.gmsd.value.addr
  }

  /** Which text goes where: the description is the description or else the notes; the address line is the
      description, the notes or the position, the first of these that is asked for if it is not empty, or else the
      waypoint's own. */
  lemma TextsAre(o: Options, w: Waypt)
    ensures Comment(w) == if w.description != None then w.description else w.notes
    ensures o.descr && w.description != None && w.description != Some([]) ==> Address(o, w) == w.description
    ensures !o.descr && o.notes && w.notes != None && w.notes != Some([]) ==> Address(o, w) == w.notes
    ensures !o.descr && !o.notes && o.pos ==> Address(o, w) == Some(w.posText)
    ensures o.descr && (w.description == None || w.description == Some([])) ==> Address(o, w) == OwnAddress(w)
    ensures !o.descr && o.notes && (w.notes == None || w.notes == Some([])) ==> Address(o, w) == OwnAddress(w)
    ensures !o.descr && !o.notes && !o.pos ==> Address(o, w) == OwnAddress(w)
  {
  }

  /** Where an alert comes from: a speed behind an '@' in the name counts first, then the waypoint's own, and a default
      if the name has no '@'; a proximity is the waypoint's own or the default. Without alerts nothing is added. */
  lemma AlertsAre(o: Options, w: Waypt)
    ensures !o.alerts ==> AlertSpeed(o, w) == w.speed && AlertProximity(o, w) == w.proximity && !HasAlert(o, w)
    ensures o.alerts && '@' as int in w.name && w.nameSpeed > 0.0 ==> AlertSpeed(o, w) == Some(w.nameSpeed)
    ensures o.alerts && w.speed != None && !('@' as int in w.name && w.nameSpeed > 0.0) ==> AlertSpeed(o, w) == w.speed
    ensures o.alerts && w.speed == None ==> '@' as int !in w.name ==> AlertSpeed(o, w) == o.defSpeed
    ensures o.alerts ==> AlertProximity(o, w) == if w.proximity != None then w.proximity else o.defProximity
    ensures o.alerts ==> (HasAlert(o, w) <==> exists x :: x > 0.0 && (AlertSpeed(o, w) == Some(x) || AlertProximity(o, w) == Some(x)))
  {
    var s, p := AlertSpeed(o, w), AlertProximity(o, w);
    if HasAlert(o, w) {
      var x := if Positive(s) then s.value else p.value;
      assert s == Some(x) || p == Some(x);
    }
  }

  const ADDR_CITY := 1
  const ADDR_COUNTRY := 2
  const ADDR_STATE := 4
  const ADDR_POSTAL_CODE := 8
  const ADDR_ADDR := 16

  function Flag(s: Option<CStr>, bit: nat): nat {
    if s.Some? then bit else 0
  }

  predicate HasBit(mask: nat, bit: nat)
    requires bit > 0
  {
    mask / bit % 2 == 1
  }

  function LongSize(s: Option<CStr>): nat {
    if s.Some? then 8 + |s.value| else 0
  }

  function ShortSize(s: Option<CStr>): nat {
    if s.Some? then 2 + |s.value| else 0
  }

  function AddressMask(addr: Option<CStr>, f: Gmsd): nat {
    Flag(addr, ADDR_ADDR) + Flag(f.city, ADDR_CITY) + Flag(f.country, ADDR_COUNTRY)
    + Flag(f.state, ADDR_STATE) + Flag(f.postalCode, ADDR_POSTAL_CODE)
  }

  function AddressSize(addr: Option<CStr>, f: Gmsd): nat {
    LongSize(addr) + LongSize(f.city) + LongSize(f.country) + LongSize(f.state) + ShortSize(f.postalCode)
    + if AddressMask(addr, f) != 0 then 2 else 0
  }

  function ExtraOf(o: Options, w: Waypt): Extra {
    var addr, f := Address(o, w), Fields(w);
    Extra(AddressSize(addr, f), if HasAlert(o, w) then 1 else 0, AddressMask(addr, f),
          addr, f.city, f.country, f.phoneNr, f.postalCode, f.state)
  }

  function Annotated(o: Options, w: Waypt): Waypt {
    w.(speed := AlertSpeed(o, w), proximity := AlertProximity(o, w), extra := ExtraOf(o, w))
  }

  // The text both passes take as the description.
  function Comment(w: Waypt): Option<CStr> {
    if w.description.Some? then w.description else w.notes
  }

  function CommentSize(w: Waypt): nat {
    if Comment(w).Some? then 12 + 4 + |Comment(w).value| else 0
  }

  // What the size pass adds for one waypoint, given what it left in `extra`.
  function PoiSize(o: Options, w: Waypt): nat {
    12 + 19 + |w.name| + (if o.hideBitmap then 0 else 10) + (if w.extra.alerts != 0 then 20 else 0)
    + (if w.extra.phoneNr.Some? then 12 + 4 + |w.extra.phoneNr.value| else 0)
    + (if w.extra.sz != 0 then w.extra.sz + 12 else 0)
    + CommentSize(w)
  }

  // ---------------------------------------------------------------- the size pass on blocks

  function AnnotatedAll(o: Options, q: seq<Waypt>): (r: seq<Waypt>)
    ensures |r| == |q|
  {
    if q == [] then [] else AnnotatedAll(o, q[..|q| - 1]) + [Annotated(o, q[|q| - 1])]
  }

  function PoiSizes(o: Options, q: seq<Waypt>): nat {
    if q == [] then 0 else PoiSizes(o, q[..|q| - 1]) + PoiSize(o, q[|q| - 1])
  }

  predicate AnyAlert(q: seq<Waypt>) {
    q != [] && (AnyAlert(q[..|q| - 1]) || q[|q| - 1].extra.alerts != 0)
  }

  // What the size pass returns for a block: its header comes on top.
  function Extent(t: QTree): int {
    if t.Block? then t.sz + 12 else 0
  }

  function Sized(o: Options, t: QTree): (s: QTree)
    ensures s.Block? <==> t.Block?
  {
    match t
    case NoBlock => NoBlock
    case Block(q, ct, _, alert, bds, a, b, c, d) =>
      var q', a', b', c', d' := AnnotatedAll(o, q), Sized(o, a), Sized(o, b), Sized(o, c), Sized(o, d);
      Block(q', ct, 23 + PoiSizes(o, q') + Extent(a') + Extent(b') + Extent(c') + Extent(d'),
            if AnyAlert(q') then 1 else alert, bds, a', b', c', d')
  }

  // ---------------------------------------------------------------- the write pass on one waypoint

  function Text(s: CStr): (r: seq<Byte>)
    ensures |r| == |s| && forall i | 0 <= i < |s| :: r[i] == s[i]
  {
    seq(|s|, i requires 0 <= i < |s| => s[i])
  }

  function LongString(s: CStr): (r: seq<Byte>)
    ensures |r| == 8 + |s|
  {
    Le32(|s| + 4) + ['E' as int, 'N' as int] + Le16(|s|) + Text(s)
  }

  function ShortString(s: CStr): (r: seq<Byte>)
    ensures |r| == 2 + |s|
  {
    Le16(|s|) + Text(s)
  }

  function Basics(o: Options, w: Waypt): (r: seq<Byte>)
    ensures |r| == 19 + |w.name|
  {
    Le32(DegToSemi(w.lat)) + Le32(DegToSemi(w.lon)) + Le16(1) + [if o.alerts then 1 else 0] + LongString(w.name)
  }

  function AlertTag(w: Waypt): (r: seq<Byte>)
    ensures |r| == 20
  {
    var prox, speed := Positive(w.proximity), Positive(w.speed);
    var flag := if speed then 5 else if prox then 4 else 0;
    Le32(3) + Le32(12)
    + (Le16(if prox then Truncate(w.proximity.value) else 0)
       + Le16(if speed then Truncate(w.speed.value * 100.0) else 0)
       + Le32(0x100100) + [1, 1, flag, 0x10])
  }

  function BitmapTag(): (r: seq<Byte>)
    ensures |r| == 10
  {
    Le32(4) + Le32(2) + Le16(0)
  }

  function CommentTag(s: CStr): (r: seq<Byte>)
    ensures |r| == 16 + |s|
  {
    Le32(0xa) + Le32(|s| + 8) + LongString(s)
  }

  function LongIf(mask: nat, bit: nat, s: Option<CStr>): seq<Byte>
    requires bit > 0
  {
    if HasBit(mask, bit) && s.Some? then LongString(s.value) else []
  }

  function ShortIf(mask: nat, bit: nat, s: Option<CStr>): seq<Byte>
    requires bit > 0
  {
    if HasBit(mask, bit) && s.Some? then ShortString(s.value) else []
  }

  function AddressFields(e: Extra): seq<Byte> {
    LongIf(e.mask, ADDR_CITY, e.city) + LongIf(e.mask, ADDR_COUNTRY, e.country) + LongIf(e.mask, ADDR_STATE, e.state)
    + ShortIf(e.mask, ADDR_POSTAL_CODE, e.postalCode) + LongIf(e.mask, ADDR_ADDR, e.addr)
  }

  function AddressTag(e: Extra): seq<Byte> {
    Le32(0x8000b) + Le32(e.sz) + Le32(2) + (Le16(e.mask) + AddressFields(e))
  }

  function PhoneTag(s: CStr): (r: seq<Byte>)
    ensures |r| == 16 + |s|
  {
    Le32(0x8000c) + Le32(|s| + 2 + 2) + Le32(2) + (Le16(1) + ShortString(s))
  }

  function AlertIf(w: Waypt): seq<Byte> {
    if w.extra.alerts != 0 then AlertTag(w) else []
  }

  function BitmapIf(o: Options): seq<Byte> {
    if o.hideBitmap then [] else BitmapTag()
  }

  function CommentIf(w: Waypt): seq<Byte> {
    if Comment(w).Some? then CommentTag(Comment(w).value) else []
  }

  function AddressIf(w: Waypt): seq<Byte> {
    if w.extra.sz != 0 then AddressTag(w.extra) else []
  }

  function PhoneIf(w: Waypt): seq<Byte> {
    if w.extra.phoneNr.Some? then PhoneTag(w.extra.phoneNr.value) else []
  }

  // The optional records of a waypoint, in the order they are written.
  function Optionals(o: Options, w: Waypt): seq<Byte> {
    AlertIf(w) + BitmapIf(o) + CommentIf(w) + AddressIf(w) + PhoneIf(w)
  }

  function BasicSize(w: Waypt): nat {
    19 + |w.name|
  }

  // s0 of the write pass, worked out anew from the annotations.
  function FullSize(o: Options, w: Waypt): nat {
    BasicSize(w) + (if o.hideBitmap then 0 else 10) + CommentSize(w)
    + (if w.extra.sz != 0 then 12 + w.extra.sz else 0)
    + (if w.extra.phoneNr.Some? then 12 + 4 + |w.extra.phoneNr.value| else 0)
    + (if w.extra.alerts != 0 then 20 else 0)
  }

  function WritePoi(o: Options, w: Waypt): seq<Byte> {
    Le32(0x80002) + Le32(FullSize(o, w)) + Le32(BasicSize(w)) + (Basics(o, w) + Optionals(o, w))
  }

  // ---------------------------------------------------------------- the write pass on blocks

  function WritePois(o: Options, q: seq<Waypt>): seq<Byte> {
    if q == [] then [] else WritePois(o, q[..|q| - 1]) + WritePoi(o, q[|q| - 1])
  }

  function BlockHead(bds: Bounds, alert: int): (r: seq<Byte>)
    ensures |r| == 23
  {
    Le32(DegToSemi(bds.maxLat)) + Le32(DegToSemi(bds.maxLon)) + Le32(DegToSemi(bds.minLat)) + Le32(DegToSemi(bds.minLon))
    + Le32(0) + Le16(1) + [alert % 256]
  }

  function WriteBlock(o: Options, t: QTree): seq<Byte>
    decreases t, 1
  {
    match t
    case NoBlock => []
    case Block(q, _, sz, alert, bds, a, b, c, d) =>
      Le32(0x80008) + Le32(sz) + Le32(23) + (BlockHead(bds, alert) + WriteInside(o, t))
  }

  // The waypoints of a block and the blocks nested in it.
  function WriteInside(o: Options, t: QTree): seq<Byte>
    requires t.Block?
    decreases t, 0
  {
    WritePois(o, t.q)
    + WriteBlock(o, t.topLeft) + WriteBlock(o, t.topRight) + WriteBlock(o, t.bottomLeft) + WriteBlock(o, t.bottomRight)
  }

  // ---------------------------------------------------------------- the category

  predicate ShowsBitmap(o: Options, image: seq<Byte>) {
    !o.hideBitmap && image != []
  }

  function CategorySize(o: Options, t: QTree): int {
    Extent(t) + 8 + |o.category|
  }

  function CategoryBody(o: Options, t: QTree): seq<Byte> {
    LongString(o.category) + WriteBlock(o, t)
  }

  function ImageTag(o: Options, image: seq<Byte>): seq<Byte> {
    if ShowsBitmap(o, image) then Le32(5) + Le32(|image|) + image else []
  }

  function WriteCategory(o: Options, t: QTree, image: seq<Byte>): seq<Byte> {
    var sz := CategorySize(o, t);
    Le32(0x80009) + Le32(if ShowsBitmap(o, image) then sz + |image| + 8 else sz) + Le32(sz)
    + (CategoryBody(o, t) + ImageTag(o, image))
  }

  // ---------------------------------------------------------------- sizes agree

  lemma MaskBits(addr: Option<CStr>, f: Gmsd)
    ensures var m := AddressMask(addr, f);
      && (HasBit(m, ADDR_CITY) <==> f.city.Some?) && (HasBit(m, ADDR_COUNTRY) <==> f.country.Some?)
      && (HasBit(m, ADDR_STATE) <==> f.state.Some?) && (HasBit(m, ADDR_POSTAL_CODE) <==> f.postalCode.Some?)
      && (HasBit(m, ADDR_ADDR) <==> addr.Some?) && m < 32
  {
  }

  /** The address record: its size field counts the mask and exactly the strings the mask announces. */
  lemma AddressIsSized(o: Options, w: Waypt)
    requires w.extra == ExtraOf(o, w)
    ensures |Le16(w.extra.mask) + AddressFields(w.extra)| == 2 + |AddressFields(w.extra)|
    ensures w.extra.sz == if w.extra.mask == 0 then 0 else 2 + |AddressFields(w.extra)|
    ensures w.extra.sz != 0 ==> |AddressTag(w.extra)| == 12 + w.extra.sz
  {
    MaskBits(Address(o, w), Fields(w));
  }

  /** A waypoint's record: the outer size field counts everything behind the two of them, the inner one
      the part that is always there, and the size pass foresaw the whole record. */
  lemma PoiIsSized(o: Options, w: Waypt)
    requires w.extra == ExtraOf(o, w)
    ensures FullSize(o, w) == |Basics(o, w) + Optionals(o, w)| && BasicSize(w) == |Basics(o, w)|
    ensures PoiSize(o, w) == |WritePoi(o, w)| == 12 + FullSize(o, w)
  {
    AddressIsSized(o, w);
  }

  predicate AllAnnotated(o: Options, q: seq<Waypt>) {
    forall w | w in q :: w.extra == ExtraOf(o, w)
  }

  lemma AnnotationStands(o: Options, w: Waypt)
    ensures var r := Annotated(o, w); r.extra == ExtraOf(o, r) && Annotated(o, r) == r
  {
  }

  lemma {:induction false} AllAreAnnotated(o: Options, q: seq<Waypt>)
    ensures AllAnnotated(o, AnnotatedAll(o, q))
  {
    if q != [] {
      AllAreAnnotated(o, q[..|q| - 1]);
      AnnotationStands(o, q[|q| - 1]);
    }
  }

  lemma {:induction false} PoisAreSized(o: Options, q: seq<Waypt>)
    requires AllAnnotated(o, q)
    ensures PoiSizes(o, q) == |WritePois(o, q)|
  {
    if q != [] {
      var front, last := q[..|q| - 1], q[|q| - 1];
      assert q == front + [last] && last in q;
      assert forall w | w in front :: w in q;
      PoisAreSized(o, front);
      PoiIsSized(o, last);
    }
  }

  /** Whatever the tree, the options and the waypoints: the size the size pass stores in a block is the
      number of bytes the write pass puts behind that field's block header. */
  lemma {:induction false} BlockIsSized(o: Options, t: QTree)
    requires t.Block?
    ensures var s := Sized(o, t);
      && s.sz == |BlockHead(s.bds, s.alert) + WriteInside(o, s)|
      && |WriteBlock(o, s)| == s.sz + 12
    decreases t, 0
  {
    var s := Sized(o, t);
    AllAreAnnotated(o, t.q);
    PoisAreSized(o, s.q);
    ExtentIsWritten(o, t.topLeft);
    ExtentIsWritten(o, t.topRight);
    ExtentIsWritten(o, t.bottomLeft);
    ExtentIsWritten(o, t.bottomRight);
  }

  lemma {:induction false} ExtentIsWritten(o: Options, t: QTree)
    ensures Extent(Sized(o, t)) == |WriteBlock(o, Sized(o, t))|
    decreases t, 1
  {
    if t.Block? {
      BlockIsSized(o, t);
    }
  }

  /** The category group: with a bitmap the outer size counts the image record too, the inner one
      ends where that record begins. */
  lemma CategoryIsSized(o: Options, t: QTree, image: seq<Byte>)
    ensures var s := Sized(o, t);
      && CategorySize(o, s) == |CategoryBody(o, s)|
      && |ImageTag(o, image)| == (if ShowsBitmap(o, image) then |image| + 8 else 0)
      && |WriteCategory(o, s, image)| == 12 + CategorySize(o, s) + |ImageTag(o, image)|
  {
    ExtentIsWritten(o, t);
  }

  // ---------------------------------------------------------------- an example

  // A waypoint with everything that can be written with it, in one letter each.
  function Example(): Waypt {
    Waypt(45.0, -90.0, ['A' as int], Some(['B' as int]), None,
          Some(Gmsd(None, Some(['C' as int]), Some(['D' as int]), Some(['E' as int]), Some(['F' as int]), Some(['G' as int]))),
          None, Some(500.0), 0.0, [], NO_EXTRA)
  }

  // The description counts as the address, and alerts are on.
  function ExampleOptions(): Options {
    Options(['X' as int], false, true, false, false, true, None, None)
  }

  lemma ExampleAnnotated()
    ensures Annotated(ExampleOptions(), Example()) == Example().(extra := Extra(41, 1, 31, Some(['B' as int]), Some(['C' as int]),
      Some(['D' as int]), Some(['G' as int]), Some(['F' as int]), Some(['E' as int])))
  {
  }

  lemma ExampleHead(o: Options, w: Waypt)
    requires o == ExampleOptions() && w == Annotated(o, Example())
    ensures Le32(0x80002) + Le32(FullSize(o, w)) + Le32(BasicSize(w)) == [0x02, 0, 0x08, 0, 137, 0, 0, 0, 20, 0, 0, 0]
    ensures Basics(o, w) == [0, 0, 0, 0x20] + [0, 0, 0, 0xC0] + [1, 0, 1] + [5, 0, 0, 0, 'E' as int, 'N' as int, 1, 0, 'A' as int]
  {
    ExampleAnnotated();
    Le32Is(0x80002, 0x02, 0, 0x08, 0);
    Le32Is(137, 137, 0, 0, 0);
    Le32Is(20, 20, 0, 0, 0);
    assert DegToSemi(45.0) == 536870912 && DegToSemi(-90.0) == -1073741824;
    Le32Is(536870912, 0, 0, 0, 0x20);
    Le32Is(-1073741824, 0, 0, 0, 0xC0);
    OneLetter('A' as int);
    Le16Is(1, 1, 0);
  }

  lemma OneLetter(c: CChar)
    ensures LongString([c]) == [5, 0, 0, 0, 'E' as int, 'N' as int, 1, 0, c as int] && ShortString([c]) == [1, 0, c as int]
  {
    Le32Is(5, 5, 0, 0, 0);
    assert Text([c]) == [c];
  }

  lemma ExampleAlert(o: Options, w: Waypt)
    requires o == ExampleOptions() && w == Annotated(o, Example())
    ensures AlertIf(w) == [3, 0, 0, 0, 12, 0, 0, 0, 0xF4, 1, 0, 0, 0, 1, 0x10, 0, 1, 1, 4, 0x10]
    ensures BitmapIf(o) == [4, 0, 0, 0, 2, 0, 0, 0, 0, 0]
  {
    ExampleAnnotated();
    Le32Is(3, 3, 0, 0, 0);
    Le32Is(12, 12, 0, 0, 0);
    Le32Is(0x100100, 0, 1, 0x10, 0);
    Le32Is(4, 4, 0, 0, 0);
    Le32Is(2, 2, 0, 0, 0);
    Le16Is(500, 0xF4, 1);
    Le16Is(0, 0, 0);
  }

  lemma ExampleTexts(o: Options, w: Waypt)
    requires o == ExampleOptions() && w == Annotated(o, Example())
    ensures CommentIf(w) == [0x0A, 0, 0, 0, 9, 0, 0, 0] + [5, 0, 0, 0, 'E' as int, 'N' as int, 1, 0, 'B' as int]
    ensures PhoneIf(w) == [0x0C, 0, 0x08, 0, 5, 0, 0, 0, 2, 0, 0, 0, 1, 0] + [1, 0, 'G' as int]
  {
    ExampleAnnotated();
    OneLetter('B' as int);
    OneLetter('G' as int);
    Le32Is(0xa, 0x0A, 0, 0, 0);
    Le32Is(9, 9, 0, 0, 0);
    Le32Is(0x8000c, 0x0C, 0, 0x08, 0);
    Le32Is(5, 5, 0, 0, 0);
    Le32Is(2, 2, 0, 0, 0);
    Le16Is(1, 1, 0);
  }

  lemma ExampleAddress(o: Options, w: Waypt)
    requires o == ExampleOptions() && w == Annotated(o, Example())
    ensures AddressIf(w) == [0x0B, 0, 0x08, 0, 41, 0, 0, 0, 2, 0, 0, 0] + ([31, 0] + ([5, 0, 0, 0, 'E' as int, 'N' as int, 1, 0, 'C' as int]
      + [5, 0, 0, 0, 'E' as int, 'N' as int, 1, 0, 'D' as int] + [5, 0, 0, 0, 'E' as int, 'N' as int, 1, 0, 'E' as int]
      + [1, 0, 'F' as int] + [5, 0, 0, 0, 'E' as int, 'N' as int, 1, 0, 'B' as int]))
  {
    ExampleAnnotated();
    OneLetter('B' as int);
    OneLetter('C' as int);
    OneLetter('D' as int);
    OneLetter('E' as int);
    OneLetter('F' as int);
    Le32Is(0x8000b, 0x0B, 0, 0x08, 0);
    Le32Is(41, 41, 0, 0, 0);
    Le32Is(2, 2, 0, 0, 0);
    Le16Is(31, 31, 0);
  }

  /** One record, byte for byte: 45 degrees north, 90 degrees west, name, alert at 500 metres, bitmap, description,
      address and phone number. */
  lemma ExampleRecord(o: Options, w: Waypt)
    requires o == ExampleOptions() && w == Annotated(o, Example())
    ensures WritePoi(o, w) == [0x02, 0, 0x08, 0, 137, 0, 0, 0, 20, 0, 0, 0]
      + ([0, 0, 0, 0x20] + [0, 0, 0, 0xC0] + [1, 0, 1] + [5, 0, 0, 0, 'E' as int, 'N' as int, 1, 0, 'A' as int]
        + ([3, 0, 0, 0, 12, 0, 0, 0, 0xF4, 1, 0, 0, 0, 1, 0x10, 0, 1, 1, 4, 0x10]
          + [4, 0, 0, 0, 2, 0, 0, 0, 0, 0]
          + ([0x0A, 0, 0, 0, 9, 0, 0, 0] + [5, 0, 0, 0, 'E' as int, 'N' as int, 1, 0, 'B' as int])
          + ([0x0B, 0, 0x08, 0, 41, 0, 0, 0, 2, 0, 0, 0] + ([31, 0] + ([5, 0, 0, 0, 'E' as int, 'N' as int, 1, 0, 'C' as int]
            + [5, 0, 0, 0, 'E' as int, 'N' as int, 1, 0, 'D' as int] + [5, 0, 0, 0, 'E' as int, 'N' as int, 1, 0, 'E' as int]
            + [1, 0, 'F' as int] + [5, 0, 0, 0, 'E' as int, 'N' as int, 1, 0, 'B' as int])))
          + ([0x0C, 0, 0x08, 0, 5, 0, 0, 0, 2, 0, 0, 0, 1, 0] + [1, 0, 'G' as int])))
  {
    ExampleHead(o, w);
    ExampleAlert(o, w);
    ExampleTexts(o, w);
    ExampleAddress(o, w);
  }

  /** A block's record in bytes: tag, size, size of the fixed part, the bounds from north and east to south and west,
      six constant bytes and the alert flag; then the waypoints, and the blocks to the north-west, north-east,
      south-west and south-east. */
  lemma BlockIs(o: Options, t: QTree)
    requires t.Block?
    ensures var f := WriteBlock(o, t);
      && |f| >= 35 && f[..4] == [0x08, 0, 0x08, 0] && f[4..8] == Le32(t.sz) && f[8..12] == [23, 0, 0, 0]
      && f[12..16] == Le32(DegToSemi(t.bds.maxLat)) && f[16..20] == Le32(DegToSemi(t.bds.maxLon))
      && f[20..24] == Le32(DegToSemi(t.bds.minLat)) && f[24..28] == Le32(DegToSemi(t.bds.minLon))
      && f[28..34] == [0, 0, 0, 0, 1, 0] && f[34] as int == t.alert % 256
      && f[35..] == WritePois(o, t.q) + WriteBlock(o, t.topLeft) + WriteBlock(o, t.topRight) + WriteBlock(o, t.bottomLeft) + WriteBlock(o, t.bottomRight)
  {
    Le32Is(0x80008, 0x08, 0, 0x08, 0);
    Le32Is(23, 23, 0, 0, 0);
    Le32Is(0, 0, 0, 0, 0);
    Le16Is(1, 1, 0);
    var head, inside := BlockHead(t.bds, t.alert), WriteInside(o, t);
    HeadIs(t.bds, t.alert);
    ThreeAnd(Le32(0x80008), Le32(t.sz), Le32(23), head, inside, WriteBlock(o, t));
  }

  lemma HeadIs(b: Bounds, alert: int)
    ensures var h := BlockHead(b, alert);
      && h[..4] == Le32(DegToSemi(b.maxLat)) && h[4..8] == Le32(DegToSemi(b.maxLon))
      && h[8..12] == Le32(DegToSemi(b.minLat)) && h[12..16] == Le32(DegToSemi(b.minLon))
      && h[16..22] == [0, 0, 0, 0, 1, 0] && h[22] as int == alert % 256
  {
    Le32Is(0, 0, 0, 0, 0);
    Le16Is(1, 1, 0);
  }

  lemma ThreeAnd(a: seq<Byte>, b: seq<Byte>, c: seq<Byte>, head: seq<Byte>, inside: seq<Byte>, f: seq<Byte>)
    requires |a| == 4 && |b| == 4 && |c| == 4 && |head| == 23 && f == a + b + c + (head + inside)
    ensures |f| >= 35 && f[..4] == a && f[4..8] == b && f[8..12] == c && f[12..16] == head[..4] && f[16..20] == head[4..8]
    ensures f[20..24] == head[8..12] && f[24..28] == head[12..16] && f[28..34] == head[16..22] && f[34] == head[22] && f[35..] == inside
  {
  }

  /** A category's record in bytes: tag, both sizes, the name, the block, and the image if there is one. */
  lemma CategoryIs(o: Options, t: QTree, image: seq<Byte>)
    ensures var f, img, n := WriteCategory(o, t, image), ShowsBitmap(o, image), CategorySize(o, t);
      && |f| >= 12 && f[..4] == [0x09, 0, 0x08, 0] && f[4..8] == Le32(if img then n + |image| + 8 else n) && f[8..12] == Le32(n)
      && f[12..] == LongString(o.category) + WriteBlock(o, t) + if img then [5, 0, 0, 0] + Le32(|image|) + image else []
  {
    Le32Is(0x80009, 0x09, 0, 0x08, 0);
    Le32Is(5, 5, 0, 0, 0);
    var n := CategorySize(o, t);
    var size := if ShowsBitmap(o, image) then n + |image| + 8 else n;
    var rest := CategoryBody(o, t) + ImageTag(o, image);
    ThreeFours(Le32(0x80009), Le32(size), Le32(n), rest, WriteCategory(o, t, image));
  }

  lemma ThreeFours(a: seq<Byte>, b: seq<Byte>, c: seq<Byte>, rest: seq<Byte>, f: seq<Byte>)
    requires |a| == 4 && |b| == 4 && |c| == 4 && f == a + b + c + rest
    ensures |f| >= 12 && f[..4] == a && f[4..8] == b && f[8..12] == c && f[12..] == rest
  {
  }
}
