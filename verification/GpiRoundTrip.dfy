// Reading what was written: the recursive reader finds in the bytes of the writer every waypoint's position,
// texts and alert, in write order, however deep it is nested.
module GpiRoundTrip {
  import opened Bytes
  import opened CString
  import opened GpiModel
  import opened GpiFormat
  import opened GpiReader
  import opened Sequences
  import opened Wrappers
  import GpiSplit

  // ---------------------------------------------------------------- what comes back

  function Read(s: Option<CStr>): Option<Str> {
    if s.Some? then Some(Text(s.value)) else None
  }

  // An empty string in the short form reads as NULL.
  function ReadShort(s: Option<CStr>): Option<Str> {
    if s.Some? && s.value != [] then Some(Text(s.value)) else None
  }

  // An alert's number as its signed 16-bit field shows it.
  function Field16(x: int): int {
    S16(Le16(x))
  }

  function Metres(w: Waypt): int {
    Field16(if Positive(w.proximity) then Truncate(w.proximity.value) else 0)
  }

  function Centimetres(w: Waypt): int {
    Field16(if Positive(w.speed) then Truncate(w.speed.value * 100.0) else 0)
  }

  // With the alert of an annotated waypoint.
  function WithAlert(w: Waypt, p: Poi): Poi {
    if w.extra.alerts != 0 then Alerted(p, Metres(w), Centimetres(w)) else p
  }

  function Expected(o: Options, w: Waypt): Poi {
    var f, comment := Fields(w), Read(Comment(w));
    WithAlert(Annotated(o, w), NewPoi(SemiToDeg(DegToSemi(w.lat)), SemiToDeg(DegToSemi(w.lon)), Some(Text(w.name)))).(
      description := comment, notes := comment,
      addr := Read(Address(o, w)), city := Read(f.city), country := Read(f.country), state := Read(f.state),
      postalCode := ReadShort(f.postalCode), phoneNr := ReadShort(f.phoneNr))
  }

  /** A proximity of one metre or more comes back in whole metres exactly if the field can hold it; a speed that
      can be held comes back in whole centimetres unless the name has an '@' already. */
  lemma AlertComesBack(o: Options, w: Waypt)
    requires o.alerts
    ensures var prox := AlertProximity(o, w); prox.Some? && prox.value >= 1.0 ==>
      (Expected(o, w).proximity == Some(Truncate(prox.value)) <==> prox.value < 32768.0)
    ensures var speed := AlertSpeed(o, w); speed.Some? && 0.01 <= speed.value < 327.68 ==>
      Expected(o, w).speed == if HasAt(w.name) then None else Some(Truncate(speed.value * 100.0))
  {
    var v, p := Annotated(o, w), NewPoi(SemiToDeg(DegToSemi(w.lat)), SemiToDeg(DegToSemi(w.lon)), Some(Text(w.name)));
    SameMark(w.name);
    if v.proximity.Some? && v.proximity.value >= 1.0 {
      MetresHeld(v);
    }
    if v.speed.Some? && 0.01 <= v.speed.value < 327.68 {
      CentimetresHeld(v);
    }
  }

  lemma MetresHeld(w: Waypt)
    requires w.proximity.Some? && w.proximity.value >= 1.0
    ensures Metres(w) == Truncate(w.proximity.value) <==> w.proximity.value < 32768.0
  {
    Field16Holds(Truncate(w.proximity.value));
  }

  lemma CentimetresHeld(w: Waypt)
    requires w.speed.Some? && 0.01 <= w.speed.value < 327.68
    ensures Centimetres(w) == Truncate(w.speed.value * 100.0) > 0
  {
    Field16Holds(Truncate(w.speed.value * 100.0));
  }

  lemma Field16Holds(x: nat)
    ensures Field16(x) == x <==> x < 32768
  {
    Le16RoundTrip(x);
  }

  lemma SameMark(s: CStr)
    ensures '@' as int in Text(s) <==> HasAt(s)
  {
    if HasAt(s) {
      var i :| 0 <= i < |s| && s[i] == AT;
      assert Text(s)[i] == AT;
    }
  }

  function AllExpected(o: Options, q: seq<Waypt>): (r: seq<Poi>)
    ensures |r| == |q|
  {
    if q == [] then [] else AllExpected(o, q[..|q| - 1]) + [Expected(o, q[|q| - 1])]
  }

  // What is expected, field by field: the position to within a semicircle, the texts as they were.
  ghost predicate Back(o: Options, w: Waypt, p: Poi) {
    && Near(p.lat, w.lat) && Near(p.lon, w.lon) && Same(p.name, Some(w.name))
    && Same(p.description, Comment(w)) && Same(p.notes, Comment(w)) && Same(p.addr, Address(o, w))
    && Same(p.city, Fields(w).city) && Same(p.country, Fields(w).country) && Same(p.state, Fields(w).state)
    && Same(p.postalCode, NonEmpty(Fields(w).postalCode)) && Same(p.phoneNr, NonEmpty(Fields(w).phoneNr))
  }

  // The same characters.
  predicate Same(r: Option<Str>, s: Option<CStr>) {
    if s == None then r == None else r.Some? && |r.value| == |s.value| && forall i | 0 <= i < |s.value| :: r.value[i] == s.value[i]
  }

  ghost predicate AllBack(o: Options, q: seq<Waypt>, r: seq<Poi>) {
    |r| == |q| && forall i | 0 <= i < |q| :: Back(o, q[i], r[i])
  }

  lemma ExpectedIsBack(o: Options, w: Waypt)
    ensures Back(o, w, Expected(o, w))
  {
    DegreesComeBack(w.lat);
    DegreesComeBack(w.lon);
  }

  lemma {:induction false} AllExpectedAreBack(o: Options, q: seq<Waypt>)
    ensures AllBack(o, q, AllExpected(o, q))
  {
    if q != [] {
      AllExpectedAreBack(o, q[..|q| - 1]);
      ExpectedIsBack(o, q[|q| - 1]);
    }
  }

  // ---------------------------------------------------------------- what fits the format

  predicate Short(s: Option<CStr>) {
    s.Some? ==> |s.value| + 4 < 32768
  }

  predicate InRange(x: int) {
    -0x8000_0000 <= x < 0x8000_0000
  }

  // Texts short enough for a signed 16-bit length, positions on the globe.
  predicate Fits(o: Options, w: Waypt) {
    var f := Fields(w);
    && |w.name| + 4 < 32768 && Short(Comment(w)) && Short(Address(o, w))
    && Short(f.city) && Short(f.country) && Short(f.state) && Short(f.postalCode) && Short(f.phoneNr)
    && OnGlobe(w.lat) && OnGlobe(w.lon)
  }

  // ---------------------------------------------------------------- bytes in place

  // Five pieces, one behind the other.
  lemma AtFive(f: seq<Byte>, pos: int, a: seq<Byte>, b: seq<Byte>, c: seq<Byte>, d: seq<Byte>, e: seq<Byte>)
    requires At(f, pos, a + b + c + d + e)
    ensures At(f, pos, a) && At(f, pos + |a|, b) && At(f, pos + |a| + |b|, c)
    ensures At(f, pos + |a| + |b| + |c|, d) && At(f, pos + |a| + |b| + |c| + |d|, e)
  {
    AtSplit(f, pos, a + b + c + d, e);
    AtSplit(f, pos, a + b + c, d);
    AtSplit(f, pos, a + b, c);
    AtSplit(f, pos, a, b);
  }

  lemma ReadsInt32(f: seq<Byte>, pos: int, x: int)
    requires At(f, pos, Le32(x)) && InRange(x)
    ensures Int32(f, pos) == Got(x, pos + 4)
  {
    Le32RoundTrip(x);
  }

  lemma ReadsMask(f: seq<Byte>, pos: int, x: nat)
    requires At(f, pos, Le16(x)) && x < 65536
    ensures Mask16(f, pos) == Got(x, pos + 2)
  {
    Le16RoundTrip(x);
  }

  lemma ReadsShort(f: seq<Byte>, pos: int, s: CStr)
    requires At(f, pos, ShortString(s)) && |s| < 32768
    ensures ReadString(f, pos) == Got(ReadShort(Some(s)), pos + 2 + |s|)
  {
    AtSplit(f, pos, Le16(|s|), Text(s));
    Le16RoundTrip(|s|);
    if s != [] {
      var t := Text(s);
      assert f[pos + 2] == f[pos + 2..pos + 2 + |s|][0] == t[0] == s[0];
    }
  }

  lemma ReadsLong(f: seq<Byte>, pos: int, s: CStr)
    requires At(f, pos, LongString(s)) && |s| + 4 < 32768
    ensures ReadString(f, pos) == Got(Some(Text(s)), pos + 8 + |s|)
  {
    var n, en := |s| + 4, ['E' as int, 'N' as int];
    AtSplit(f, pos, Le32(n) + en + Le16(|s|), Text(s));
    AtSplit(f, pos, Le32(n) + en, Le16(|s|));
    Le16RoundTrip(n);
    Le16RoundTrip(|s|);
    ReadsHead(f, pos, n);
    ReadsTail(f, pos + 3, n, s);
  }

  lemma ReadsTail(f: seq<Byte>, pos: int, n: nat, s: CStr)
    requires Take(f, pos, 3) == Got([0, 'E' as int, 'N' as int], pos + 3) && n == |s| + 4 < 32768
    requires Int16(f, pos + 3) == Got(|s|, pos + 5) && At(f, pos + 5, Text(s))
    ensures ReadLong(f, pos, n) == Got(Some(Text(s)), pos + 5 + |s|)
  {
  }

  // The language header of a string.
  lemma ReadsHead(f: seq<Byte>, pos: int, n: nat)
    requires At(f, pos, Le32(n) + ['E' as int, 'N' as int]) && n < 32768
    ensures Int16(f, pos) == Got(n, pos + 2) && f[pos + 2] == 0 && Take(f, pos + 3, 3) == Got([0, 'E' as int, 'N' as int], pos + 6)
  {
    Le16RoundTrip(n);
    var head := f[pos..pos + 6];
    assert head == Le16(n) + [0, 0, 'E' as int, 'N' as int];
    assert f[pos..pos + 2] == head[..2] && f[pos + 2] == head[2];
    assert f[pos + 3..pos + 6] == head[3..] == [0, 'E' as int, 'N' as int];
  }

  // ---------------------------------------------------------------- records of a waypoint

  lemma ReadsLongIf(f: seq<Byte>, pos: int, mask: nat, bit: nat, s: Option<CStr>)
    requires bit > 0 && (HasBit(mask, bit) <==> s.Some?) && Short(s)
    requires At(f, pos, LongIf(mask, bit, s))
    ensures ReadIf(f, pos, mask, bit, None) == Got(Read(s), pos + |LongIf(mask, bit, s)|)
  {
    if s.Some? {
      ReadsLong(f, pos, s.value);
    }
  }

  lemma ReadsShortIf(f: seq<Byte>, pos: int, mask: nat, bit: nat, s: Option<CStr>)
    requires bit > 0 && (HasBit(mask, bit) <==> s.Some?) && Short(s)
    requires At(f, pos, ShortIf(mask, bit, s))
    ensures ReadIf(f, pos, mask, bit, None) == Got(ReadShort(s), pos + |ShortIf(mask, bit, s)|)
  {
    if s.Some? {
      ReadsShort(f, pos, s.value);
    }
  }

  // The address strings a waypoint's annotation holds, by their place in the record.
  function Source(e: Extra, k: nat): Option<CStr> {
    if k == 0 then e.city else if k == 1 then e.country else if k == 2 then e.state else if k == 3 then e.postalCode else e.addr
  }

  function Piece(e: Extra, k: nat): seq<Byte> {
    if k == 3 then ShortIf(e.mask, FieldBit(k), Source(e, k)) else LongIf(e.mask, FieldBit(k), Source(e, k))
  }

  function ReadBack(e: Extra, k: nat): Option<Str> {
    if k == 3 then ReadShort(Source(e, k)) else Read(Source(e, k))
  }

  function PiecesFrom(e: Extra, k: nat): seq<Byte>
    decreases 5 - k
  {
    if k >= 5 then [] else Piece(e, k) + PiecesFrom(e, k + 1)
  }

  function FilledFrom(e: Extra, k: nat, p: Poi): Poi
    decreases 5 - k
  {
    if k >= 5 then p else FilledFrom(e, k + 1, SetField(p, k, ReadBack(e, k)))
  }

  // A waypoint whose address is still unset.
  predicate NoAddress(p: Poi, from: nat) {
    forall k: nat | from <= k < 5 :: Field(p, k) == None
  }

  // The mask announces exactly the strings that are there, and all are short enough.
  predicate Telling(e: Extra) {
    && e.mask < 32
    && forall k: nat | k < 5 :: (HasBit(e.mask, FieldBit(k)) <==> Source(e, k).Some?) && Short(Source(e, k))
  }

  function WithAddress(e: Extra, p: Poi): Poi {
    p.(city := Read(e.city), country := Read(e.country), state := Read(e.state), postalCode := ReadShort(e.postalCode),
       addr := Read(e.addr))
  }

  lemma AllPieces(e: Extra, p: Poi)
    ensures PiecesFrom(e, 0) == AddressFields(e) && FilledFrom(e, 0, p) == WithAddress(e, p)
  {
    PiecesJoin(e);
    AllFilled(e, p);
  }

  lemma PiecesJoin(e: Extra)
    ensures PiecesFrom(e, 0) == AddressFields(e)
  {
    var a, b, c, d, g := Piece(e, 0), Piece(e, 1), Piece(e, 2), Piece(e, 3), Piece(e, 4);
    assert PiecesFrom(e, 5) == [];
    Units(g);
    assert PiecesFrom(e, 3) == d + PiecesFrom(e, 4);
    assert PiecesFrom(e, 1) == b + PiecesFrom(e, 2);
    FlattenFive(a, b, c, d, g);
  }

  lemma AllFilled(e: Extra, p: Poi)
    ensures FilledFrom(e, 0, p) == WithAddress(e, p)
  {
    var p1 := SetField(p, 0, ReadBack(e, 0));
    var p2 := SetField(p1, 1, ReadBack(e, 1));
    var p3 := SetField(p2, 2, ReadBack(e, 2));
    var p4 := SetField(p3, 3, ReadBack(e, 3));
    assert FilledFrom(e, 3, p3) == FilledFrom(e, 4, p4) == SetField(p4, 4, ReadBack(e, 4));
    assert FilledFrom(e, 0, p) == FilledFrom(e, 1, p1) == FilledFrom(e, 2, p2) == FilledFrom(e, 3, p3);
  }

  lemma {:induction false} ReadsFields(f: seq<Byte>, pos: int, e: Extra, k: nat, p: Poi)
    requires Telling(e) && NoAddress(p, k) && k <= 5 && At(f, pos, PiecesFrom(e, k))
    ensures ReadFields(f, pos, e.mask, k, p) == Got(FilledFrom(e, k, p), pos + |PiecesFrom(e, k)|)
    decreases 5 - k
  {
    if k < 5 {
      var p', pos', next := SetField(p, k, ReadBack(e, k)), pos + |Piece(e, k)|, k + 1;
      NextPiece(f, pos, e, k, p, p', pos', next);
      OtherFields(p, k, ReadBack(e, k));
      ReadsOneField(f, pos, e, k, p, p', pos');
      ReadsFields(f, pos', e, next, p');
    }
  }

  lemma NextPiece(f: seq<Byte>, pos: int, e: Extra, k: nat, p: Poi, p': Poi, pos': int, next: nat)
    requires k < 5 && next == k + 1 && At(f, pos, PiecesFrom(e, k)) && p' == SetField(p, k, ReadBack(e, k)) && pos' == pos + |Piece(e, k)|
    ensures At(f, pos, Piece(e, k)) && At(f, pos', PiecesFrom(e, next))
    ensures pos + |PiecesFrom(e, k)| == pos' + |PiecesFrom(e, next)| && FilledFrom(e, k, p) == FilledFrom(e, next, p')
  {
    AtSplit(f, pos, Piece(e, k), PiecesFrom(e, next));
  }

  lemma ReadsOneField(f: seq<Byte>, pos: int, e: Extra, k: nat, p: Poi, p': Poi, pos': int)
    requires Telling(e) && Field(p, k) == None && k < 5 && At(f, pos, Piece(e, k))
    requires p' == SetField(p, k, ReadBack(e, k)) && pos' == pos + |Piece(e, k)|
    ensures ReadFields(f, pos, e.mask, k, p) == ReadFields(f, pos', e.mask, k + 1, p')
  {
    ReadsPiece(f, pos, e, k);
  }

  lemma OtherFields(p: Poi, k: nat, s: Option<Str>)
    requires k < 5 && NoAddress(p, k)
    ensures Field(p, k) == None && NoAddress(SetField(p, k, s), k + 1)
  {
    forall j: nat | k + 1 <= j < 5 ensures Field(SetField(p, k, s), j) == None {
      assert Field(p, j) == None;
    }
  }

  lemma ReadsPiece(f: seq<Byte>, pos: int, e: Extra, k: nat)
    requires Telling(e) && k < 5 && At(f, pos, Piece(e, k))
    ensures ReadIf(f, pos, e.mask, FieldBit(k), None) == Got(ReadBack(e, k), pos + |Piece(e, k)|)
  {
    if k == 3 {
      ReadsShortIf(f, pos, e.mask, FieldBit(k), Source(e, k));
    } else {
      ReadsLongIf(f, pos, e.mask, FieldBit(k), Source(e, k));
    }
  }

  lemma ReadsAddress(f: seq<Byte>, pos: int, e: Extra, p: Poi)
    requires Telling(e) && NoAddress(p, 0)
    requires At(f, pos, Le16(e.mask) + AddressFields(e))
    ensures ReadAddress(f, pos, p) == Got(WithAddress(e, p), pos + 2 + |AddressFields(e)|)
  {
    AtSplit(f, pos, Le16(e.mask), AddressFields(e));
    ReadsMask(f, pos, e.mask);
    AllPieces(e, p);
    ReadsFields(f, pos + 2, e, 0, p);
  }

  // The header of a record: its tag and its size.
  lemma ReadsHeader(f: seq<Byte>, pos: int, tag: int, size: int, rest: seq<Byte>)
    requires At(f, pos, Le32(tag) + Le32(size) + rest) && InRange(tag) && InRange(size)
    ensures Int32(f, pos) == Got(tag, pos + 4) && Int32(f, pos + 4) == Got(size, pos + 8) && At(f, pos + 8, rest)
  {
    AtSplit(f, pos, Le32(tag) + Le32(size), rest);
    AtSplit(f, pos, Le32(tag), Le32(size));
    ReadsInt32(f, pos, tag);
    ReadsInt32(f, pos + 4, size);
  }

  // Handling the record whose tag stands at pos makes p' of p and gets to pos'.
  ghost predicate DetailAt(f: seq<Byte>, pos: int, fuel: nat, tag: int, p: Poi, p': Poi, pos': int) {
    Int32(f, pos) == Got(tag, pos + 4) && ReadTag(f, fuel, tag, pos + 4, Some(p)) == Got(Step(true, Some(p'), []), pos')
  }

  /** A record of a waypoint moves the reader exactly behind it. */
  lemma ReadsBitmapTag(f: seq<Byte>, pos: int, pos': int, fuel: nat, p: Poi)
    requires At(f, pos, BitmapTag()) && pos' == pos + |BitmapTag()|
    ensures DetailAt(f, pos, fuel, 4, p, p, pos')
  {
    ReadsHeader(f, pos, 4, 2, Le16(0));
  }

  lemma ReadsAlertTag(f: seq<Byte>, pos: int, pos': int, fuel: nat, w: Waypt, p: Poi, p': Poi)
    requires At(f, pos, AlertTag(w)) && pos' == pos + 20 && p' == Alerted(p, Metres(w), Centimetres(w))
    ensures DetailAt(f, pos, fuel, 3, p, p', pos')
  {
    var dist, speed, end := AlertParts(f, pos, w);
    AtSplit(f, pos + 8, Le16(dist) + Le16(speed), end);
    AtSplit(f, pos + 8, Le16(dist), Le16(speed));
    AlertIsHandled(f, pos, pos', fuel, Metres(w), Centimetres(w), p, p');
  }

  // An alert's record behind its header: two numbers and eight bytes.
  lemma AlertParts(f: seq<Byte>, pos: int, w: Waypt) returns (dist: int, speed: int, end: seq<Byte>)
    requires At(f, pos, AlertTag(w))
    ensures HeaderReads(f, pos, 3, 12) && |end| == 8 && At(f, pos + 8, Le16(dist) + Le16(speed) + end)
    ensures Metres(w) == Field16(dist) && Centimetres(w) == Field16(speed)
  {
    var prox, fast := Positive(w.proximity), Positive(w.speed);
    dist, speed := if prox then Truncate(w.proximity.value) else 0, if fast then Truncate(w.speed.value * 100.0) else 0;
    end := Le32(0x100100) + [1, 1, if fast then 5 else if prox then 4 else 0, 0x10];
    assert AlertTag(w) == Le32(3) + Le32(12) + (Le16(dist) + Le16(speed) + end);
    ReadsHeader(f, pos, 3, 12, Le16(dist) + Le16(speed) + end);
  }

  lemma AlertIsHandled(f: seq<Byte>, pos: int, pos': int, fuel: nat, dist: int, speed: int, p: Poi, p': Poi)
    requires HeaderReads(f, pos, 3, 12) && pos' == pos + 20 <= |f| && p' == Alerted(p, dist, speed)
    requires Int16(f, pos + 8) == Got(dist, pos + 10) && Int16(f, pos + 10) == Got(speed, pos + 12)
    ensures DetailAt(f, pos, fuel, 3, p, p', pos')
  {
  }

  lemma ReadsCommentTag(f: seq<Byte>, pos: int, pos': int, fuel: nat, s: CStr, p: Poi, p': Poi)
    requires At(f, pos, CommentTag(s)) && |s| + 4 < 32768 && pos' == pos + |CommentTag(s)| && p' == p.(description := Some(Text(s)))
    ensures DetailAt(f, pos, fuel, 0xa, p, p', pos')
  {
    ReadsHeader(f, pos, 0xa, |s| + 8, LongString(s));
    ReadsLong(f, pos + 8, s);
  }

  lemma ReadsAddressTag(f: seq<Byte>, pos: int, pos': int, fuel: nat, e: Extra, p: Poi, p': Poi)
    requires Telling(e) && NoAddress(p, 0) && e.sz == 2 + |AddressFields(e)| && InRange(e.sz) && p' == WithAddress(e, p)
    requires At(f, pos, AddressTag(e)) && pos' == pos + |AddressTag(e)|
    ensures DetailAt(f, pos, fuel, 0x8000b, p, p', pos')
  {
    var body := Le16(e.mask) + AddressFields(e);
    RecordHeader(f, pos, 0x8000b, e.sz, 2, body);
    ReadsAddress(f, pos + 12, e, p);
    AddressIsHandled(f, pos, pos', fuel, e.sz, p, p');
  }

  lemma AddressIsHandled(f: seq<Byte>, pos: int, pos': int, fuel: nat, size: int, p: Poi, p': Poi)
    requires HeaderReads(f, pos, 0x8000b, size) && pos + 12 <= |f| && pos' == pos + 12 + size
    requires ReadAddress(f, pos + 12, p) == Got(p', pos')
    ensures DetailAt(f, pos, fuel, 0x8000b, p, p', pos')
  {
  }

  lemma ReadsPhoneTag(f: seq<Byte>, pos: int, pos': int, fuel: nat, s: CStr, p: Poi, p': Poi)
    requires At(f, pos, PhoneTag(s)) && |s| + 4 < 32768 && p.phoneNr.None? && pos' == pos + |PhoneTag(s)|
    requires p' == p.(phoneNr := ReadShort(Some(s)))
    ensures DetailAt(f, pos, fuel, 0x8000c, p, p', pos')
  {
    var size, body := |s| + 4, Le16(1) + ShortString(s);
    RecordHeader(f, pos, 0x8000c, size, 2, body);
    AtSplit(f, pos + 12, Le16(1), ShortString(s));
    ReadsMask(f, pos + 12, 1);
    ReadsShort(f, pos + 14, s);
    PhoneIsHandled(f, pos, pos', fuel, size, p, p');
  }

  lemma PhoneIsHandled(f: seq<Byte>, pos: int, pos': int, fuel: nat, size: int, p: Poi, p': Poi)
    requires HeaderReads(f, pos, 0x8000c, size) && pos + 12 <= |f| && pos' == pos + 12 + size
    requires ReadPhone(f, pos + 12, p) == Got(p', pos')
    ensures DetailAt(f, pos, fuel, 0x8000c, p, p', pos')
  {
  }

  // Tag and size of a record whose body starts behind a further size field.
  ghost predicate HeaderReads(f: seq<Byte>, pos: int, tag: int, size: int) {
    pos >= 0 && size >= 0 && Int32(f, pos) == Got(tag, pos + 4) && Int32(f, pos + 4) == Got(size, pos + 8)
  }

  lemma RecordHeader(f: seq<Byte>, pos: int, tag: int, size: int, sub: int, body: seq<Byte>)
    requires At(f, pos, Le32(tag) + Le32(size) + Le32(sub) + body) && InRange(tag) && InRange(size) && size >= 0
    ensures HeaderReads(f, pos, tag, size) && pos + 12 <= |f| && At(f, pos + 12, body)
  {
    Associate(Le32(tag) + Le32(size), Le32(sub), body);
    ReadsHeader(f, pos, tag, size, Le32(sub) + body);
    AtSplit(f, pos + 8, Le32(sub), body);
  }

  // ---------------------------------------------------------------- one waypoint

  // Reading the record whose tag stands at pos gets to pos' and finds these waypoints.
  ghost predicate ReadAt(f: seq<Byte>, pos: int, fuel: nat, tag: int, pos': int, found: seq<Poi>) {
    Int32(f, pos) == Got(tag, pos + 4) && ReadTag(f, fuel, tag, pos + 4, None) == Got(Step(true, None, found), pos')
  }

  // One turn of the tag loop.
  lemma OneTag(f: seq<Byte>, fuel: nat, fuel': nat, end: int, pos: int, pos': int, tag: int, found: seq<Poi>, more: seq<Poi>, all: seq<Poi>)
    requires pos < end && fuel == fuel' + 1 && ReadAt(f, pos, fuel', tag, pos', more) && all == found + more
    ensures Reaches(f, fuel, fuel', end, pos, pos', found, all)
  {
  }

  // From p at pos to p' at pos', for a record that may be absent.
  ghost predicate Passes(f: seq<Byte>, fuel: nat, fuel': nat, end: int, pos: int, pos': int, p: Poi, p': Poi) {
    ReadTags(f, fuel, end, pos, Some(p), []) == ReadTags(f, fuel', end, pos', Some(p'), [])
  }

  // The same for the fuel and the position a record of these bytes uses up.
  ghost predicate Advances(r: seq<Byte>, fuel: nat, fuel': nat, end: int, pos: int, pos': int) {
    pos' == pos + |r| && pos' <= end && fuel == (if r == [] then fuel' else fuel' + 1)
  }

  // A record that may be absent, between two positions, and the fuel reading it takes.
  ghost predicate RecordAt(f: seq<Byte>, r: seq<Byte>, fuel: nat, fuel': nat, end: int, pos: int, pos': int) {
    At(f, pos, r) && Advances(r, fuel, fuel', end, pos, pos')
  }

  // What the optional records need to be readable, annotations aside.
  ghost predicate Legible(w: Waypt) {
    && Short(Comment(w)) && Short(w.extra.phoneNr) && Telling(w.extra) && InRange(w.extra.sz)
    && w.extra.sz == if w.extra.mask == 0 then 0 else 2 + |AddressFields(w.extra)|
  }

  lemma OneRecord(f: seq<Byte>, fuel: nat, fuel': nat, end: int, pos: int, pos': int, tag: int, p: Poi, p': Poi)
    requires pos < end && fuel == fuel' + 1 && DetailAt(f, pos, fuel', tag, p, p', pos')
    ensures Passes(f, fuel, fuel', end, pos, pos', p, p')
  {
    var none: seq<Poi> := [];
    assert none + [] == none;
  }

  lemma PassesAlert(f: seq<Byte>, fuel: nat, fuel': nat, end: int, pos: int, pos': int, w: Waypt, p: Poi, p': Poi)
    requires RecordAt(f, AlertIf(w), fuel, fuel', end, pos, pos') && p' == WithAlert(w, p)
    ensures Passes(f, fuel, fuel', end, pos, pos', p, p')
  {
    if w.extra.alerts != 0 {
      ReadsAlertTag(f, pos, pos', fuel', w, p, p');
      OneRecord(f, fuel, fuel', end, pos, pos', 3, p, p');
    }
  }

  lemma PassesBitmap(f: seq<Byte>, fuel: nat, fuel': nat, end: int, pos: int, pos': int, o: Options, p: Poi)
    requires RecordAt(f, BitmapIf(o), fuel, fuel', end, pos, pos')
    ensures Passes(f, fuel, fuel', end, pos, pos', p, p)
  {
    if !o.hideBitmap {
      ReadsBitmapTag(f, pos, pos', fuel', p);
      OneRecord(f, fuel, fuel', end, pos, pos', 4, p, p);
    }
  }

  lemma PassesComment(f: seq<Byte>, fuel: nat, fuel': nat, end: int, pos: int, pos': int, w: Waypt, p: Poi, p': Poi)
    requires RecordAt(f, CommentIf(w), fuel, fuel', end, pos, pos')
    requires Legible(w) && p.description == None && p' == p.(description := Read(Comment(w)))
    ensures Passes(f, fuel, fuel', end, pos, pos', p, p')
  {
    if Comment(w).Some? {
      ReadsCommentTag(f, pos, pos', fuel', Comment(w).value, p, p');
      OneRecord(f, fuel, fuel', end, pos, pos', 0xa, p, p');
    }
  }

  lemma PassesAddress(f: seq<Byte>, fuel: nat, fuel': nat, end: int, pos: int, pos': int, w: Waypt, p: Poi, p': Poi)
    requires RecordAt(f, AddressIf(w), fuel, fuel', end, pos, pos')
    requires Legible(w) && NoAddress(p, 0) && p' == WithAddress(w.extra, p)
    ensures Passes(f, fuel, fuel', end, pos, pos', p, p')
  {
    if w.extra.sz != 0 {
      ReadsAddressTag(f, pos, pos', fuel', w.extra, p, p');
      OneRecord(f, fuel, fuel', end, pos, pos', 0x8000b, p, p');
    } else {
      NothingTold(w.extra, p);
    }
  }

  lemma NothingTold(e: Extra, p: Poi)
    requires Telling(e) && e.mask == 0 && NoAddress(p, 0)
    ensures WithAddress(e, p) == p
  {
    assert Source(e, 0) == None && Source(e, 1) == None && Source(e, 2) == None && Source(e, 3) == None && Source(e, 4) == None;
    assert Field(p, 0) == None && Field(p, 1) == None && Field(p, 2) == None && Field(p, 3) == None && Field(p, 4) == None;
  }

  lemma PassesPhone(f: seq<Byte>, fuel: nat, fuel': nat, end: int, pos: int, pos': int, w: Waypt, p: Poi, p': Poi)
    requires RecordAt(f, PhoneIf(w), fuel, fuel', end, pos, pos')
    requires Legible(w) && p.phoneNr == None && p' == p.(phoneNr := ReadShort(w.extra.phoneNr))
    ensures Passes(f, fuel, fuel', end, pos, pos', p, p')
  {
    if w.extra.phoneNr.Some? {
      ReadsPhoneTag(f, pos, pos', fuel', w.extra.phoneNr.value, p, p');
      OneRecord(f, fuel, fuel', end, pos, pos', 0x8000c, p, p');
    }
  }

  lemma ReadsBasics(f: seq<Byte>, pos: int, o: Options, w: Waypt)
    requires At(f, pos, Basics(o, w)) && Fits(o, w)
    ensures pos + 11 <= |f| && S32(f[pos..pos + 4]) == DegToSemi(w.lat) && S32(f[pos + 4..pos + 8]) == DegToSemi(w.lon)
    ensures ReadString(f, pos + 11) == Got(Some(Text(w.name)), pos + |Basics(o, w)|)
  {
    var lat, lon, one, alert := Le32(DegToSemi(w.lat)), Le32(DegToSemi(w.lon)), Le16(1), [if o.alerts then 1 else 0];
    AtFive(f, pos, lat, lon, one, alert, LongString(w.name));
    SemicircleRange(w.lat);
    SemicircleRange(w.lon);
    ReadsInt32(f, pos, DegToSemi(w.lat));
    ReadsInt32(f, pos + 4, DegToSemi(w.lon));
    ReadsLong(f, pos + 11, w.name);
  }

  lemma CutOptionals(f: seq<Byte>, fuel: nat, end: int, pos: int, o: Options, w: Waypt)
    returns (pos1: int, pos2: int, pos3: int, pos4: int, fuel1: nat, fuel2: nat, fuel3: nat, fuel4: nat, fuel5: nat)
    requires At(f, pos, Optionals(o, w)) && end == pos + |Optionals(o, w)| && fuel >= 5
    ensures RecordAt(f, AlertIf(w), fuel, fuel1, end, pos, pos1) && RecordAt(f, BitmapIf(o), fuel1, fuel2, end, pos1, pos2)
    ensures RecordAt(f, CommentIf(w), fuel2, fuel3, end, pos2, pos3) && RecordAt(f, AddressIf(w), fuel3, fuel4, end, pos3, pos4)
    ensures RecordAt(f, PhoneIf(w), fuel4, fuel5, end, pos4, end)
  {
    pos1, pos2, pos3, pos4 := FiveParts(f, end, pos, AlertIf(w), BitmapIf(o), CommentIf(w), AddressIf(w), PhoneIf(w));
    fuel1 := CutOne(f, AlertIf(w), fuel, end, pos, pos1);
    fuel2 := CutOne(f, BitmapIf(o), fuel1, end, pos1, pos2);
    fuel3 := CutOne(f, CommentIf(w), fuel2, end, pos2, pos3);
    fuel4 := CutOne(f, AddressIf(w), fuel3, end, pos3, pos4);
    fuel5 := CutOne(f, PhoneIf(w), fuel4, end, pos4, end);
  }

  // A record that may be absent lies between two positions.
  ghost predicate Between(f: seq<Byte>, r: seq<Byte>, end: int, pos: int, pos': int) {
    At(f, pos, r) && pos' == pos + |r| && pos' <= end
  }

  lemma FiveParts(f: seq<Byte>, end: int, pos: int, a: seq<Byte>, b: seq<Byte>, c: seq<Byte>, d: seq<Byte>, e: seq<Byte>)
    returns (pos1: int, pos2: int, pos3: int, pos4: int)
    requires At(f, pos, a + b + c + d + e) && end == pos + |a + b + c + d + e|
    ensures Between(f, a, end, pos, pos1) && Between(f, b, end, pos1, pos2) && Between(f, c, end, pos2, pos3)
    ensures Between(f, d, end, pos3, pos4) && Between(f, e, end, pos4, end)
  {
    AtFive(f, pos, a, b, c, d, e);
    pos1 := pos + |a|;
    pos2 := pos1 + |b|;
    pos3 := pos2 + |c|;
    pos4 := pos3 + |d|;
  }

  lemma CutOne(f: seq<Byte>, r: seq<Byte>, fuel: nat, end: int, pos: int, pos': int) returns (fuel': nat)
    requires Between(f, r, end, pos, pos') && fuel >= 1
    ensures RecordAt(f, r, fuel, fuel', end, pos, pos') && fuel' >= fuel - 1
  {
    fuel' := fuel - Steps(r);
  }

  // The optional records in turn, to the end of the waypoint.
  lemma ReadsOptionals(f: seq<Byte>, fuel: nat, end: int, pos: int, o: Options, w: Waypt)
    requires At(f, pos, Optionals(o, w)) && end == pos + |Optionals(o, w)| && fuel >= 5 && Legible(w)
    ensures ReadTags(f, fuel, end, pos, Some(Bare(w)), []) == Got(Step(true, Some(Completed(w)), []), end)
  {
    var pos1, pos2, pos3, pos4, fuel1, fuel2, fuel3, fuel4, fuel5 := CutOptionals(f, fuel, end, pos, o, w);
    var p := WithAlert(w, Bare(w));
    var p1 := p.(description := Read(Comment(w)));
    var p2 := WithAddress(w.extra, p1);
    var p3 := p2.(phoneNr := ReadShort(w.extra.phoneNr));
    PassesAlert(f, fuel, fuel1, end, pos, pos1, w, Bare(w), p);
    PassesBitmap(f, fuel1, fuel2, end, pos1, pos2, o, p);
    PassesComment(f, fuel2, fuel3, end, pos2, pos3, w, p, p1);
    PassesAddress(f, fuel3, fuel4, end, pos3, pos4, w, p1, p2);
    PassesPhone(f, fuel4, fuel5, end, pos4, end, w, p2, p3);
  }

  function Steps(r: seq<Byte>): nat {
    if r == [] then 0 else 1
  }

  lemma AnnotationIsLegible(o: Options, w: Waypt)
    requires w.extra == ExtraOf(o, w) && Fits(o, w) && FullSize(o, w) < 0x8000_0000
    ensures Legible(w)
  {
    MaskBits(Address(o, w), Fields(w));
    AddressIsSized(o, w);
    Tells(w.extra);
  }

  lemma Tells(e: Extra)
    requires e.mask < 32 && (HasBit(e.mask, ADDR_CITY) <==> e.city.Some?) && (HasBit(e.mask, ADDR_COUNTRY) <==> e.country.Some?)
    requires (HasBit(e.mask, ADDR_STATE) <==> e.state.Some?) && (HasBit(e.mask, ADDR_POSTAL_CODE) <==> e.postalCode.Some?)
    requires (HasBit(e.mask, ADDR_ADDR) <==> e.addr.Some?)
    requires Short(e.city) && Short(e.country) && Short(e.state) && Short(e.postalCode) && Short(e.addr)
    ensures Telling(e)
  {
  }

  // The waypoint as its basic part gives it, and with everything the optional records add.
  function Bare(w: Waypt): Poi {
    NewPoi(SemiToDeg(DegToSemi(w.lat)), SemiToDeg(DegToSemi(w.lon)), Some(Text(w.name)))
  }

  function Completed(w: Waypt): Poi {
    WithAddress(w.extra, WithAlert(w, Bare(w)).(description := Read(Comment(w)))).(phoneNr := ReadShort(w.extra.phoneNr))
  }

  lemma CompletedIsExpected(o: Options, w: Waypt)
    requires w == Annotated(o, w)
    ensures Shared(Completed(w)) == Expected(o, w)
  {
  }

  // From `start` to `end` the reader makes p of the basic part and p' of the records behind it.
  ghost predicate BodyReads(f: seq<Byte>, start: int, fuel: nat, end: int, next: int, p: Poi, p': Poi) {
    && 0 <= start && start + 11 <= |f| && 0 <= end < 0x8000_0000
    && p == NewPoi(SemiToDeg(S32(f[start..start + 4])), SemiToDeg(S32(f[start + 4..start + 8])), p.name)
    && ReadString(f, start + 11) == Got(p.name, next)
    && ReadTags(f, fuel, end, next, Some(p), []) == Got(Step(true, Some(p'), []), end)
  }

  predicate Ready(o: Options, w: Waypt) {
    w == Annotated(o, w) && Fits(o, w)
  }

  // A waypoint's record lies between two positions: its header, then its body.
  ghost predicate PoiSplit(f: seq<Byte>, pos: int, pos': int, o: Options, w: Waypt) {
    && HeaderReads(f, pos, 0x80002, FullSize(o, w)) && At(f, pos + 12, Basics(o, w) + Optionals(o, w))
    && pos' == pos + 12 + FullSize(o, w) < 0x8000_0000 && Ready(o, w)
  }

  lemma SplitsPoi(f: seq<Byte>, pos: int, pos': int, o: Options, w: Waypt)
    requires At(f, pos, WritePoi(o, w)) && |f| < 0x8000_0000 && pos' == pos + |WritePoi(o, w)|
    requires Ready(o, w)
    ensures PoiSplit(f, pos, pos', o, w)
  {
    PoiIsSized(o, w);
    RecordHeader(f, pos, 0x80002, FullSize(o, w), BasicSize(w), Basics(o, w) + Optionals(o, w));
  }

  // The part of a waypoint's record behind its two size fields.
  lemma ReadsBody(f: seq<Byte>, pos: int, start: int, pos': int, fuel: nat, o: Options, w: Waypt) returns (next: int)
    requires PoiSplit(f, pos, pos', o, w) && fuel >= 5 && start == pos + 12
    ensures BodyReads(f, start, fuel, pos', next, Bare(w), Completed(w))
  {
    next := BodyParts(f, pos, start, pos', o, w);
    ReadsBasics(f, start, o, w);
    AnnotationIsLegible(o, w);
    ReadsOptionals(f, fuel, pos', next, o, w);
  }

  lemma BodyParts(f: seq<Byte>, pos: int, start: int, pos': int, o: Options, w: Waypt) returns (next: int)
    requires PoiSplit(f, pos, pos', o, w) && start == pos + 12
    ensures At(f, start, Basics(o, w)) && next == start + |Basics(o, w)|
    ensures At(f, next, Optionals(o, w)) && pos' == next + |Optionals(o, w)|
  {
    PoiIsSized(o, w);
    next := start + |Basics(o, w)|;
    AtSplit(f, start, Basics(o, w), Optionals(o, w));
  }

  // A waypoint's record, its contents already known to read well.
  lemma PoiIsRead(f: seq<Byte>, pos: int, start: int, pos': int, fuel: nat, fuel': nat, size: int, next: int, p: Poi, p': Poi)
    requires HeaderReads(f, pos, 0x80002, size) && BodyReads(f, start, fuel', pos', next, p, p')
    requires start == pos + 12 && pos' == start + size && fuel == fuel' + 1
    ensures ReadAt(f, pos, fuel, 0x80002, pos', [Shared(p')])
  {
    BodyIsRead(f, pos + 8, start, pos', fuel', size + 4, next, p, p');
  }

  lemma BodyIsRead(f: seq<Byte>, at: int, start: int, pos': int, fuel: nat, sz: int, next: int, p: Poi, p': Poi)
    requires BodyReads(f, start, fuel, pos', next, p, p') && start == at + 4 && pos' == start + sz - 4
    ensures ReadPoi(f, fuel, sz, 0x80002, at) == Got([Shared(p')], pos')
  {
    var none: seq<Poi> := [];
    assert none + [Shared(p')] == [Shared(p')];
    assert Unsigned(start + sz - 4) == pos';
  }

  /** One waypoint's record, read from where its tag stands. */
  lemma ReadsPoi(f: seq<Byte>, pos: int, pos': int, fuel: nat, o: Options, w: Waypt)
    requires PoiSplit(f, pos, pos', o, w) && fuel >= 6
    ensures ReadAt(f, pos, fuel, 0x80002, pos', [Shared(Completed(w))])
  {
    var start, fuel', size := pos + 12, fuel - 1, FullSize(o, w);
    var next := ReadsBody(f, pos, start, pos', fuel', o, w);
    PoiIsRead(f, pos, start, pos', fuel, fuel', size, next, Bare(w), Completed(w));
  }

  // ---------------------------------------------------------------- all waypoints of a block

  predicate AllReady(o: Options, q: seq<Waypt>) {
    forall i | 0 <= i < |q| :: Ready(o, q[i])
  }

  // With nothing but found waypoints to carry, the tag loop gets from one point to the other.
  ghost predicate Reaches(f: seq<Byte>, fuel: nat, fuel': nat, end: int, pos: int, pos': int, found: seq<Poi>, found': seq<Poi>) {
    ReadTags(f, fuel, end, pos, None, found) == ReadTags(f, fuel', end, pos', None, found')
  }

  // Wherever these bytes stand, the reader finds this waypoint in them.
  ghost predicate Readable(r: seq<Byte>, p: Poi) {
    && |r| >= 31
    && forall f: seq<Byte>, pos: int, pos': int, fuel: nat | At(f, pos, r) && |f| < 0x8000_0000 && fuel >= 6 && pos' == pos + |r| ::
      ReadAt(f, pos, fuel, 0x80002, pos', [p])
  }

  lemma PoiIsReadable(o: Options, w: Waypt)
    requires Ready(o, w)
    ensures Readable(WritePoi(o, w), Expected(o, w))
  {
    PoiIsSized(o, w);
    CompletedIsExpected(o, w);
    forall f: seq<Byte>, pos: int, pos': int, fuel: nat | At(f, pos, WritePoi(o, w)) && |f| < 0x8000_0000 && fuel >= 6 && pos' == pos + |WritePoi(o, w)|
      ensures ReadAt(f, pos, fuel, 0x80002, pos', [Expected(o, w)])
    {
      SplitsPoi(f, pos, pos', o, w);
      ReadsPoi(f, pos, pos', fuel, o, w);
    }
  }

  function Joined(rs: seq<seq<Byte>>): seq<Byte> {
    if rs == [] then [] else Joined(rs[..|rs| - 1]) + rs[|rs| - 1]
  }

  ghost predicate AllReadable(rs: seq<seq<Byte>>, ps: seq<Poi>) {
    |rs| == |ps| && forall i | 0 <= i < |rs| :: Readable(rs[i], ps[i])
  }

  function Records(o: Options, q: seq<Waypt>): (rs: seq<seq<Byte>>)
    ensures |rs| == |q|
  {
    if q == [] then [] else Records(o, q[..|q| - 1]) + [WritePoi(o, q[|q| - 1])]
  }

  lemma {:induction false} RecordsAreReadable(o: Options, q: seq<Waypt>)
    requires AllReady(o, q)
    ensures AllReadable(Records(o, q), AllExpected(o, q)) && Joined(Records(o, q)) == WritePois(o, q)
  {
    if q != [] {
      var front, w := q[..|q| - 1], q[|q| - 1];
      RecordsAreReadable(o, front);
      PoiIsReadable(o, w);
      assert Records(o, q)[..|q| - 1] == Records(o, front);
    }
  }

  ghost predicate RecordsAt(f: seq<Byte>, pos: int, pos': int, rs: seq<seq<Byte>>, ps: seq<Poi>) {
    At(f, pos, Joined(rs)) && pos' == pos + |Joined(rs)| && |f| < 0x8000_0000 && AllReadable(rs, ps)
  }

  lemma LastRecord(f: seq<Byte>, pos: int, pos': int, rs: seq<seq<Byte>>, ps: seq<Poi>, n: nat) returns (mid: int)
    requires RecordsAt(f, pos, pos', rs, ps) && |rs| == n + 1
    ensures RecordsAt(f, pos, mid, rs[..n], ps[..n]) && At(f, mid, rs[n]) && Readable(rs[n], ps[n]) && pos' == mid + |rs[n]|
  {
    mid := pos + |Joined(rs[..n])|;
    AtSplit(f, pos, Joined(rs[..n]), rs[n]);
  }

  lemma IsRead(f: seq<Byte>, r: seq<Byte>, p: Poi, pos: int, pos': int, fuel: nat)
    requires Readable(r, p) && At(f, pos, r) && |f| < 0x8000_0000 && fuel >= 6 && pos' == pos + |r|
    ensures ReadAt(f, pos, fuel, 0x80002, pos', [p])
  {
  }

  lemma {:induction false} ReachesRecords(f: seq<Byte>, fuel: nat, fuel': nat, end: int, pos: int, pos': int, rs: seq<seq<Byte>>, ps: seq<Poi>, found: seq<Poi>)
    requires RecordsAt(f, pos, pos', rs, ps) && pos' <= end + 4 && fuel >= pos' - pos && fuel' == fuel - |rs|
    ensures |Joined(rs)| >= 31 * |rs|
    ensures Reaches(f, fuel, fuel', end, pos, pos', found, found + ps)
    decreases |rs|
  {
    RecordsAreLong(rs, ps);
    if rs == [] {
      Units(found);
    } else {
      var n := |rs| - 1;
      var ps', p := ps[..n], ps[n];
      var mid := LastRecord(f, pos, pos', rs, ps, n);
      ReachesRecords(f, fuel, fuel' + 1, end, pos, mid, rs[..n], ps', found);
      IsRead(f, rs[n], p, mid, pos', fuel');
      Associate(found, ps', [p]);
      assert ps' + [p] == ps;
      OneTag(f, fuel' + 1, fuel', end, mid, pos', 0x80002, found + ps', [p], found + ps);
    }
  }

  lemma {:induction false} RecordsAreLong(rs: seq<seq<Byte>>, ps: seq<Poi>)
    requires AllReadable(rs, ps)
    ensures |Joined(rs)| >= 31 * |rs|
  {
    if rs != [] {
      var n := |rs| - 1;
      RecordsAreLong(rs[..n], ps[..n]);
      assert Readable(rs[n], ps[n]);
    }
  }

  // ---------------------------------------------------------------- nested blocks

  function TreeExpected(o: Options, t: QTree): seq<Poi> {
    match t
    case NoBlock => []
    case Block(q, _, _, _, _, a, b, c, d) =>
      AllExpected(o, q) + TreeExpected(o, a) + TreeExpected(o, b) + TreeExpected(o, c) + TreeExpected(o, d)
  }

  predicate AllFit(o: Options, q: seq<Waypt>) {
    forall i | 0 <= i < |q| :: Fits(o, q[i])
  }

  predicate TreeFits(o: Options, t: QTree) {
    t.Block? ==>
      && AllFit(o, t.q) && TreeFits(o, t.topLeft) && TreeFits(o, t.topRight)
      && TreeFits(o, t.bottomLeft) && TreeFits(o, t.bottomRight)
  }

  lemma {:induction false} AnnotatedAreReady(o: Options, q: seq<Waypt>)
    requires AllFit(o, q)
    ensures AllReady(o, AnnotatedAll(o, q)) && AllExpected(o, AnnotatedAll(o, q)) == AllExpected(o, q)
  {
    if q != [] {
      var front, w := q[..|q| - 1], q[|q| - 1];
      AnnotatedAreReady(o, front);
      var r, r' := AnnotatedAll(o, q), AnnotatedAll(o, front);
      assert r[..|r| - 1] == r';
      AnnotatedIsReady(o, w);
    }
  }

  lemma AnnotatedIsReady(o: Options, w: Waypt)
    requires Fits(o, w)
    ensures Ready(o, Annotated(o, w)) && Expected(o, Annotated(o, w)) == Expected(o, w)
  {
  }

  // A block's bytes lie between two positions.
  ghost predicate BlockAt(f: seq<Byte>, pos: int, pos': int, o: Options, t: QTree) {
    At(f, pos, WriteBlock(o, Sized(o, t))) && pos' == pos + |WriteBlock(o, Sized(o, t))|
  }

  // Reading it takes one turn, if there is one.
  function Turns(t: QTree): nat {
    if t.Block? then 1 else 0
  }

  lemma ReachesBlock(f: seq<Byte>, fuel: nat, fuel': nat, end: int, pos: int, pos': int, o: Options, t: QTree, found: seq<Poi>)
    requires BlockAt(f, pos, pos', o, t) && pos' <= end + 4 && |f| < 0x8000_0000
    requires TreeFits(o, t) && fuel > pos' - pos && fuel' == fuel - Turns(t)
    ensures Reaches(f, fuel, fuel', end, pos, pos', found, found + TreeExpected(o, t))
    decreases t, 3
  {
    if t.Block? {
      SplitsBlock(f, pos, pos', o, t);
      ReadsBlock(f, pos, pos', fuel', o, t);
      OneTag(f, fuel, fuel', end, pos, pos', 0x80008, found, TreeExpected(o, t), found + TreeExpected(o, t));
    } else {
      assert found + [] == found;
    }
  }

  // A block's record lies between two positions: its header, then what is inside.
  ghost predicate BlockSplit(f: seq<Byte>, pos: int, pos': int, o: Options, t: QTree) {
    && t.Block? && HeaderReads(f, pos, 0x80008, Sized(o, t).sz) && pos + 35 <= pos' <= |f| < 0x8000_0000
    && pos' == pos + 12 + Sized(o, t).sz && At(f, pos + 35, WriteInside(o, Sized(o, t)))
    && |WriteInside(o, Sized(o, t))| == pos' - (pos + 35)
  }

  lemma SplitsBlock(f: seq<Byte>, pos: int, pos': int, o: Options, t: QTree)
    requires t.Block? && BlockAt(f, pos, pos', o, t) && |f| < 0x8000_0000
    ensures BlockSplit(f, pos, pos', o, t)
  {
    var s := Sized(o, t);
    BlockIsSized(o, t);
    var head, inside := BlockHead(s.bds, s.alert), WriteInside(o, s);
    BlockBytes(o, s, head, inside);
    RecordHeader(f, pos, 0x80008, s.sz, 23, head + inside);
    AtSplit(f, pos + 12, head, inside);
  }

  lemma BlockBytes(o: Options, s: QTree, head: seq<Byte>, inside: seq<Byte>)
    requires s.Block? && head == BlockHead(s.bds, s.alert) && inside == WriteInside(o, s)
    ensures WriteBlock(o, s) == Le32(0x80008) + Le32(s.sz) + Le32(23) + (head + inside)
  {
  }

  /** A block's record, read from where its tag stands: everything in it and below it, in order. */
  lemma ReadsBlock(f: seq<Byte>, pos: int, pos': int, fuel: nat, o: Options, t: QTree)
    requires BlockSplit(f, pos, pos', o, t) && TreeFits(o, t) && fuel >= pos' - pos
    ensures ReadAt(f, pos, fuel, 0x80008, pos', TreeExpected(o, t))
    decreases t, 2
  {
    var start := pos + 35;
    var fuel', end, size, found := fuel - 1, pos' - 4, Sized(o, t).sz, TreeExpected(o, t);
    ReadsInside(f, start, pos', fuel', end, o, t);
    ListTag(f, fuel, fuel', pos, start, end, size, pos', found);
  }

  // The tag loop finds these waypoints between pos and pos' and ends there.
  ghost predicate LoopFinds(f: seq<Byte>, fuel: nat, end: int, pos: int, pos': int, found: seq<Poi>) {
    ReadTags(f, fuel, end, pos, None, []) == Got(Step(true, None, found), pos')
  }

  lemma ListTag(f: seq<Byte>, fuel: nat, fuel': nat, pos: int, start: int, end: int, size: int, pos': int, found: seq<Poi>)
    requires fuel == fuel' + 1 && HeaderReads(f, pos, 0x80008, size) && pos' == pos + 12 + size && end == pos' - 4
    requires start == pos + 35 <= pos' <= |f| < 0x8000_0000 && LoopFinds(f, fuel', end, start, pos', found)
    ensures ReadAt(f, pos, fuel, 0x80008, pos', found)
  {
    assert Unsigned(pos + 8 + (size + 4) - 4) == end;
    assert ReadList(f, fuel', size + 4, pos + 8) == Got(found, pos');
  }

  // The waypoints and nested blocks behind a block's header.
  lemma ReadsInside(f: seq<Byte>, pos: int, pos': int, fuel: nat, end: int, o: Options, t: QTree)
    requires t.Block? && At(f, pos, WriteInside(o, Sized(o, t))) && |WriteInside(o, Sized(o, t))| == pos' - pos && end == pos' - 4
    requires |f| < 0x8000_0000 && TreeFits(o, t) && fuel >= pos' - pos + 34
    ensures LoopFinds(f, fuel, end, pos, pos', TreeExpected(o, t))
    decreases t, 1
  {
    var c := Parts(f, pos, pos', o, t);
    var fuel1 := fuel - |t.q|;
    ReachesRecords(f, fuel, fuel1, end, pos, c.q, Records(o, AnnotatedAll(o, t.q)), AllExpected(o, t.q), []);
    Units(AllExpected(o, t.q));
    ReachesFour(f, fuel1, end, c, pos', o, t, AllExpected(o, t.q));
  }

  // Where the parts of a block's inside end: its waypoints and the first three nested blocks.
  datatype Cuts = Cuts(q: int, tl: int, tr: int, bl: int)

  ghost predicate FourAt(f: seq<Byte>, c: Cuts, pos': int, o: Options, t: QTree)
    requires t.Block?
  {
    && BlockAt(f, c.q, c.tl, o, t.topLeft) && BlockAt(f, c.tl, c.tr, o, t.topRight)
    && BlockAt(f, c.tr, c.bl, o, t.bottomLeft) && BlockAt(f, c.bl, pos', o, t.bottomRight)
  }

  lemma Parts(f: seq<Byte>, pos: int, pos': int, o: Options, t: QTree) returns (c: Cuts)
    requires t.Block? && At(f, pos, WriteInside(o, Sized(o, t))) && |WriteInside(o, Sized(o, t))| == pos' - pos
    requires |f| < 0x8000_0000 && TreeFits(o, t)
    ensures RecordsAt(f, pos, c.q, Records(o, AnnotatedAll(o, t.q)), AllExpected(o, t.q)) && 31 * |t.q| <= c.q - pos
    ensures FourAt(f, c, pos', o, t)
  {
    var q := AnnotatedAll(o, t.q);
    var r, a, b := WritePois(o, q), WriteBlock(o, Sized(o, t.topLeft)), WriteBlock(o, Sized(o, t.topRight));
    var e, d := WriteBlock(o, Sized(o, t.bottomLeft)), WriteBlock(o, Sized(o, t.bottomRight));
    InsideBytes(o, t, r, a, b, e, d);
    c := AtFiveEnds(f, pos, pos', r, a, b, e, d);
    AnnotatedAreReady(o, t.q);
    RecordsAreReadable(o, q);
    RecordsAreLong(Records(o, q), AllExpected(o, q));
  }

  lemma InsideBytes(o: Options, t: QTree, r: seq<Byte>, a: seq<Byte>, b: seq<Byte>, c: seq<Byte>, d: seq<Byte>)
    requires t.Block? && r == WritePois(o, AnnotatedAll(o, t.q))
    requires a == WriteBlock(o, Sized(o, t.topLeft)) && b == WriteBlock(o, Sized(o, t.topRight))
    requires c == WriteBlock(o, Sized(o, t.bottomLeft)) && d == WriteBlock(o, Sized(o, t.bottomRight))
    ensures WriteInside(o, Sized(o, t)) == r + a + b + c + d
  {
  }

  lemma AtFiveEnds(f: seq<Byte>, pos: int, pos': int, r: seq<Byte>, a: seq<Byte>, b: seq<Byte>, e: seq<Byte>, d: seq<Byte>) returns (c: Cuts)
    requires At(f, pos, r + a + b + e + d) && |r + a + b + e + d| == pos' - pos
    ensures At(f, pos, r) && At(f, c.q, a) && At(f, c.tl, b) && At(f, c.tr, e) && At(f, c.bl, d)
    ensures c.q == pos + |r| && c.tl == c.q + |a| && c.tr == c.tl + |b| && c.bl == c.tr + |e| && pos' == c.bl + |d|
  {
    AtFive(f, pos, r, a, b, e, d);
    c := Cuts(pos + |r|, pos + |r| + |a|, pos + |r| + |a| + |b|, pos + |r| + |a| + |b| + |e|);
  }

  lemma ReachesFour(f: seq<Byte>, fuel: nat, end: int, c: Cuts, pos': int, o: Options, t: QTree, found: seq<Poi>)
    requires t.Block? && TreeFits(o, t) && |f| < 0x8000_0000
    requires FourAt(f, c, pos', o, t) && end == pos' - 4 && fuel >= pos' - c.q + 5
    ensures ReadTags(f, fuel, end, c.q, None, found)
      == Got(Step(true, None, found + TreeExpected(o, t.topLeft) + TreeExpected(o, t.topRight) + TreeExpected(o, t.bottomLeft) + TreeExpected(o, t.bottomRight)), pos')
    decreases t, 0
  {
    var fuel1 := fuel - Turns(t.topLeft);
    var fuel2 := fuel1 - Turns(t.topRight);
    var fuel3 := fuel2 - Turns(t.bottomLeft);
    var fuel4 := fuel3 - Turns(t.bottomRight);
    var found1 := found + TreeExpected(o, t.topLeft);
    var found2 := found1 + TreeExpected(o, t.topRight);
    var found3 := found2 + TreeExpected(o, t.bottomLeft);
    ReachesBlock(f, fuel, fuel1, end, c.q, c.tl, o, t.topLeft, found);
    ReachesBlock(f, fuel1, fuel2, end, c.tl, c.tr, o, t.topRight, found1);
    ReachesBlock(f, fuel2, fuel3, end, c.tr, c.bl, o, t.bottomLeft, found2);
    ReachesBlock(f, fuel3, fuel4, end, c.bl, pos', o, t.bottomRight, found3);
    Finished(f, fuel4, end, pos', found3 + TreeExpected(o, t.bottomRight));
  }

  lemma Finished(f: seq<Byte>, fuel: nat, end: int, pos: int, found: seq<Poi>)
    requires pos >= end
    ensures ReadTags(f, fuel, end, pos, None, found) == Got(Step(true, None, found), pos)
  {
  }

  // ---------------------------------------------------------------- the category and the file

  // The category's record between two positions: header, name, block and image.
  ghost predicate GroupSplit(f: seq<Byte>, pos: int, pos': int, start: int, end: int, o: Options, t: QTree, image: seq<Byte>) {
    && HeaderReads(f, pos, 0x80009, pos' - (pos + 12)) && pos' <= |f| < 0x8000_0000
    && ReadString(f, pos + 12) == Got(Some(Text(o.category)), start) && pos + 12 <= start
    && BlockAt(f, start, end, o, t) && At(f, end, ImageTag(o, image)) && pos' == end + |ImageTag(o, image)|
  }

  lemma SplitsGroup(f: seq<Byte>, pos: int, pos': int, o: Options, t: QTree, image: seq<Byte>) returns (start: int, end: int)
    requires At(f, pos, WriteCategory(o, Sized(o, t), image)) && pos' == pos + |WriteCategory(o, Sized(o, t), image)|
    requires |f| < 0x8000_0000 && |o.category| + 4 < 32768
    ensures GroupSplit(f, pos, pos', start, end, o, t, image)
  {
    var s := Sized(o, t);
    CategoryIsSized(o, t, image);
    var body, img := CategoryBody(o, s), ImageTag(o, image);
    var sub, inside := CategorySize(o, s), pos + 12;
    var size := sub + |img|;
    CategoryParts(f, pos, o, s, image, size, sub, inside, body, img);
    start, end := SplitsGroupBody(f, inside, o, t);
    GroupSplits(f, pos, pos', size, inside, start, end, o, t, image);
  }

  lemma CategoryParts(f: seq<Byte>, pos: int, o: Options, s: QTree, image: seq<Byte>, size: nat, sub: nat, inside: int, body: seq<Byte>, img: seq<Byte>)
    requires At(f, pos, WriteCategory(o, s, image)) && |f| < 0x8000_0000 && inside == pos + 12
    requires sub == CategorySize(o, s) == |body| && body == CategoryBody(o, s) && img == ImageTag(o, image) && size == sub + |img|
    ensures HeaderReads(f, pos, 0x80009, size) && At(f, inside, body) && At(f, inside + |body|, img) && inside + size <= |f|
  {
    CategoryBytes(o, s, image, size, sub, body, img);
    SizeInRange(f, pos, Le32(0x80009) + Le32(size) + Le32(sub), body + img, size);
    RecordHeader(f, pos, 0x80009, size, sub, body + img);
    AtSplit(f, inside, body, img);
  }

  lemma SizeInRange(f: seq<Byte>, pos: int, head: seq<Byte>, rest: seq<Byte>, size: nat)
    requires At(f, pos, head + rest) && |f| < 0x8000_0000 && size == |rest|
    ensures InRange(size) && pos + |head| + size <= |f|
  {
  }

  lemma CategoryBytes(o: Options, s: QTree, image: seq<Byte>, size: nat, sub: nat, body: seq<Byte>, img: seq<Byte>)
    requires sub == CategorySize(o, s) && body == CategoryBody(o, s) && img == ImageTag(o, image) && size == sub + |img|
    ensures WriteCategory(o, s, image) == Le32(0x80009) + Le32(size) + Le32(sub) + (body + img)
  {
  }

  lemma GroupSplits(f: seq<Byte>, pos: int, pos': int, size: int, inside: int, start: int, end: int, o: Options, t: QTree, image: seq<Byte>)
    requires HeaderReads(f, pos, 0x80009, size) && inside == pos + 12 && pos' == inside + size <= |f| < 0x8000_0000
    requires ReadString(f, inside) == Got(Some(Text(o.category)), start) && inside <= start
    requires BlockAt(f, start, end, o, t) && At(f, end, ImageTag(o, image)) && pos' == end + |ImageTag(o, image)|
    ensures GroupSplit(f, pos, pos', start, end, o, t, image)
  {
  }

  lemma SplitsGroupBody(f: seq<Byte>, pos: int, o: Options, t: QTree) returns (start: int, end: int)
    requires At(f, pos, CategoryBody(o, Sized(o, t))) && |o.category| + 4 < 32768
    ensures ReadString(f, pos) == Got(Some(Text(o.category)), start) && pos <= start
    ensures BlockAt(f, start, end, o, t) && end == pos + |CategoryBody(o, Sized(o, t))|
  {
    var name, block := LongString(o.category), WriteBlock(o, Sized(o, t));
    AtSplit(f, pos, name, block);
    ReadsLong(f, pos, o.category);
    start := pos + |name|;
    end := start + |block|;
  }

  lemma ReachesImage(f: seq<Byte>, fuel: nat, pos: int, pos': int, o: Options, image: seq<Byte>, found: seq<Poi>)
    requires At(f, pos, ImageTag(o, image)) && pos' == pos + |ImageTag(o, image)| <= |f| < 0x8000_0000 && fuel >= 1
    ensures ReadTags(f, fuel, pos', pos, None, found) == Got(Step(true, None, found), pos')
  {
    if ShowsBitmap(o, image) {
      ReadsHeader(f, pos, 5, |image|, image);
      Units(found);
      OneTag(f, fuel, fuel - 1, pos', pos, pos', 5, found, [], found);
    }
  }

  ghost predicate GroupHead(f: seq<Byte>, pos: int, pos': int, size: int, start: int, name: Option<Str>) {
    && HeaderReads(f, pos, 0x80009, size) && pos' == pos + 12 + size <= |f| < 0x8000_0000
    && ReadString(f, pos + 12) == Got(name, start)
  }

  lemma HeadOfGroup(f: seq<Byte>, pos: int, pos': int, start: int, end: int, o: Options, t: QTree, image: seq<Byte>) returns (size: int)
    requires GroupSplit(f, pos, pos', start, end, o, t, image)
    ensures GroupHead(f, pos, pos', size, start, Some(Text(o.category)))
  {
    size := pos' - (pos + 12);
  }

  lemma GroupIsRead(f: seq<Byte>, pos: int, pos': int, fuel: nat, fuel': nat, size: int, start: int, name: Option<Str>, found: seq<Poi>)
    requires GroupHead(f, pos, pos', size, start, name) && LoopFinds(f, fuel', pos', start, pos', found) && fuel == fuel' + 1
    ensures ReadAt(f, pos, fuel, 0x80009, pos', found)
  {
    assert Unsigned(pos + 8 + (size + 4)) == pos';
    assert ReadGroup(f, fuel', size + 4, 0x80009, pos + 8) == Got(found, pos');
  }

  // The name read, the block and the image remain.
  lemma ReadsGroupBody(f: seq<Byte>, pos: int, pos': int, fuel: nat, start: int, end: int, o: Options, t: QTree, image: seq<Byte>, found: seq<Poi>)
    requires GroupSplit(f, pos, pos', start, end, o, t, image) && fuel >= pos' - pos - 1
    requires t.Block? && TreeFits(o, t) && found == TreeExpected(o, t)
    ensures LoopFinds(f, fuel, pos', start, pos', found)
  {
    var fuel' := fuel - 1;
    ReachesBlock(f, fuel, fuel', pos', start, end, o, t, []);
    Units(found);
    ReachesImage(f, fuel', end, pos', o, image, found);
  }

  /** The whole category, with or without a bitmap. */
  lemma ReadsCategory(f: seq<Byte>, pos: int, pos': int, fuel: nat, start: int, end: int, o: Options, t: QTree, image: seq<Byte>, found: seq<Poi>)
    requires GroupSplit(f, pos, pos', start, end, o, t, image) && fuel >= pos' - pos
    requires t.Block? && TreeFits(o, t) && found == TreeExpected(o, t)
    ensures ReadAt(f, pos, fuel, 0x80009, pos', found)
  {
    var fuel' := fuel - 1;
    ReadsGroupBody(f, pos, pos', fuel', start, end, o, t, image, found);
    var size := HeadOfGroup(f, pos, pos', start, end, o, t, image);
    GroupIsRead(f, pos, pos', fuel, fuel', size, start, Some(Text(o.category)), found);
  }

  lemma FileEnds(f: seq<Byte>, pos: int, pos': int, fuel: nat, fuel': nat, found: seq<Poi>)
    requires fuel == fuel' + 1 && ReadAt(f, pos, fuel', 0x80009, pos', found) && At(f, pos', Le32(0xffff))
    ensures FileRead(f, fuel, pos, found)
  {
    ReadsInt32(f, pos', 0xffff);
    Units(found);
  }

  ghost predicate FileRead(f: seq<Byte>, fuel: nat, pos: int, found: seq<Poi>) {
    var r := ReadFile(f, fuel, pos, []);
    r.Got? && r.val == found
  }

  lemma {:induction false} ExpectedOfPoints(o: Options, p: seq<Waypt>, q: seq<Waypt>)
    ensures AllExpected(o, p + q) == AllExpected(o, p) + AllExpected(o, q)
  {
    if q == [] {
      assert p + q == p;
    } else {
      var front, w := q[..|q| - 1], q[|q| - 1];
      assert (p + q)[..|p + q| - 1] == p + front;
      ExpectedOfPoints(o, p, front);
    }
  }

  /** The waypoints come back in the order the tree lists them. */
  lemma {:induction false} TreeInOrder(o: Options, t: QTree)
    ensures TreeExpected(o, t) == AllExpected(o, Points(t))
  {
    if t.Block? {
      var a, b, c, d := Points(t.topLeft), Points(t.topRight), Points(t.bottomLeft), Points(t.bottomRight);
      TreeInOrder(o, t.topLeft);
      TreeInOrder(o, t.topRight);
      TreeInOrder(o, t.bottomLeft);
      TreeInOrder(o, t.bottomRight);
      ExpectedOfPoints(o, t.q, a);
      ExpectedOfPoints(o, t.q + a, b);
      ExpectedOfPoints(o, t.q + a + b, c);
      ExpectedOfPoints(o, t.q + a + b + c, d);
    }
  }

  lemma {:induction false} PointsFit(o: Options, t: QTree)
    requires forall w | w in Points(t) :: Fits(o, w)
    ensures TreeFits(o, t)
  {
    if t.Block? {
      forall i | 0 <= i < |t.q| ensures Fits(o, t.q[i]) {
        assert t.q[i] in Points(t);
      }
      PointsFit(o, t.topLeft);
      PointsFit(o, t.topRight);
      PointsFit(o, t.bottomLeft);
      PointsFit(o, t.bottomRight);
    }
  }

  /** Writing and reading back: split any waypoints into blocks, size and write them under a category,
      and the reader returns exactly those waypoints, each once, in the order of the blocks, their positions
      to within a semicircle and their texts as they were. */
  lemma RoundTrip(f: seq<Byte>, pos: int, fuel: nat, o: Options, q: seq<Waypt>, image: seq<Byte>)
    requires GpiSplit.AllSane(q) && (forall w | w in q :: Fits(o, w)) && |o.category| + 4 < 32768
    requires At(f, pos, WriteCategory(o, Sized(o, GpiSplit.Split(q)), image) + Le32(0xffff))
    requires |f| < 0x8000_0000 && fuel > |f|
    ensures var points := Points(GpiSplit.Split(q));
      && multiset(points) == multiset(q)
      && ReadFile(f, fuel, pos, []).Got? && ReadFile(f, fuel, pos, []).val == AllExpected(o, points)
      && AllBack(o, points, AllExpected(o, points))
  {
    SplitFits(o, q);
    var t := GpiSplit.Split(q);
    AllExpectedAreBack(o, Points(t));
    TreeInOrder(o, t);
    ReadsFile(f, pos, fuel, o, t, image);
  }

  lemma SplitFits(o: Options, q: seq<Waypt>)
    requires GpiSplit.AllSane(q) && (forall w | w in q :: Fits(o, w))
    ensures var t := GpiSplit.Split(q); t.Block? && TreeFits(o, t) && multiset(Points(t)) == multiset(q)
  {
    var t := GpiSplit.Split(q);
    GpiSplit.SplitIsOrganised(q);
    forall w | w in Points(t) ensures Fits(o, w) {
      assert w in multiset(Points(t));
    }
    PointsFit(o, t);
  }

  lemma ReadsFile(f: seq<Byte>, pos: int, fuel: nat, o: Options, t: QTree, image: seq<Byte>)
    requires At(f, pos, WriteCategory(o, Sized(o, t), image) + Le32(0xffff))
    requires |f| < 0x8000_0000 && t.Block? && TreeFits(o, t) && |o.category| + 4 < 32768 && fuel > |f|
    ensures ReadFile(f, fuel, pos, []).Got? && ReadFile(f, fuel, pos, []).val == TreeExpected(o, t)
  {
    var bytes := WriteCategory(o, Sized(o, t), image);
    var pos' := pos + |bytes|;
    var fuel', found := fuel - 1, TreeExpected(o, t);
    AtSplit(f, pos, bytes, Le32(0xffff));
    var start, end := SplitsGroup(f, pos, pos', o, t, image);
    ReadsCategory(f, pos, pos', fuel', start, end, o, t, image, found);
    FileEnds(f, pos, pos', fuel, fuel', found);
  }
}
