// Tags and image file directories of an Exif segment, and how their values become bytes.
module ExifModel {
  import opened Bytes
  import opened ExifLayout

  const EXIF_IFD := 2
  const GPS_IFD := 3
  const INTER_IFD := 4

  const TAG_EXIF_IFD := 0x8769
  const TAG_GPS_IFD := 0x8825
  const TAG_INTER_IFD := 0xA005
  const TAG_JPEG_OFFS := 0x0201
  const TAG_GPS_VERSION := 0x0000

  const TYPE_LONG := 4
  const TYPE_FLOAT := 11
  const TYPE_DOUBLE := 12

  // The data are the bytes of the value as they lie in the memory of a little-endian host, four at least.
  datatype Tag = Tag(id: nat, typ: nat, count: nat, size: nat, data: seq<Byte>)

  datatype Ifd = Ifd(nr: nat, tags: seq<Tag>)

  predicate ByteType(t: nat) { t == 1 || t == 2 || t == 7 }
  predicate WordType(t: nat) { t == 3 || t == 8 }
  predicate LongType(t: nat) { t == 4 || t == 9 || t == 13 }
  predicate RatType(t: nat) { t == 5 || t == 10 }

  // Bytes per item; 0 for a type the program gives up on.
  function TypeSize(t: nat): nat {
    if ByteType(t) then 1
    else if WordType(t) || t == 14 then 2
    else if LongType(t) || t == TYPE_FLOAT then 4
    else if RatType(t) || t == TYPE_DOUBLE || t in {16, 17, 18} then 8
    else 0
  }

  // Types whose out-of-line values the writer knows. The others fall into a default branch that
  // puts them into the wrong stream.
  predicate Known(t: nat) {
    ByteType(t) || WordType(t) || LongType(t) || RatType(t) || t == TYPE_FLOAT || t == TYPE_DOUBLE
  }

  // Types it can write inline; it gives up on others.
  predicate KnownInline(t: nat) {
    ByteType(t) || WordType(t) || LongType(t) || t == TYPE_FLOAT
  }

  function AtLeastFour(n: nat): nat {
    if n < 4 then 4 else n
  }

  predicate WellTyped(t: Tag) {
    && t.size == TypeSize(t.typ) * t.count && TypeSize(t.typ) > 0 && |t.data| == AtLeastFour(t.size)
    && t.id < 65536 && t.count < 0x8000_0000
  }

  // A value that does not fit the entry lies behind the directory.
  predicate IsFar(t: Tag) {
    t.size > 4
  }

  // ---------------------------------------------------------------- bytes of a value

  // The four bytes of an inline value.
  function Inline(be: bool, t: Tag): (r: seq<Byte>)
    requires |t.data| == 4
    ensures |r| == 4
  {
    if ByteType(t.typ) then t.data
    else if WordType(t.typ) then Swap(be, t.data[..2]) + Swap(be, t.data[2..])
    else Swap(be, t.data)
  }

  // One item of an out-of-line value; a rational number is two.
  function Item(be: bool, typ: nat, x: seq<Byte>): (r: seq<Byte>)
    requires |x| == TypeSize(typ)
    ensures |r| == |x|
  {
    if ByteType(typ) then x else if RatType(typ) then Swap(be, x[..4]) + Swap(be, x[4..]) else Swap(be, x)
  }

  function Items(be: bool, typ: nat, n: nat, s: seq<Byte>): (r: seq<Byte>)
    requires |s| == TypeSize(typ) * n
    ensures |r| == |s|
    decreases n
  {
    if n == 0 then []
    else
      var u := TypeSize(typ);
      assert u * n == u * (n - 1) + u;
      Item(be, typ, s[..u]) + Items(be, typ, n - 1, s[u..])
  }

  // The bytes of an out-of-line value; none for a type that goes elsewhere.
  function Emit(be: bool, t: Tag): (r: seq<Byte>)
    requires WellTyped(t) && IsFar(t)
    ensures |r| == if Known(t.typ) then t.size else 0
  {
    if Known(t.typ) then Items(be, t.typ, t.count, t.data) else []
  }

  lemma ItemPlain(typ: nat, x: seq<Byte>)
    requires |x| == TypeSize(typ)
    ensures Item(false, typ, x) == x
  {
    if RatType(typ) {
      assert x == x[..4] + x[4..];
    }
  }

  // Little-endian output is the memory image.
  lemma {:induction false} ItemsPlain(typ: nat, n: nat, s: seq<Byte>)
    requires |s| == TypeSize(typ) * n
    ensures Items(false, typ, n, s) == s
    decreases n
  {
    if n > 0 {
      var u := TypeSize(typ);
      assert u * n == u * (n - 1) + u;
      ItemPlain(typ, s[..u]);
      ItemsPlain(typ, n - 1, s[u..]);
      assert s == s[..u] + s[u..];
    }
  }

  // ---------------------------------------------------------------- tags as pieces of a directory

  function HeadOf(be: bool, t: Tag): (r: seq<Byte>)
    ensures |r| == 8
  {
    Put16(be, t.id) + Put16(be, t.typ) + Put32(be, t.count)
  }

  function PieceOf(be: bool, t: Tag): (p: Piece)
    requires WellTyped(t)
    ensures PieceOk(p) && (Written(p) <==> (IsFar(t) ==> Known(t.typ)))
    ensures Room(p) == if IsFar(t) then Even(t.size) else 0
  {
    if IsFar(t) then Far(HeadOf(be, t), t.size, Emit(be, t)) else Near(HeadOf(be, t), Inline(be, t))
  }

  // Items read or written one by one are counted with 16 bits; the loop over more of them never ends.
  predicate Countable(typ: nat, count: nat) {
    ByteType(typ) || count < 65536
  }

  // A tag the writer gets through.
  predicate WritableTag(t: Tag) {
    WellTyped(t) && if IsFar(t) then Countable(t.typ, t.count) else KnownInline(t.typ)
  }

  predicate Writable(tags: seq<Tag>) {
    |tags| < 65536 && forall i | 0 <= i < |tags| :: WritableTag(tags[i])
  }

  function PiecesOf(be: bool, tags: seq<Tag>): (r: seq<Piece>)
    requires Writable(tags)
    ensures |r| == |tags| && TagsOk(r)
    ensures forall i | 0 <= i < |r| :: r[i] == PieceOf(be, tags[i])
  {
    seq(|tags|, i requires 0 <= i < |tags| => PieceOf(be, tags[i]))
  }

  predicate AllWritable(ds: seq<Ifd>) {
    forall k | 0 <= k < |ds| :: Writable(ds[k].tags)
  }

  function DirsOf(be: bool, ds: seq<Ifd>): (r: seq<Dir>)
    requires AllWritable(ds)
    ensures |r| == |ds| && DirsOk(r)
    ensures forall k | 0 <= k < |r| :: r[k] == Dir(ds[k].nr, PiecesOf(be, ds[k].tags))
  {
    seq(|ds|, k requires 0 <= k < |ds| => Dir(ds[k].nr, PiecesOf(be, ds[k].tags)))
  }

  // ---------------------------------------------------------------- sizes

  function TagRoom(t: Tag): nat {
    if IsFar(t) then Even(t.size) else 0
  }

  function TagRooms(tags: seq<Tag>): nat {
    if tags == [] then 0 else TagRooms(tags[..|tags| - 1]) + TagRoom(tags[|tags| - 1])
  }

  // exif_ifd_size, on the tags themselves.
  function IfdSize(d: Ifd): nat {
    6 + 12 * |d.tags| + TagRooms(d.tags)
  }

  // Where the offset pass puts directory k, as long as nothing overflows.
  function IfdStart(ds: seq<Ifd>, k: nat): nat
    requires k <= |ds|
  {
    if k == 0 then 8 else IfdStart(ds, k - 1) + IfdSize(ds[k - 1])
  }

  lemma {:induction false} RoomsAreRooms(be: bool, tags: seq<Tag>)
    requires Writable(tags)
    ensures Rooms(PiecesOf(be, tags)) == TagRooms(tags)
  {
    if tags != [] {
      var n := |tags| - 1;
      RoomsAreRooms(be, tags[..n]);
      RoomIsRoom(be, tags, n);
    }
  }

  lemma RoomIsRoom(be: bool, tags: seq<Tag>, n: nat)
    requires Writable(tags) && |tags| == n + 1
    ensures PiecesOf(be, tags)[..n] == PiecesOf(be, tags[..n]) && Room(PiecesOf(be, tags)[n]) == TagRoom(tags[n])
  {
  }

  lemma SizesAreSizes(be: bool, ds: seq<Ifd>, k: nat)
    requires AllWritable(ds) && k < |ds|
    ensures DirSize(DirsOf(be, ds)[k]) == IfdSize(ds[k])
  {
    RoomsAreRooms(be, ds[k].tags);
  }

  lemma {:induction false} StartsAreStarts(be: bool, ds: seq<Ifd>, k: nat)
    requires AllWritable(ds) && k <= |ds|
    ensures Start(DirsOf(be, ds), k) == IfdStart(ds, k)
  {
    if k > 0 {
      var m := k - 1;
      StartsAreStarts(be, ds, m);
      SizesAreSizes(be, ds, m);
    }
  }

  predicate KnownTags(ds: seq<Ifd>) {
    forall k, i | 0 <= k < |ds| && 0 <= i < |ds[k].tags| :: IsFar(ds[k].tags[i]) ==> Known(ds[k].tags[i].typ)
  }

  lemma KnownIsWritten(be: bool, ds: seq<Ifd>)
    requires AllWritable(ds)
    ensures DirsWritten(DirsOf(be, ds)) <==> KnownTags(ds)
  {
    var r := DirsOf(be, ds);
    if DirsWritten(r) {
      forall k, i | 0 <= k < |ds| && 0 <= i < |ds[k].tags| ensures IsFar(ds[k].tags[i]) ==> Known(ds[k].tags[i].typ) {
        assert AllWritten(r[k].tags) && Written(r[k].tags[i]);
      }
    }
  }

  lemma {:induction false} StartsIncrease(ds: seq<Ifd>, j: nat, k: nat)
    requires j <= k <= |ds|
    ensures 8 <= IfdStart(ds, j) <= IfdStart(ds, k)
    decreases k
  {
    if j < k {
      StartsIncrease(ds, j, k - 1);
    } else if j > 0 {
      StartsIncrease(ds, j - 1, j - 1);
    }
  }
  /** A value of type 14 is missing from its directory. */
  lemma UnknownTypeFallsShort(be: bool)
    ensures var ds := [Ifd(IFD0, [Tag(1, 14, 3, 6, [0, 0, 0, 0, 0, 0])])];
      AllWritable(ds) && |Body(be, DirsOf(be, ds), 1)| < Start(DirsOf(be, ds), 1)
  {
    var t := Tag(1, 14, 3, 6, [0, 0, 0, 0, 0, 0]);
    var ds := [Ifd(IFD0, [t])];
    var r := DirsOf(be, ds);
    BodyEndsAtStart(be, r, 1);
    assert !Written(PieceOf(be, t)) && r[0].tags[0] == PieceOf(be, t);
    assert !AllWritten(r[0].tags);
  }
}
