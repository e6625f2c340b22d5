// One image, from its only tag to the bytes of its segment in both orders.
module ExifExample {
  import opened Bytes
  import opened ExifLayout
  import opened ExifModel
  import opened ExifPass
  import opened StableSort
  import opened ExifRead

  const MAKE := Tag(0x010F, 2, 5, 5, [0x43, 0x61, 0x6E, 0x6F, 0x6E])
  const VERSION := Tag(TAG_GPS_VERSION, 4, 1, 4, Le32(2))

  function Pointer(at: int): Tag {
    Tag(TAG_GPS_IFD, 4, 1, 4, Le32(at))
  }

  // The image with the GPS pointer at this value.
  function Image(at: int): seq<Ifd> {
    [Ifd(0, [MAKE, Pointer(at)]), Ifd(3, [VERSION])]
  }

  lemma TwoTags(a: Tag, b: Tag)
    requires a.id < b.id
    ensures TagIndex([a, b], b.id) == 1 && TagIndex([a], b.id) == 1
    ensures SortBy([a, b], ById) == [a, b] && SortBy([a], ById) == [a]
  {
    assert [a, b][..1] == [a];
    SortOne(a, ById);
    assert TagIndex([a][1..], b.id) == 0;
    assert [a, b][1..] == [b] && TagIndex([b], b.id) == 0;
  }

  lemma TwoRooms(a: Tag, b: Tag)
    ensures TagRooms([a, b]) == TagRoom(a) + TagRoom(b) && TagRooms([a]) == TagRoom(a)
  {
    assert [a][..0] == [];
    assert TagRooms([a]) == TagRooms([a][..0]) + TagRoom(a) == TagRoom(a);
    assert [a, b][..1] == [a];
  }

  lemma TwoIfds(a: Ifd, b: Ifd)
    requires a.nr < b.nr
    ensures IfdIndex([a, b], a.nr) == 0 && IfdIndex([a], b.nr) == 1 && IfdIndex([a], a.nr) == 0
    ensures SortBy([a, b], ByNr) == [a, b]
  {
    assert [a, b][..1] == [a] && [a][1..] == [];
    SortOne(a, ByNr);
  }

  lemma ImageStarted()
    ensures Started([Ifd(0, [MAKE])]) == Image(0)
  {
    TwoTags(MAKE, Pointer(0));
    TwoIfds(Ifd(0, [MAKE]), Ifd(3, [VERSION]));
    TwoIfds(Ifd(0, [MAKE, Pointer(0)]), Ifd(3, [VERSION]));
    var d1 := WithLong([Ifd(0, [MAKE])], 0, TAG_GPS_IFD, 0);
    assert d1 == [Ifd(0, [MAKE, Pointer(0)])];
    assert WithLongTag([], TAG_GPS_VERSION, 2) == [VERSION];
    assert WithLong(d1, 3, TAG_GPS_VERSION, 2) == Image(0);
  }

  lemma ImageSizes(d: seq<Ifd>, at: int)
    requires d == Image(at)
    ensures |d| == 2 && IfdSize(d[0]) == 36 && IfdSize(d[1]) == 18
  {
    TwoRooms(MAKE, Pointer(at));
    TwoRooms(VERSION, Pointer(at));
  }

  lemma PointerStored(d: seq<Ifd>, len: nat)
    requires d == Image(0)
    ensures Stored(d, 1, len) == Image(len)
  {
    TwoTags(MAKE, Pointer(0));
    TwoIfds(d[0], d[1]);
    assert LongIn(Pointer(0), len) == Pointer(len);
    assert WithLongTag(d[0].tags, TAG_GPS_IFD, len) == [MAKE, Pointer(len)];
  }

  lemma PassTwo(d: seq<Ifd>, e: seq<Ifd>, len: nat, len': nat, len'': nat)
    requires |d| == 2 && |e| == 2 && Stored(d, 0, len) == d && Stored(d, 1, len') == e
    requires len' == (len + IfdSize(d[0])) % 65536 && len'' == (len' + IfdSize(e[1])) % 65536
    ensures Pass(d, 0, 2, len) == Passed(e, len'')
  {
    assert Pass(e, 2, 2, len'') == Passed(e, len'');
    assert Pass(d, 1, 2, len') == Pass(e, 2, 2, len'');
  }

  lemma ImagePassed(d: seq<Ifd>, start: nat)
    requires d == Image(0) && start == 8
    ensures Pass(d, 0, 2, start) == Passed(Image(44), 62)
  {
    ImageSizes(d, 0);
    ImageSizes(Image(44), 44);
    PointerStored(d, 44);
    PassTwo(d, Image(44), start, 44, 62);
  }

  lemma ImageLaidOut()
    ensures LaidOut([Ifd(0, [MAKE])]) == Image(44)
  {
    ImageStarted();
    ImagePassed(Image(0), 8);
    NoSecond(Image(44), 62);
    TagsInOrder(Image(44), 44);
  }

  lemma TagsInOrder(d: seq<Ifd>, at: int)
    requires d == Image(at)
    ensures SortedTags(d) == d
  {
    TwoTags(MAKE, Pointer(at));
    SortOne(VERSION, ById);
    var r := SortedTags(d);
    assert r[0] == d[0] && r[1] == d[1];
  }

  lemma NoSecond(ds: seq<Ifd>, len: nat)
    requires forall k | 0 <= k < |ds| :: ds[k].nr != IFD1
    ensures WithThumbnail(Passed(ds, len)) == ds
  {
  }

  // ---------------------------------------------------------------- bytes

  // Two or four bytes in one order or the other.
  function Two(be: bool, a: Byte, b: Byte): seq<Byte> {
    if be then [b, a] else [a, b]
  }

  function FourOf(be: bool, a: Byte, b: Byte, c: Byte, d: Byte): seq<Byte> {
    if be then [d, c, b, a] else [a, b, c, d]
  }

  lemma Put16Is(be: bool, x: int, a: Byte, b: Byte)
    requires x == a as int + 256 * b as int
    ensures Put16(be, x) == Two(be, a, b)
  {
    Le16Is(x, a, b);
    SwapTwo(Le16(x));
  }

  lemma Put32Is(be: bool, x: int, a: Byte, b: Byte, c: Byte, d: Byte)
    requires x == a as int + 256 * b as int + 65536 * (c as int + 256 * d as int)
    ensures Put32(be, x) == FourOf(be, a, b, c, d)
  {
    Le32Is(x, a, b, c, d);
    ReversedFour(Le32(x));
  }

  lemma {:induction false} ItemsOfBytes(be: bool, n: nat, s: seq<Byte>)
    requires |s| == n
    ensures Items(be, 2, n, s) == s
  {
    if n > 0 {
      ItemsOfBytes(be, n - 1, s[1..]);
      assert s == s[..1] + s[1..];
    }
  }

  lemma OnePiece(be: bool, a: Piece, base: nat)
    requires PieceOk(a)
    ensures Rooms([a]) == Room(a) && Entries(be, [a], base) == Entry(be, a, base) && Payloads([a]) == Payload(a)
  {
    assert [a][..0] == [];
    assert Rooms([a][..0]) == 0 && Entries(be, [a][..0], base) == [] && Payloads([a][..0]) == [];
  }

  lemma TwoPieces(be: bool, a: Piece, b: Piece, base: nat)
    requires PieceOk(a) && PieceOk(b)
    ensures Entries(be, [a, b], base) == Entry(be, a, base) + Entry(be, b, base + Room(a))
    ensures Payloads([a, b]) == Payload(a) + Payload(b) && Rooms([a, b]) == Room(a) + Room(b)
  {
    OnePiece(be, a, base);
    assert [a, b][..1] == [a];
  }

  // A pointer or another long in an entry.
  lemma LongPiece(be: bool, t: Tag, v: int)
    requires t.typ == 4 && t.count == 1 && t.size == 4 && t.data == Le32(v) && t.id < 65536
    ensures WritableTag(t) && PieceOf(be, t) == Near(HeadOf(be, t), Put32(be, v))
  {
  }

  lemma MakePiece(be: bool)
    ensures WritableTag(MAKE) && PieceOf(be, MAKE) == Far(HeadOf(be, MAKE), 5, MAKE.data)
  {
    ItemsOfBytes(be, 5, MAKE.data);
  }

  lemma Heads(be: bool)
    ensures HeadOf(be, MAKE) == Two(be, 0x0F, 0x01) + Two(be, 2, 0) + FourOf(be, 5, 0, 0, 0)
    ensures forall v: int :: HeadOf(be, Pointer(v)) == Two(be, 0x25, 0x88) + Two(be, 4, 0) + FourOf(be, 1, 0, 0, 0)
    ensures HeadOf(be, VERSION) == Two(be, 0, 0) + Two(be, 4, 0) + FourOf(be, 1, 0, 0, 0)
  {
    Put16Is(be, 0x010F, 0x0F, 0x01);
    Put16Is(be, 0x8825, 0x25, 0x88);
    Put16Is(be, 0, 0, 0);
    Put16Is(be, 2, 2, 0);
    Put16Is(be, 4, 4, 0);
    Put32Is(be, 5, 5, 0, 0, 0);
    Put32Is(be, 1, 1, 0, 0, 0);
  }

  // Two entries, the text's offset in one and the pointer to the GPS directory in the other; the text and a zero to
  // make it even.
  function FirstBytes(be: bool): seq<Byte> {
    Two(be, 2, 0)
    + (Two(be, 0x0F, 0x01) + Two(be, 2, 0) + FourOf(be, 5, 0, 0, 0) + FourOf(be, 38, 0, 0, 0)
      + (Two(be, 0x25, 0x88) + Two(be, 4, 0) + FourOf(be, 1, 0, 0, 0) + FourOf(be, 44, 0, 0, 0)))
    + FourOf(be, 0, 0, 0, 0) + ([0x43, 0x61, 0x6E, 0x6F, 0x6E] + [0] + [])
  }

  lemma FirstDir(be: bool, d: Dir)
    requires d == Dir(0, [PieceOf(be, MAKE), PieceOf(be, Pointer(44))])
    ensures TagsOk(d.tags) && DirBytes(be, d, 8, false) == FirstBytes(be) && |FirstBytes(be)| == 36
  {
    MakePiece(be);
    LongPiece(be, Pointer(44), 44);
    Heads(be);
    TwoPieces(be, PieceOf(be, MAKE), PieceOf(be, Pointer(44)), 38);
    Put16Is(be, 2, 2, 0);
    Put32Is(be, 38, 38, 0, 0, 0);
    Put32Is(be, 44, 44, 0, 0, 0);
    Put32Is(be, 0, 0, 0, 0, 0);
  }

  // One entry with the version.
  function SecondBytes(be: bool): seq<Byte> {
    Two(be, 1, 0) + (Two(be, 0, 0) + Two(be, 4, 0) + FourOf(be, 1, 0, 0, 0) + FourOf(be, 2, 0, 0, 0)) + FourOf(be, 0, 0, 0, 0) + []
  }

  lemma SecondDir(be: bool, d: Dir)
    requires d == Dir(3, [PieceOf(be, VERSION)])
    ensures TagsOk(d.tags) && DirBytes(be, d, 44, false) == SecondBytes(be)
  {
    LongPiece(be, VERSION, 2);
    Heads(be);
    OnePiece(be, PieceOf(be, VERSION), 62);
    Put16Is(be, 1, 1, 0);
    Put32Is(be, 2, 2, 0, 0, 0);
    Put32Is(be, 0, 0, 0, 0, 0);
  }

  lemma ImageDirs(be: bool)
    ensures AllWritable(Image(44))
    ensures DirsOf(be, Image(44)) == [Dir(0, [PieceOf(be, MAKE), PieceOf(be, Pointer(44))]), Dir(3, [PieceOf(be, VERSION)])]
  {
    MakePiece(be);
    LongPiece(be, Pointer(44), 44);
    LongPiece(be, VERSION, 2);
    var r := DirsOf(be, Image(44));
    assert r[0].tags == [PieceOf(be, MAKE), PieceOf(be, Pointer(44))];
    assert r[1].tags == [PieceOf(be, VERSION)];
  }

  function HeaderBytes(be: bool): seq<Byte> {
    (if be then [0x4D, 0x4D] else [0x49, 0x49]) + Two(be, 0x2A, 0) + FourOf(be, 8, 0, 0, 0)
  }

  lemma HeaderIs(be: bool)
    ensures Header(be) == HeaderBytes(be)
  {
    Put16Is(be, 0x2A, 0x2A, 0);
    Put32Is(be, 8, 8, 0, 0, 0);
  }

  /** An image with a single text, laid out and written in either order, byte for byte: mark and header, the first
      directory, the GPS directory that was added, the zero word, the thumbnail. */
  lemma ImageIsWritten(be: bool, thumb: seq<Byte>)
    ensures AllWritable(LaidOut([Ifd(0, [MAKE])]))
    ensures Segment(be, DirsOf(be, LaidOut([Ifd(0, [MAKE])])), thumb)
      == HeaderBytes(be) + FirstBytes(be) + SecondBytes(be) + FourOf(be, 0, 0, 0, 0) + thumb
  {
    ImageLaidOut();
    ImageDirs(be);
    var dirs := DirsOf(be, Image(44));
    FirstDir(be, dirs[0]);
    SecondDir(be, dirs[1]);
    HeaderIs(be);
    Put32Is(be, 0, 0, 0, 0, 0);
    BodyOfTwo(be, dirs, FirstBytes(be), SecondBytes(be));
  }

  lemma BodyOfTwo(be: bool, dirs: seq<Dir>, a: seq<Byte>, b: seq<Byte>)
    requires |dirs| == 2 && DirsOk(dirs) && dirs[0].nr == 0 && dirs[1].nr == 3
    requires DirBytes(be, dirs[0], 8, false) == a && |a| == 36 && DirBytes(be, dirs[1], 44, false) == b
    ensures Body(be, dirs, 2) == Header(be) + a + b
  {
    assert Body(be, dirs, 0) == Header(be);
    assert Body(be, dirs, 1) == Header(be) + a;
  }
}
